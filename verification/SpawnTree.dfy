/** The trace processor's view of a build: one record sequence per process, and the
    requirement that the spawn records tie them into a single tree. */
module SpawnTree {
  import opened Wrappers

  /** What a record means for the process tree: a successful spawn, a successful change
      of the working directory (absolute results of `fchdir` and `getcwd`, or a `chdir`
      value still to be resolved), a successful exec, or nothing. */
  datatype Record = Spawn(child: nat) | Enter(path: string) | Chdir(value: string) | Exec | Quiet

  type Traces = map<nat, seq<Record>>

  ghost predicate SpawnAt(traces: Traces, q: nat, i: nat, c: nat) {
    q in traces && i < |traces[q]| && traces[q][i] == Spawn(c)
  }

  ghost predicate Spawned(traces: Traces, c: nat) {
    exists q, i :: SpawnAt(traces, q, i, c)
  }

  ghost predicate UniqueSpawns(traces: Traces) {
    forall q, i, q', i', c :: SpawnAt(traces, q, i, c) && SpawnAt(traces, q', i', c) ==> q == q' && i == i'
  }

  ghost predicate ChildrenTraced(traces: Traces) {
    forall q, i, c :: SpawnAt(traces, q, i, c) ==> c in traces
  }

  ghost predicate IsRoot(traces: Traces, r: nat) {
    r in traces && !Spawned(traces, r)
  }

  ghost predicate SpawnEdge(traces: Traces, a: nat, b: nat) {
    exists i :: SpawnAt(traces, a, i, b)
  }

  ghost predicate Path(traces: Traces, p: seq<nat>) {
    |p| > 0 && forall i, j :: 0 <= i < j < |p| && j == i + 1 ==> SpawnEdge(traces, p[i], p[j])
  }

  ghost predicate Descends(traces: Traces, r: nat, c: nat) {
    exists p :: Path(traces, p) && p[0] == r && p[|p| - 1] == c
  }

  /** The spawn relation is one tree: no process is spawned twice, every spawned process
      has a trace, and all descend from the only one that was not spawned. */
  ghost predicate OneTree(traces: Traces, r: nat) {
    && UniqueSpawns(traces) && ChildrenTraced(traces) && IsRoot(traces, r)
    && forall c :: c in traces ==> Descends(traces, r, c)
  }

  lemma OnlyRoot(traces: Traces, r: nat, s: nat)
    requires OneTree(traces, r) && IsRoot(traces, s)
    ensures r == s
  {
    var p :| Path(traces, p) && p[0] == r && p[|p| - 1] == s;
    if |p| > 1 {
      assert SpawnEdge(traces, p[|p| - 2], p[|p| - 1]);
      assert Spawned(traces, s);
    }
  }

  lemma DescendsStep(traces: Traces, r: nat, a: nat, b: nat)
    requires Descends(traces, r, a) && SpawnEdge(traces, a, b)
    ensures Descends(traces, r, b)
  {
    var p :| Path(traces, p) && p[0] == r && p[|p| - 1] == a;
    var q := p + [b];
    assert Path(traces, q) && q[0] == r && q[|q| - 1] == b;
  }

  lemma DescendsSelf(traces: Traces, r: nat)
    ensures Descends(traces, r, r)
  {
    var p := [r];
    assert Path(traces, p) && p[0] == r && p[|p| - 1] == r;
  }

  /** A set of processes that holds the root and is closed under spawning holds every
      descendant. */
  lemma {:induction false} ClosedHolds(traces: Traces, s: set<nat>, p: seq<nat>)
    requires Path(traces, p) && p[0] in s
    requires forall a, b :: a in s && SpawnEdge(traces, a, b) ==> b in s
    ensures p[|p| - 1] in s
    decreases |p|
  {
    if |p| > 1 {
      assert SpawnEdge(traces, p[0], p[1]);
      var q := p[1..];
      assert Path(traces, q) by {
        forall i, j | 0 <= i < j < |q| && j == i + 1 ensures SpawnEdge(traces, q[i], q[j]) {
          assert q[i] == p[i + 1] && q[j] == p[j + 1];
        }
      }
      ClosedHolds(traces, s, q);
    }
  }

  // ---------- working directories ----------

  function CwdAfter(record: Record, cwd: string, resolve: (string, string) -> string): string {
    match record
    case Enter(path) => path
    case Chdir(value) => resolve(value, cwd)
    case _ => cwd
  }

  /** The working directory after a run of records. */
  function CwdOf(records: seq<Record>, cwd: string, resolve: (string, string) -> string): string {
    if records == [] then cwd
    else CwdAfter(records[|records| - 1], CwdOf(records[..|records| - 1], cwd, resolve), resolve)
  }

  function Execs(records: seq<Record>): nat {
    if records == [] then 0
    else Execs(records[..|records| - 1]) + if records[|records| - 1].Exec? then 1 else 0
  }

  // ---------- the scan before processing ----------

  /** `children` is what the scanned record positions spawn, each once and traced. */
  ghost predicate Sound(traces: Traces, scanned: set<(nat, nat)>, children: set<nat>) {
    && (forall q: nat, i: nat, c: nat :: (q, i) in scanned && SpawnAt(traces, q, i, c) ==> c in children && c in traces)
    && (forall c :: c in children ==> SpawnedIn(traces, scanned, c))
    && (forall q: nat, i: nat, q': nat, i': nat, c: nat ::
         (q, i) in scanned && (q', i') in scanned && SpawnAt(traces, q, i, c) && SpawnAt(traces, q', i', c) ==>
             q == q' && i == i')
  }

  ghost predicate SpawnedIn(traces: Traces, scanned: set<(nat, nat)>, c: nat) {
    exists q: nat, i: nat :: (q, i) in scanned && SpawnAt(traces, q, i, c)
  }

  lemma SoundQuiet(traces: Traces, scanned: set<(nat, nat)>, children: set<nat>, pid: nat, n: nat)
    requires Sound(traces, scanned, children) && pid in traces && n < |traces[pid]| && !traces[pid][n].Spawn?
    ensures Sound(traces, scanned + {(pid, n)}, children)
  {
    var more := scanned + {(pid, n)};
    forall c | c in children ensures SpawnedIn(traces, more, c) {
      var q: nat, i: nat :| (q, i) in scanned && SpawnAt(traces, q, i, c);
      assert (q, i) in more;
    }
  }

  lemma SoundSpawn(traces: Traces, scanned: set<(nat, nat)>, children: set<nat>, pid: nat, n: nat)
    requires Sound(traces, scanned, children) && pid in traces && n < |traces[pid]| && traces[pid][n].Spawn?
    requires (pid, n) !in scanned
    ensures
      var c := traces[pid][n].child;
      && (c in children ==> !UniqueSpawns(traces))
      && (c !in traces ==> !ChildrenTraced(traces))
      && (c !in children && c in traces ==> Sound(traces, scanned + {(pid, n)}, children + {c}))
  {
    var c := traces[pid][n].child;
    assert SpawnAt(traces, pid, n, c);
    var more := scanned + {(pid, n)};
    if c in children {
      var q: nat, i: nat :| (q, i) in scanned && SpawnAt(traces, q, i, c);
      assert (q, i) != (pid, n);
    } else {
      forall d | d in children + {c} ensures SpawnedIn(traces, more, d) {
        if d == c {
          assert (pid, n) in more;
        } else {
          var q: nat, i: nat :| (q, i) in scanned && SpawnAt(traces, q, i, d);
          assert (q, i) in more;
        }
      }
    }
  }

  /** The record positions of some traces. */
  ghost function Positions(traces: Traces, pids: set<nat>): set<(nat, nat)> {
    set q, i | q in pids && q in traces && 0 <= i < |traces[q]| :: (q, i)
  }

  /** The scan at the start of `run`: it passes exactly when no process is spawned twice
      and every spawned process has a trace. */
  method Scan(traces: Traces) returns (ok: bool, children: set<nat>)
    ensures ok <==> UniqueSpawns(traces) && ChildrenTraced(traces)
    ensures ok ==> forall c :: c in children <==> Spawned(traces, c)
  {
    hide Sound, UniqueSpawns, ChildrenTraced;
    children := {};
    var rest := traces.Keys;
    ghost var scanned: set<(nat, nat)> := {};
    SoundNothing(traces);
    while rest != {}
      invariant rest <= traces.Keys && scanned == Positions(traces, traces.Keys - rest)
      invariant Sound(traces, scanned, children)
      decreases |rest|
    {
      var pid :| pid in rest;
      var n := 0;
      ghost var before := scanned;
      while n < |traces[pid]|
        invariant 0 <= n <= |traces[pid]|
        invariant scanned == before + set i | 0 <= i < n :: (pid, i)
        invariant Sound(traces, scanned, children)
      {
        assert (pid, n) !in scanned;
        if traces[pid][n].Spawn? {
          var child := traces[pid][n].child;
          SoundSpawn(traces, scanned, children, pid, n);
          if child in children || child !in traces { return false, children; }
          children := children + {child};
        } else {
          SoundQuiet(traces, scanned, children, pid, n);
        }
        scanned := scanned + {(pid, n)};
        n := n + 1;
      }
      assert scanned == Positions(traces, traces.Keys - (rest - {pid}));
      rest := rest - {pid};
    }
    assert traces.Keys - {} == traces.Keys;
    SoundEverything(traces, scanned, children);
    return true, children;
  }

  lemma SoundNothing(traces: Traces)
    ensures Sound(traces, {}, {}) && Positions(traces, traces.Keys - traces.Keys) == {}
  {
  }

  lemma SoundEverything(traces: Traces, scanned: set<(nat, nat)>, children: set<nat>)
    requires Sound(traces, scanned, children) && scanned == Positions(traces, traces.Keys)
    ensures UniqueSpawns(traces) && ChildrenTraced(traces)
    ensures forall c :: c in children <==> Spawned(traces, c)
  {
    assert forall q: nat, i: nat, c: nat :: SpawnAt(traces, q, i, c) ==> (q, i) in scanned;
    forall c | c in children ensures Spawned(traces, c) {
      assert SpawnedIn(traces, scanned, c);
    }
  }

  // ---------- the books of a run ----------

  /** Working directories at the start of each process entered, spawn records acted on,
      and processes in the order they were entered. */
  datatype Books = Books(started: map<nat, string>, executed: set<(nat, nat)>, visits: seq<nat>)

  type Resolve = (string, string) -> string

  /** `c` was entered by the spawn record for it, with the working directory its parent
      had there. */
  ghost predicate Entered(traces: Traces, resolve: Resolve, b: Books, c: nat, q: nat, i: nat) {
    && (q, i) in b.executed && q in b.started && c in b.started
    && SpawnAt(traces, q, i, c)
    && b.started[c] == CwdOf(traces[q][..i], b.started[q], resolve)
  }

  ghost predicate Justified(traces: Traces, root: nat, resolve: Resolve, b: Books, c: nat) {
    c == root || exists q: nat, i: nat :: Entered(traces, resolve, b, c, q, i)
  }

  ghost predicate Kept(traces: Traces, root: nat, resolve: Resolve, b: Books) {
    && b.started.Keys <= traces.Keys
    && (forall q: nat, i: nat :: (q, i) in b.executed ==> q in b.started)
    && (forall c :: c in b.started ==> Justified(traces, root, resolve, b, c))
    && (forall c :: c in b.started ==> Descends(traces, root, c))
    && (forall c :: c in b.started <==> c in b.visits)
    && (forall i, j :: 0 <= i < j < |b.visits| ==> b.visits[i] != b.visits[j])
  }

  function Open(b: Books, pid: nat, cwd: string): Books {
    Books(b.started[pid := cwd], b.executed, b.visits + [pid])
  }

  function Mark(b: Books, pid: nat, i: nat): Books {
    b.(executed := b.executed + {(pid, i)})
  }

  /** How a process may be entered: the root, or by a marked spawn record. */
  ghost predicate MayEnter(traces: Traces, root: nat, resolve: Resolve, b: Books, pid: nat, cwd: string, parent: nat,
                           at: nat) {
    && pid in traces && pid !in b.started
    && (pid == root ||
        (parent in b.started && (parent, at) in b.executed && SpawnAt(traces, parent, at, pid)
         && cwd == CwdOf(traces[parent][..at], b.started[parent], resolve)))
  }

  lemma OpenJustifies(traces: Traces, root: nat, resolve: Resolve, b: Books, pid: nat, cwd: string, c: nat)
    requires pid !in b.started && c in b.started && Justified(traces, root, resolve, b, c)
    ensures Justified(traces, root, resolve, Open(b, pid, cwd), c)
  {
    if c != root {
      var q: nat, i: nat :| Entered(traces, resolve, b, c, q, i);
      assert Entered(traces, resolve, Open(b, pid, cwd), c, q, i);
    }
  }

  lemma OpenEnters(traces: Traces, root: nat, resolve: Resolve, b: Books, pid: nat, cwd: string, parent: nat, at: nat)
    requires Kept(traces, root, resolve, b) && MayEnter(traces, root, resolve, b, pid, cwd, parent, at)
    ensures Justified(traces, root, resolve, Open(b, pid, cwd), pid) && Descends(traces, root, pid)
  {
    hide Justified, Descends;
    if pid == root {
      DescendsSelf(traces, root);
      RootJustified(traces, root, resolve, Open(b, pid, cwd));
    } else {
      assert Descends(traces, root, parent);
      hide Kept;
      assert Entered(traces, resolve, Open(b, pid, cwd), pid, parent, at);
      EnteredJustified(traces, root, resolve, Open(b, pid, cwd), pid, parent, at);
      assert SpawnEdge(traces, parent, pid);
      DescendsStep(traces, root, parent, pid);
    }
  }

  lemma RootJustified(traces: Traces, root: nat, resolve: Resolve, b: Books)
    ensures Justified(traces, root, resolve, b, root)
  {
  }

  lemma EnteredJustified(traces: Traces, root: nat, resolve: Resolve, b: Books, c: nat, q: nat, i: nat)
    requires Entered(traces, resolve, b, c, q, i)
    ensures Justified(traces, root, resolve, b, c)
  {
  }

  lemma OpenKeeps(traces: Traces, root: nat, resolve: Resolve, b: Books, pid: nat, cwd: string, parent: nat, at: nat)
    requires Kept(traces, root, resolve, b) && MayEnter(traces, root, resolve, b, pid, cwd, parent, at)
    ensures Kept(traces, root, resolve, Open(b, pid, cwd))
  {
    hide Descends, Justified;
    OpenEnters(traces, root, resolve, b, pid, cwd, parent, at);
    var o := Open(b, pid, cwd);
    forall c | c in b.started ensures Justified(traces, root, resolve, o, c) {
      OpenJustifies(traces, root, resolve, b, pid, cwd, c);
    }
    assert forall c :: c in o.visits <==> c in b.visits || c == pid;
  }

  lemma MarkJustifies(traces: Traces, root: nat, resolve: Resolve, b: Books, pid: nat, i: nat, c: nat)
    requires Justified(traces, root, resolve, b, c)
    ensures Justified(traces, root, resolve, Mark(b, pid, i), c)
  {
    if c != root {
      var q: nat, j: nat :| Entered(traces, resolve, b, c, q, j);
      assert Entered(traces, resolve, Mark(b, pid, i), c, q, j);
    }
  }

  lemma MarkKeeps(traces: Traces, root: nat, resolve: Resolve, b: Books, pid: nat, i: nat)
    requires Kept(traces, root, resolve, b) && pid in b.started
    ensures Kept(traces, root, resolve, Mark(b, pid, i))
  {
    hide Descends, Justified;
    var m := Mark(b, pid, i);
    forall c | c in m.started ensures Justified(traces, root, resolve, m, c) {
      MarkJustifies(traces, root, resolve, b, pid, i, c);
    }
  }

  /** A spawn record not yet acted on leads to a process not yet entered. */
  lemma NewChild(traces: Traces, root: nat, resolve: Resolve, b: Books, pid: nat, i: nat, c: nat)
    requires UniqueSpawns(traces) && IsRoot(traces, root) && Kept(traces, root, resolve, b)
    requires SpawnAt(traces, pid, i, c) && (pid, i) !in b.executed
    ensures c !in b.started
  {
    hide Descends, CwdOf;
    assert Spawned(traces, c);
    assert c in b.started ==> Justified(traces, root, resolve, b, c);
  }

  /** What processing adds: spawn records of newly entered processes only; the rest of
      the books stays. */
  ghost predicate Extends(b: Books, m: Books) {
    && b.executed <= m.executed
    && (forall c :: c in b.started ==> c in m.started && m.started[c] == b.started[c])
    && (forall q: nat, i: nat :: (q, i) in m.executed && (q, i) !in b.executed ==> q !in b.started)
  }

  /** Processing adds evidence for newly entered processes only. */
  ghost predicate Adds(b: Books, before: Evidences, after: Evidences) {
    && (forall c :: c in before ==> c in after && after[c] == before[c])
    && (forall c :: c in after && c !in before ==> c !in b.started)
  }

  // ---------- processing ----------

  datatype Evidence = Evidence(parent: nat, execs: nat)

  type Evidences = map<nat, Evidence>

  /** The evidence is complete for `c`, and everything it spawned was entered. */
  ghost predicate Finished(traces: Traces, evidence: Evidences, b: Books, c: nat) {
    && c in traces && c in evidence && evidence[c].execs == Execs(traces[c])
    && (forall i: nat, d: nat :: SpawnAt(traces, c, i, d) ==> d in b.started)
  }

  /** The same for a process that was spawned by the parent on record. */
  ghost predicate Recorded(traces: Traces, evidence: Evidences, b: Books, c: nat) {
    Finished(traces, evidence, b, c) && SpawnEdge(traces, evidence[c].parent, c)
  }

  /** The processes a call entered, other than `pid`, are on record. */
  ghost predicate AllRecorded(traces: Traces, evidence: Evidences, b: Books, before: Books, pid: nat) {
    forall c :: c in b.started && c !in before.started && c != pid ==> Recorded(traces, evidence, b, c)
  }

  lemma RecordedLater(traces: Traces, evidence: Evidences, b: Books, evidence': Evidences, m: Books,
                      c: nat)
    requires Recorded(traces, evidence, b, c) && c in evidence' && evidence'[c] == evidence[c]
    requires b.started.Keys <= m.started.Keys
    ensures Recorded(traces, evidence', m, c)
  {
    hide SpawnEdge;
  }

  /** What holds of the trace of `pid` before its record `i`, the call having begun with
      the books `o` and the evidence `e0`. */
  ghost predicate Progress(traces: Traces, o: Books, e0: Evidences, b: Books, e: Evidences, pid: nat,
                           cwd: string, i: nat) {
    && Extends(o, b) && Adds(o, e0, e)
    && pid !in o.started && pid in b.started && b.started[pid] == cwd && pid !in e
    && (forall j: nat :: (pid, j) in b.executed ==> j < i)
    && (forall j: nat, d: nat :: j < i && SpawnAt(traces, pid, j, d) ==> d in b.started)
    && AllRecorded(traces, e, b, o, pid)
  }

  lemma AddsMark(b: Books, pid: nat, i: nat, e: Evidences)
    ensures forall e' :: Adds(Mark(b, pid, i), e, e') ==> Adds(b, e, e')
  {
  }

  lemma ProgressStart(traces: Traces, root: nat, resolve: Resolve, o: Books, e: Evidences, pid: nat,
                      cwd: string)
    requires Kept(traces, root, resolve, o) && pid !in o.started && pid !in e
    ensures Progress(traces, o, e, Open(o, pid, cwd), e, pid, cwd, 0)
  {
    hide Recorded, Descends, Justified;
  }

  lemma ProgressGives(traces: Traces, o: Books, e0: Evidences, b: Books, e: Evidences, pid: nat,
                      cwd: string, i: nat)
    requires Progress(traces, o, e0, b, e, pid, cwd, i)
    ensures Extends(o, b) && (pid, i) !in b.executed && pid in b.started && b.started[pid] == cwd
    ensures o.started.Keys + {pid} <= b.started.Keys && pid !in o.started
  {
    hide AllRecorded;
  }

  lemma ProgressQuiet(traces: Traces, o: Books, e0: Evidences, b: Books, e: Evidences, pid: nat,
                      cwd: string, i: nat)
    requires Progress(traces, o, e0, b, e, pid, cwd, i) && pid in traces && i < |traces[pid]| &&
             !traces[pid][i].Spawn?
    ensures Progress(traces, o, e0, b, e, pid, cwd, i + 1)
  {
    hide Recorded, Extends, Adds;
  }

  lemma ProgressSpawn(traces: Traces, o: Books, e0: Evidences, b: Books, e: Evidences, m: Books, e': Evidences,
                      pid: nat, cwd: string, i: nat, child: nat)
    requires Progress(traces, o, e0, b, e, pid, cwd, i) && SpawnAt(traces, pid, i, child)
    requires Extends(Mark(b, pid, i), m) && Adds(b, e, e') && child in m.started
    requires forall c :: c in m.started && c !in b.started ==> Recorded(traces, e', m, c)
    ensures Progress(traces, o, e0, m, e', pid, cwd, i + 1)
  {
    hide Recorded;
    assert AllRecorded(traces, e', m, o, pid) by {
      forall c | c in m.started && c !in o.started && c != pid ensures Recorded(traces, e', m, c) {
        if c in b.started {
          RecordedIs(traces, e, b, c);
          RecordedLater(traces, e, b, e', m, c);
        }
      }
    }
    hide AllRecorded;
  }

  lemma RecordedIs(traces: Traces, e: Evidences, b: Books, c: nat)
    requires Recorded(traces, e, b, c)
    ensures c in e
  {
  }

  lemma ProgressEnd(traces: Traces, o: Books, e0: Evidences, b: Books, e: Evidences, pid: nat,
                    cwd: string, ev: Evidence)
    requires pid in traces && Progress(traces, o, e0, b, e, pid, cwd, |traces[pid]|) &&
             ev.execs == Execs(traces[pid])
    ensures
      var e' := e[pid := ev];
      Adds(o, e0, e') && Finished(traces, e', b, pid) && AllRecorded(traces, e', b, o, pid)
  {
    hide Recorded, Execs;
    var e' := e[pid := ev];
    forall c | c in b.started && c !in o.started && c != pid ensures Recorded(traces, e', b, c) {
      RecordedIs(traces, e, b, c);
      RecordedLater(traces, e, b, e', b, c);
    }
  }

  lemma RunStart(records: seq<Record>, cwd: string, resolve: Resolve)
    ensures CwdOf(records[..0], cwd, resolve) == cwd && Execs(records[..0]) == 0
  {
  }

  lemma RunNext(records: seq<Record>, i: nat, cwd: string, resolve: Resolve)
    requires i < |records|
    ensures CwdOf(records[..i + 1], cwd, resolve) == CwdAfter(records[i], CwdOf(records[..i], cwd, resolve), resolve)
    ensures Execs(records[..i + 1]) == Execs(records[..i]) + if records[i].Exec? then 1 else 0
  {
    assert records[..i + 1][..i] == records[..i];
  }

  // ---------- the walk ----------

  /** A record of a process and the working directory in which it was reached. */
  datatype Place = Place(pid: nat, index: nat, cwd: string)

  /** The places in the order of processing, from record `i` of `pid` on: the records of a
      spawned process come right after the record that spawned it. */
  ghost predicate Walk(traces: Traces, resolve: Resolve, pid: nat, i: nat, cwd: string, w: seq<Place>)
    decreases |w|
  {
    && pid in traces && i <= |traces[pid]|
    && if i == |traces[pid]| then w == []
       else
         && w != [] && w[0] == Place(pid, i, cwd)
         && if traces[pid][i].Spawn? then SpawnWalk(traces, resolve, pid, i, cwd, w)
            else Walk(traces, resolve, pid, i + 1, CwdAfter(traces[pid][i], cwd, resolve), w[1..])
  }

  ghost predicate SpawnWalk(traces: Traces, resolve: Resolve, pid: nat, i: nat, cwd: string, w: seq<Place>)
    requires pid in traces && i < |traces[pid]| && traces[pid][i].Spawn? && w != []
    decreases |w|, 0
  {
    exists k :: 1 <= k <= |w| && Walk(traces, resolve, traces[pid][i].child, 0, cwd, w[1..k])
                && Walk(traces, resolve, pid, i + 1, cwd, w[k..])
  }

  /** At a spawn, the walk of the child and then the rest. */
  lemma SpawnParts(traces: Traces, resolve: Resolve, pid: nat, i: nat, cwd: string, w: seq<Place>) returns (k: nat)
    requires Walk(traces, resolve, pid, i, cwd, w) && pid in traces && i < |traces[pid]| && traces[pid][i].Spawn?
    ensures 1 <= k <= |w| && w[0] == Place(pid, i, cwd)
    ensures Walk(traces, resolve, traces[pid][i].child, 0, cwd, w[1..k])
    ensures Walk(traces, resolve, pid, i + 1, cwd, w[k..])
  {
    assert SpawnWalk(traces, resolve, pid, i, cwd, w);
    k :| 1 <= k <= |w| && Walk(traces, resolve, traces[pid][i].child, 0, cwd, w[1..k])
         && Walk(traces, resolve, pid, i + 1, cwd, w[k..]);
  }

  /** At any other record, the rest. */
  lemma OtherPart(traces: Traces, resolve: Resolve, pid: nat, i: nat, cwd: string, w: seq<Place>)
    requires Walk(traces, resolve, pid, i, cwd, w) && pid in traces && i < |traces[pid]| && !traces[pid][i].Spawn?
    ensures w != [] && w[0] == Place(pid, i, cwd)
    ensures Walk(traces, resolve, pid, i + 1, CwdAfter(traces[pid][i], cwd, resolve), w[1..])
  {
  }

  lemma WalkEnd(traces: Traces, resolve: Resolve, pid: nat, i: nat, cwd: string, w: seq<Place>)
    requires Walk(traces, resolve, pid, i, cwd, w)
    ensures pid in traces && i <= |traces[pid]| && (i == |traces[pid]| ==> w == [])
  {
  }

  /** There is at most one walk. */
  lemma {:induction false} WalkUnique(traces: Traces, resolve: Resolve, pid: nat, i: nat, cwd: string, v: seq<Place>,
                                      w: seq<Place>)
    requires Walk(traces, resolve, pid, i, cwd, v) && Walk(traces, resolve, pid, i, cwd, w)
    ensures v == w
    decreases |v|
  {
    hide Walk;
    WalkEnd(traces, resolve, pid, i, cwd, v);
    WalkEnd(traces, resolve, pid, i, cwd, w);
    if i < |traces[pid]| {
      if traces[pid][i].Spawn? {
        var j := SpawnParts(traces, resolve, pid, i, cwd, v);
        var k := SpawnParts(traces, resolve, pid, i, cwd, w);
        WalkUnique(traces, resolve, traces[pid][i].child, 0, cwd, v[1..j], w[1..k]);
        WalkUnique(traces, resolve, pid, i + 1, cwd, v[j..], w[k..]);
        assert v == [v[0]] + v[1..j] + v[j..] && w == [w[0]] + w[1..k] + w[k..];
      } else {
        OtherPart(traces, resolve, pid, i, cwd, v);
        OtherPart(traces, resolve, pid, i, cwd, w);
        WalkUnique(traces, resolve, pid, i + 1, CwdAfter(traces[pid][i], cwd, resolve), v[1..], w[1..]);
        assert v == [v[0]] + v[1..] && w == [w[0]] + w[1..];
      }
    }
  }

  /** `step` takes the walk of `pid` from one record to a later one. */
  ghost predicate Leads(traces: Traces, resolve: Resolve, pid: nat, i: nat, here: string, j: nat, there: string,
                        step: seq<Place>) {
    forall t :: Walk(traces, resolve, pid, j, there, t) ==> Walk(traces, resolve, pid, i, here, step + t)
  }

  lemma LeadsNowhere(traces: Traces, resolve: Resolve, pid: nat, i: nat, here: string)
    ensures Leads(traces, resolve, pid, i, here, i, here, [])
  {
    forall t | Walk(traces, resolve, pid, i, here, t) ensures Walk(traces, resolve, pid, i, here, [] + t) {
      assert [] + t == t;
    }
  }

  lemma LeadsOn(traces: Traces, resolve: Resolve, pid: nat, h: nat, first: string, i: nat, here: string, j: nat,
                there: string, a: seq<Place>, b: seq<Place>)
    requires Leads(traces, resolve, pid, h, first, i, here, a) && Leads(traces, resolve, pid, i, here, j, there, b)
    ensures Leads(traces, resolve, pid, h, first, j, there, a + b)
  {
    hide Walk;
    forall t | Walk(traces, resolve, pid, j, there, t) ensures Walk(traces, resolve, pid, h, first, a + b + t) {
      assert a + b + t == a + (b + t);
    }
  }

  lemma LeadsOver(traces: Traces, resolve: Resolve, pid: nat, i: nat, here: string)
    requires pid in traces && i < |traces[pid]| && !traces[pid][i].Spawn?
    ensures Leads(traces, resolve, pid, i, here, i + 1, CwdAfter(traces[pid][i], here, resolve), [Place(pid, i, here)])
  {
    var place := Place(pid, i, here);
    forall t | Walk(traces, resolve, pid, i + 1, CwdAfter(traces[pid][i], here, resolve), t)
      ensures Walk(traces, resolve, pid, i, here, [place] + t)
    {
      assert ([place] + t)[1..] == t;
    }
  }

  lemma LeadsThrough(traces: Traces, resolve: Resolve, pid: nat, i: nat, here: string, trail: seq<Place>)
    requires pid in traces && i < |traces[pid]| && traces[pid][i].Spawn?
    requires Walk(traces, resolve, traces[pid][i].child, 0, here, trail)
    ensures Leads(traces, resolve, pid, i, here, i + 1, here, [Place(pid, i, here)] + trail)
  {
    var place := Place(pid, i, here);
    forall t | Walk(traces, resolve, pid, i + 1, here, t)
      ensures Walk(traces, resolve, pid, i, here, [place] + trail + t)
    {
      var w := [place] + trail + t;
      var k := 1 + |trail|;
      assert w[1..k] == trail && w[k..] == t;
      assert SpawnWalk(traces, resolve, pid, i, here, w);
    }
  }

  lemma LeadsToEnd(traces: Traces, resolve: Resolve, pid: nat, cwd: string, there: string, w: seq<Place>)
    requires pid in traces && Leads(traces, resolve, pid, 0, cwd, |traces[pid]|, there, w)
    ensures Walk(traces, resolve, pid, 0, cwd, w)
  {
    assert Walk(traces, resolve, pid, |traces[pid]|, there, []);
    assert w + [] == w;
  }

  // ---------- verdicts ----------

  /** How paths resolve, and how the admission judges a record: what it has seen so far
      may decide, and it refuses or goes on in a new state. */
  datatype Rules<!A> = Rules(resolve: Resolve, admit: (A, Place) -> Option<A>)

  /** The admission's state after these places, if none is refused. */
  function Judged<A>(rules: Rules<A>, first: A, w: seq<Place>): Option<A> {
    if w == [] then Some(first)
    else
      var before := Judged(rules, first, w[..|w| - 1]);
      if before.None? then None else rules.admit(before.value, w[|w| - 1])
  }

  lemma JudgedNext<A>(rules: Rules<A>, first: A, w: seq<Place>, place: Place)
    ensures Judged(rules, first, w + [place]) ==
      var before := Judged(rules, first, w);
      if before.None? then None else rules.admit(before.value, place)
  {
    assert (w + [place])[..|w|] == w;
  }

  lemma {:induction false} JudgedBefore<A>(rules: Rules<A>, first: A, v: seq<Place>, w: seq<Place>)
    requires v <= w && Judged(rules, first, w).Some?
    ensures Judged(rules, first, v).Some?
    decreases |w|
  {
    if |v| < |w| {
      assert v <= w[..|w| - 1];
      JudgedBefore(rules, first, v, w[..|w| - 1]);
    } else {
      assert v == w;
    }
  }

  // ---------- the goal ----------

  /** If the run can pass at all, what lies ahead of record `i` continues what was done. */
  ghost predicate Ahead(traces: Traces, resolve: Resolve, goal: Option<seq<Place>>, done: seq<Place>, pid: nat, i: nat,
                        cwd: string) {
    goal.Some? ==> exists w :: Walk(traces, resolve, pid, i, cwd, w) && done + w <= goal.value
  }

  lemma AheadPlace(traces: Traces, resolve: Resolve, goal: Option<seq<Place>>, done: seq<Place>, pid: nat, i: nat,
                   here: string)
    requires Ahead(traces, resolve, goal, done, pid, i, here) && pid in traces && i < |traces[pid]|
    ensures goal.Some? ==> done + [Place(pid, i, here)] <= goal.value
  {
    if goal.Some? {
      var w :| Walk(traces, resolve, pid, i, here, w) && done + w <= goal.value;
      assert (done + w)[|done|] == w[0];
    }
  }

  lemma AheadOver(traces: Traces, resolve: Resolve, goal: Option<seq<Place>>, done: seq<Place>, pid: nat, i: nat,
                  here: string)
    requires Ahead(traces, resolve, goal, done, pid, i, here)
    requires pid in traces && i < |traces[pid]| && !traces[pid][i].Spawn?
    ensures Ahead(traces, resolve, goal, done + [Place(pid, i, here)], pid, i + 1,
                  CwdAfter(traces[pid][i], here, resolve))
  {
    if goal.Some? {
      var w :| Walk(traces, resolve, pid, i, here, w) && done + w <= goal.value;
      assert done + [Place(pid, i, here)] + w[1..] == done + w;
    }
  }

  lemma AheadInto(traces: Traces, resolve: Resolve, goal: Option<seq<Place>>, done: seq<Place>, pid: nat, i: nat,
                  here: string)
    requires Ahead(traces, resolve, goal, done, pid, i, here)
    requires pid in traces && i < |traces[pid]| && traces[pid][i].Spawn?
    ensures Ahead(traces, resolve, goal, done + [Place(pid, i, here)], traces[pid][i].child, 0, here)
  {
    hide Walk;
    if goal.Some? {
      var w :| Walk(traces, resolve, pid, i, here, w) && done + w <= goal.value;
      var k := SpawnParts(traces, resolve, pid, i, here, w);
      assert done + [Place(pid, i, here)] + w[1..k] <= done + w;
    }
  }

  lemma AheadAfter(traces: Traces, resolve: Resolve, goal: Option<seq<Place>>, done: seq<Place>, pid: nat, i: nat,
                   here: string, trail: seq<Place>)
    requires Ahead(traces, resolve, goal, done, pid, i, here)
    requires pid in traces && i < |traces[pid]| && traces[pid][i].Spawn?
    requires Walk(traces, resolve, traces[pid][i].child, 0, here, trail)
    ensures Ahead(traces, resolve, goal, done + [Place(pid, i, here)] + trail, pid, i + 1, here)
  {
    hide Walk;
    if goal.Some? {
      var w :| Walk(traces, resolve, pid, i, here, w) && done + w <= goal.value;
      var k := SpawnParts(traces, resolve, pid, i, here, w);
      WalkUnique(traces, resolve, traces[pid][i].child, 0, here, trail, w[1..k]);
      assert done + [Place(pid, i, here)] + trail + w[k..] == done + w;
    }
  }

  /** A refusal means that the run cannot pass. */
  lemma RefusedIsLost<A>(rules: Rules<A>, first: A, goal: Option<seq<Place>>, done: seq<Place>, place: Place)
    requires goal.Some? ==> Judged(rules, first, goal.value).Some? && done + [place] <= goal.value
    requires Judged(rules, first, done).Some? && rules.admit(Judged(rules, first, done).value, place).None?
    ensures goal.None?
  {
    JudgedNext(rules, first, done, place);
    if goal.Some? { JudgedBefore(rules, first, done + [place], goal.value); }
  }

  // ---------- places ----------

  /** The places are those of started processes, and no record occurs twice. */
  ghost predicate OnceEach(done: seq<Place>, started: set<nat>) {
    && (forall j :: 0 <= j < |done| ==> done[j].pid in started)
    && (forall j, k :: 0 <= j < k < |done| ==> done[j].pid != done[k].pid || done[j].index != done[k].index)
  }

  /** Of `pid` only records before `i` have been reached. */
  ghost predicate Reached(done: seq<Place>, pid: nat, i: nat) {
    forall j :: 0 <= j < |done| && done[j].pid == pid ==> done[j].index < i
  }

  /** The places added are those of newly started processes. */
  ghost predicate AddsNew(before: seq<Place>, after: seq<Place>, started: set<nat>) {
    before <= after && forall j :: |before| <= j < |after| ==> after[j].pid !in started
  }

  lemma OnceMore(done: seq<Place>, started: set<nat>, place: Place)
    requires OnceEach(done, started) && place.pid in started && Reached(done, place.pid, place.index)
    ensures OnceEach(done + [place], started) && Reached(done + [place], place.pid, place.index + 1)
  {
  }

  lemma ReachedStill(before: seq<Place>, after: seq<Place>, started: set<nat>, pid: nat, i: nat)
    requires Reached(before, pid, i) && AddsNew(before, after, started) && pid in started
    ensures Reached(after, pid, i)
  {
  }

  lemma OnceNew(done: seq<Place>, started: set<nat>, pid: nat)
    requires OnceEach(done, started) && pid !in started
    ensures OnceEach(done, started + {pid}) && Reached(done, pid, 0)
  {
  }

  class Processor<A> {
    const traces: Traces
    const root: nat
    const rules: Rules<A>
    const first: A
    ghost const goal: Option<seq<Place>>
    var admission: A
    var processed: set<nat>
    var evidence: Evidences
    ghost var books: Books
    ghost var done: seq<Place>

    constructor (traces: Traces, root: nat, rules: Rules<A>, first: A, ghost goal: Option<seq<Place>>)
      ensures this.traces == traces && this.root == root && this.rules == rules && this.first == first
      ensures this.goal == goal && admission == first && done == []
      ensures processed == {} && evidence == map[] && books == Books(map[], {}, [])
    {
      this.traces, this.root, this.rules, this.first, this.goal := traces, root, rules, first, goal;
      admission, processed, evidence, books, done := first, {}, map[], Books(map[], {}, []), [];
    }

    ghost predicate Valid()
      reads this
    {
      && Kept(traces, root, rules.resolve, books) && processed == books.started.Keys && evidence.Keys <= processed
      && Judged(rules, first, done) == Some(admission) && OnceEach(done, processed)
      && (goal.Some? ==> Judged(rules, first, goal.value).Some?)
    }

    /** The admission's verdict on one record. */
    method Judge(pid: nat, i: nat, here: string) returns (ok: bool)
      requires Valid() && pid in processed && Reached(done, pid, i) && pid in traces && i < |traces[pid]|
      requires Ahead(traces, rules.resolve, goal, done, pid, i, here)
      modifies `admission, `done
      ensures !ok ==> goal.None?
      ensures ok ==> Valid() && done == old(done) + [Place(pid, i, here)] && Reached(done, pid, i + 1)
    {
      hide Kept, Walk, Judged, OnceEach, Reached, Ahead;
      var place := Place(pid, i, here);
      AheadPlace(traces, rules.resolve, goal, done, pid, i, here);
      var next := rules.admit(admission, place);
      if next.None? {
        RefusedIsLost(rules, first, goal, done, place);
        return false;
      }
      JudgedNext(rules, first, done, place);
      OnceMore(done, processed, place);
      admission, done := next.value, done + [place];
      return true;
    }

    /** The spawn branch: the child is new, so its trace is processed once. */
    method SpawnStep(pid: nat, i: nat, here: string) returns (ok: bool, ghost trail: seq<Place>)
      requires UniqueSpawns(traces) && ChildrenTraced(traces) && IsRoot(traces, root)
      requires Valid() && pid in processed
      requires pid in traces && i < |traces[pid]| && traces[pid][i].Spawn?
      requires (pid, i) !in books.executed && here == CwdOf(traces[pid][..i], books.started[pid], rules.resolve)
      requires Ahead(traces, rules.resolve, goal, done, traces[pid][i].child, 0, here)
      modifies this
      ensures !ok ==> goal.None?
      ensures ok ==> Valid() && Adds(old(books), old(evidence), evidence) && processed >= old(processed)
      ensures ok ==> Extends(Mark(old(books), pid, i), books) && traces[pid][i].child in books.started
      ensures ok ==> forall c :: c in books.started && c !in old(books).started ==> Recorded(traces, evidence, books, c)
      ensures ok ==> done == old(done) + trail && AddsNew(old(done), done, old(processed))
      ensures ok ==> Walk(traces, rules.resolve, traces[pid][i].child, 0, here, trail)
      decreases traces.Keys - processed, 1
    {
      hide UniqueSpawns, IsRoot, Descends, Kept, CwdOf, Finished, Adds, Extends, Walk, Ahead, Judged, OnceEach, AddsNew;
      var child := traces[pid][i].child;
      assert SpawnAt(traces, pid, i, child);
      NewChild(traces, root, rules.resolve, books, pid, i, child);
      MarkKeeps(traces, root, rules.resolve, books, pid, i);
      AddsMark(books, pid, i, evidence);
      books := Mark(books, pid, i);
      ok, trail := Process(child, here, pid, i);
      if ok {
        assert SpawnEdge(traces, pid, child);
        assert Recorded(traces, evidence, books, child);
      }
    }

    /** One round of the loop over a trace. A record that is not admitted ends the run. */
    method Step(pid: nat, i: nat, here: string, execs: nat, ghost cwd: string, ghost o: Books, ghost e0: Evidences)
      returns (ok: bool, next: string, count: nat, ghost step: seq<Place>)
      requires UniqueSpawns(traces) && ChildrenTraced(traces) && IsRoot(traces, root)
      requires Valid() && pid in traces && i < |traces[pid]|
      requires Progress(traces, o, e0, books, evidence, pid, cwd, i)
      requires here == CwdOf(traces[pid][..i], cwd, rules.resolve) && execs == Execs(traces[pid][..i])
      requires Reached(done, pid, i) && Ahead(traces, rules.resolve, goal, done, pid, i, here)
      modifies this
      ensures !ok ==> goal.None?
      ensures ok ==> Valid() && processed >= old(processed)
      ensures ok ==> Progress(traces, o, e0, books, evidence, pid, cwd, i + 1)
      ensures ok ==> next == CwdOf(traces[pid][..i + 1], cwd, rules.resolve) && count == Execs(traces[pid][..i + 1])
      ensures ok ==> Reached(done, pid, i + 1) && Ahead(traces, rules.resolve, goal, done, pid, i + 1, next)
      ensures ok ==> done == old(done) + step && Leads(traces, rules.resolve, pid, i, here, i + 1, next, step)
      ensures ok ==> forall j :: 0 <= j < |step| ==> step[j].pid == pid || step[j].pid !in old(processed)
      decreases traces.Keys - processed, 2
    {
      hide UniqueSpawns, ChildrenTraced, IsRoot, CwdOf, Execs, Recorded, Adds, Progress, Extends, Kept, Descends;
      hide Walk, Ahead, Leads, Judged, OnceEach, Reached, AddsNew;
      next, count, step := here, execs, [];
      RunNext(traces[pid], i, cwd, rules.resolve);
      ProgressGives(traces, o, e0, books, evidence, pid, cwd, i);
      ok := Judge(pid, i, here);
      if !ok { return; }
      step := [Place(pid, i, here)];
      ghost var mid, midEvidence, midDone := books, evidence, done;
      if traces[pid][i].Spawn? {
        AheadInto(traces, rules.resolve, goal, old(done), pid, i, here);
        ghost var trail;
        ok, trail := SpawnStep(pid, i, here);
        if !ok { return; }
        ProgressSpawn(traces, o, e0, mid, midEvidence, books, evidence, pid, cwd, i, traces[pid][i].child);
        AheadAfter(traces, rules.resolve, goal, old(done), pid, i, here, trail);
        LeadsThrough(traces, rules.resolve, pid, i, here, trail);
        ReachedStill(midDone, done, old(processed), pid, i + 1);
        TrailIsNew(midDone, done, old(processed), trail);
        step := step + trail;
        assert old(done) + step == midDone + trail;
        return;
      }
      AheadOver(traces, rules.resolve, goal, old(done), pid, i, here);
      LeadsOver(traces, rules.resolve, pid, i, here);
      ProgressQuiet(traces, o, e0, books, evidence, pid, cwd, i);
      match traces[pid][i] {
        case Enter(path) => next := path;
        case Chdir(value) => next := rules.resolve(value, here);
        case Exec => count := execs + 1;
        case Quiet =>
      }
    }

    static lemma TrailIsNew(before: seq<Place>, after: seq<Place>, started: set<nat>, trail: seq<Place>)
      requires AddsNew(before, after, started) && after == before + trail
      ensures forall j :: 0 <= j < |trail| ==> trail[j].pid !in started
    {
      forall j | 0 <= j < |trail| ensures trail[j].pid !in started {
        assert after[|before| + j] == trail[j];
      }
    }

    /** The loop over a trace, and the evidence entered at its end. */
    method Follow(pid: nat, cwd: string, parent: nat, ghost o: Books, ghost e0: Evidences)
      returns (ok: bool, ghost trail: seq<Place>)
      requires UniqueSpawns(traces) && ChildrenTraced(traces) && IsRoot(traces, root)
      requires Valid() && pid in traces && Progress(traces, o, e0, books, evidence, pid, cwd, 0)
      requires Reached(done, pid, 0) && Ahead(traces, rules.resolve, goal, done, pid, 0, cwd)
      modifies this
      ensures !ok ==> goal.None?
      ensures ok ==> Valid() && processed >= old(processed) && Extends(o, books) && Adds(o, e0, evidence)
      ensures ok ==> pid in books.started && books.started[pid] == cwd
      ensures ok ==> Finished(traces, evidence, books, pid) && evidence[pid].parent == parent
      ensures ok ==> AllRecorded(traces, evidence, books, o, pid)
      ensures ok ==> done == old(done) + trail && Walk(traces, rules.resolve, pid, 0, cwd, trail)
      ensures ok ==> forall j :: 0 <= j < |trail| ==> trail[j].pid == pid || trail[j].pid !in old(processed)
      decreases traces.Keys - processed, 3
    {
      hide UniqueSpawns, ChildrenTraced, IsRoot, CwdOf, Execs, Recorded, Adds, Progress, Extends, Kept, AllRecorded;
      hide Finished, Walk, Ahead, Leads, Judged, OnceEach, Reached;
      var here, execs, i := cwd, 0, 0;
      trail := [];
      RunStart(traces[pid], cwd, rules.resolve);
      LeadsNowhere(traces, rules.resolve, pid, 0, cwd);
      while i < |traces[pid]|
        invariant 0 <= i <= |traces[pid]|
        invariant Valid() && processed >= old(processed)
        invariant Progress(traces, o, e0, books, evidence, pid, cwd, i)
        invariant here == CwdOf(traces[pid][..i], cwd, rules.resolve) && execs == Execs(traces[pid][..i])
        invariant Reached(done, pid, i) && Ahead(traces, rules.resolve, goal, done, pid, i, here)
        invariant done == old(done) + trail && Leads(traces, rules.resolve, pid, 0, cwd, i, here, trail)
        invariant forall j :: 0 <= j < |trail| ==> trail[j].pid == pid || trail[j].pid !in old(processed)
      {
        ghost var step;
        ghost var last := here;
        ok, here, execs, step := Step(pid, i, here, execs, cwd, o, e0);
        if !ok { return; }
        LeadsOn(traces, rules.resolve, pid, 0, cwd, i, last, i + 1, here, trail, step);
        assert old(done) + trail + step == old(done) + (trail + step);
        trail := trail + step;
        i := i + 1;
      }
      assert traces[pid][..i] == traces[pid];
      LeadsToEnd(traces, rules.resolve, pid, cwd, here, trail);
      ProgressGives(traces, o, e0, books, evidence, pid, cwd, i);
      ProgressEnd(traces, o, e0, books, evidence, pid, cwd, Evidence(parent, execs));
      evidence := evidence[pid := Evidence(parent, execs)];
      ok := true;
    }

    /** `process`. Its failure for a cyclic or repeated trace cannot happen after the scan;
        it fails only if the run cannot pass. */
    method Process(pid: nat, cwd: string, parent: nat, ghost at: nat) returns (ok: bool, ghost trail: seq<Place>)
      requires UniqueSpawns(traces) && ChildrenTraced(traces) && IsRoot(traces, root)
      requires Valid() && MayEnter(traces, root, rules.resolve, books, pid, cwd, parent, at)
      requires Ahead(traces, rules.resolve, goal, done, pid, 0, cwd)
      modifies this
      ensures !ok ==> goal.None?
      ensures ok ==> Valid() && processed >= old(processed)
      ensures ok ==> Extends(old(books), books) && Adds(old(books), old(evidence), evidence)
      ensures ok ==> pid in books.started && books.started[pid] == cwd
      ensures ok ==> Finished(traces, evidence, books, pid) && evidence[pid].parent == parent
      ensures ok ==> AllRecorded(traces, evidence, books, old(books), pid)
      ensures ok ==> done == old(done) + trail && AddsNew(old(done), done, old(processed))
      ensures ok ==> Walk(traces, rules.resolve, pid, 0, cwd, trail)
      decreases traces.Keys - processed, 0
    {
      hide UniqueSpawns, ChildrenTraced, IsRoot, Descends, AllRecorded, Finished, Adds, Progress, Extends, Kept;
      hide SpawnAt, CwdOf, Walk, Ahead, Judged, OnceEach, Reached;
      if pid in processed { assert false; }
      OpenKeeps(traces, root, rules.resolve, books, pid, cwd, parent, at);
      ProgressStart(traces, root, rules.resolve, books, evidence, pid, cwd);
      OnceNew(done, processed, pid);
      processed := processed + {pid};
      books := Open(books, pid, cwd);
      ok, trail := Follow(pid, cwd, parent, old(books), old(evidence));
    }
  }

  // ---------- run ----------

  /** Every process starts where the tree says. */
  ghost predicate Starts(traces: Traces, resolve: Resolve, root: nat, cwd: string, started: map<nat, string>) {
    && traces.Keys <= started.Keys && root in started && started[root] == cwd
    && (forall q: nat, i: nat, c: nat :: SpawnAt(traces, q, i, c) && c in started && q in started ==>
          started[c] == CwdOf(traces[q][..i], started[q], resolve))
  }

  /** The walk reaches every record of every trace, and none twice. */
  ghost predicate Covers(traces: Traces, w: seq<Place>) {
    && (forall q: nat, i: nat :: q in traces && i < |traces[q]| ==> Occurs(w, q, i))
    && (forall j, k :: 0 <= j < k < |w| ==> w[j].pid != w[k].pid || w[j].index != w[k].index)
  }

  ghost predicate Occurs(w: seq<Place>, q: nat, i: nat) {
    exists j :: 0 <= j < |w| && w[j].pid == q && w[j].index == i
  }

  /** What a passing run has established: the traces are one tree, each process was
      entered once with the working directory its parent had when spawning it, every
      record was admitted once, in the order of the walk, and the evidence names the
      spawner and counts the execs. */
  ghost predicate Complete(traces: Traces, resolve: Resolve, root: nat, cwd: string, evidence: Evidences, b: Books,
                           w: seq<Place>) {
    && OneTree(traces, root) && Starts(traces, resolve, root, cwd, b.started)
    && Walk(traces, resolve, root, 0, cwd, w) && Covers(traces, w)
    && evidence.Keys == traces.Keys == b.started.Keys
    && Kept(traces, root, resolve, b) && evidence[root].parent == 0
    && (forall c :: c in traces ==> evidence[c].execs == Execs(traces[c]))
    && (forall c :: c in traces && c != root ==> SpawnEdge(traces, evidence[c].parent, c))
  }

  /** The run can pass: one tree, on whose walk the admission refuses nothing. */
  ghost predicate CanPass<A>(traces: Traces, rules: Rules<A>, first: A, cwd: string) {
    exists r: nat, w :: PassesBy(traces, rules, first, cwd, r, w)
  }

  ghost predicate PassesBy<A>(traces: Traces, rules: Rules<A>, first: A, cwd: string, r: nat, w: seq<Place>) {
    OneTree(traces, r) && Walk(traces, rules.resolve, r, 0, cwd, w) && Judged(rules, first, w).Some?
  }

  // ---------- the directories of a walk ----------

  /** Every place of a walk has the directory to which its process's records before it have
      led from where the process started. */
  ghost predicate PlacesFit(traces: Traces, resolve: Resolve, started: map<nat, string>, w: seq<Place>) {
    forall j :: 0 <= j < |w| ==> PlaceFits(traces, resolve, started, w[j])
  }

  ghost predicate PlaceFits(traces: Traces, resolve: Resolve, started: map<nat, string>, p: Place) {
    && p.pid in traces && p.index < |traces[p.pid]| && p.pid in started
    && p.cwd == CwdOf(traces[p.pid][..p.index], started[p.pid], resolve)
  }

  lemma FitsConcat(traces: Traces, resolve: Resolve, started: map<nat, string>, w: seq<Place>, k: nat)
    requires 1 <= k <= |w| && PlaceFits(traces, resolve, started, w[0])
    requires PlacesFit(traces, resolve, started, w[1..k]) && PlacesFit(traces, resolve, started, w[k..])
    ensures PlacesFit(traces, resolve, started, w)
  {
    hide PlaceFits;
    forall j | 0 <= j < |w| ensures PlaceFits(traces, resolve, started, w[j]) {
      if 1 <= j < k {
        assert w[j] == w[1..k][j - 1];
      } else if j >= k {
        assert w[j] == w[k..][j - k];
      }
    }
  }

  lemma {:induction false} WalkFits(traces: Traces, resolve: Resolve, started: map<nat, string>, pid: nat, i: nat,
                                    cwd: string, w: seq<Place>)
    requires Walk(traces, resolve, pid, i, cwd, w) && pid in traces && i <= |traces[pid]| && pid in started
    requires traces.Keys <= started.Keys && cwd == CwdOf(traces[pid][..i], started[pid], resolve)
    requires forall q: nat, n: nat, c: nat :: SpawnAt(traces, q, n, c) && c in started && q in started ==>
      started[c] == CwdOf(traces[q][..n], started[q], resolve)
    ensures PlacesFit(traces, resolve, started, w)
    decreases |w|
  {
    if i == |traces[pid]| {
    } else {
      RunNext(traces[pid], i, started[pid], resolve);
      if traces[pid][i].Spawn? {
        var k := SpawnParts(traces, resolve, pid, i, cwd, w);
        var c := traces[pid][i].child;
        assert SpawnAt(traces, pid, i, c);
        WalkEnd(traces, resolve, c, 0, cwd, w[1..k]);
        RunStart(traces[c], started[c], resolve);
        hide Walk, CwdOf, PlacesFit;
        WalkFits(traces, resolve, started, c, 0, cwd, w[1..k]);
        WalkFits(traces, resolve, started, pid, i + 1, cwd, w[k..]);
        FitsConcat(traces, resolve, started, w, k);
      } else {
        OtherPart(traces, resolve, pid, i, cwd, w);
        hide Walk, CwdOf, PlacesFit;
        WalkFits(traces, resolve, started, pid, i + 1, CwdAfter(traces[pid][i], cwd, resolve), w[1..]);
        NothingFits(traces, resolve, started, w);
        FitsConcat(traces, resolve, started, w, 1);
      }
    }
  }

  lemma NothingFits(traces: Traces, resolve: Resolve, started: map<nat, string>, w: seq<Place>)
    requires w != []
    ensures PlacesFit(traces, resolve, started, w[1..1])
  {
  }

  // ---------- the walk covers the traces ----------

  lemma {:induction false} WalkOccurs(traces: Traces, resolve: Resolve, pid: nat, i: nat, cwd: string, w: seq<Place>,
                                      n: nat)
    requires Walk(traces, resolve, pid, i, cwd, w) && pid in traces && i <= n < |traces[pid]|
    ensures Occurs(w, pid, n)
    decreases |w|
  {
    hide Walk;
    if traces[pid][i].Spawn? {
      var k := SpawnParts(traces, resolve, pid, i, cwd, w);
      if i < n {
        WalkOccurs(traces, resolve, pid, i + 1, cwd, w[k..], n);
        OccursAfter(w, k, pid, n);
      }
    } else {
      OtherPart(traces, resolve, pid, i, cwd, w);
      if i < n {
        WalkOccurs(traces, resolve, pid, i + 1, CwdAfter(traces[pid][i], cwd, resolve), w[1..], n);
        OccursAfter(w, 1, pid, n);
      }
    }
  }

  lemma OccursAfter(w: seq<Place>, a: nat, q: nat, i: nat)
    requires a <= |w| && Occurs(w[a..], q, i)
    ensures Occurs(w, q, i)
  {
    var j :| 0 <= j < |w[a..]| && w[a..][j].pid == q && w[a..][j].index == i;
    assert w[a + j] == w[a..][j];
  }

  lemma OccursWithin(w: seq<Place>, a: nat, b: nat, q: nat, i: nat)
    requires a <= b <= |w| && Occurs(w[a..b], q, i)
    ensures Occurs(w, q, i)
  {
    var j :| 0 <= j < |w[a..b]| && w[a..b][j].pid == q && w[a..b][j].index == i;
    assert w[a + j] == w[a..b][j];
  }

  /** With a spawn, a walk has the records of the process spawned. */
  lemma {:induction false} WalkEnters(traces: Traces, resolve: Resolve, pid: nat, i: nat, cwd: string, w: seq<Place>,
                                      j: nat, c: nat, n: nat)
    requires Walk(traces, resolve, pid, i, cwd, w) && j < |w| && SpawnAt(traces, w[j].pid, w[j].index, c)
    requires c in traces && n < |traces[c]|
    ensures Occurs(w, c, n)
    decreases |w|
  {
    assert pid in traces && i < |traces[pid]|;
    hide Walk, Occurs;
    if traces[pid][i].Spawn? {
      var k := SpawnParts(traces, resolve, pid, i, cwd, w);
      if j < k {
        if j == 0 {
          WalkOccurs(traces, resolve, c, 0, cwd, w[1..k], n);
        } else {
          WalkEnters(traces, resolve, traces[pid][i].child, 0, cwd, w[1..k], j - 1, c, n);
        }
        OccursWithin(w, 1, k, c, n);
      } else {
        WalkEnters(traces, resolve, pid, i + 1, cwd, w[k..], j - k, c, n);
        OccursAfter(w, k, c, n);
      }
    } else {
      OtherPart(traces, resolve, pid, i, cwd, w);
      WalkEnters(traces, resolve, pid, i + 1, CwdAfter(traces[pid][i], cwd, resolve), w[1..], j - 1, c, n);
      OccursAfter(w, 1, c, n);
    }
  }

  /** All records of the process occur. */
  ghost predicate Whole(traces: Traces, w: seq<Place>, q: nat) {
    q in traces && forall i: nat :: i < |traces[q]| ==> Occurs(w, q, i)
  }

  lemma WholeChild(traces: Traces, resolve: Resolve, root: nat, cwd: string, w: seq<Place>, q: nat, c: nat)
    requires Walk(traces, resolve, root, 0, cwd, w) && Whole(traces, w, q) && SpawnEdge(traces, q, c) && c in traces
    ensures Whole(traces, w, c)
  {
    hide Walk;
    var i :| SpawnAt(traces, q, i, c);
    assert Occurs(w, q, i);
    var j :| 0 <= j < |w| && w[j].pid == q && w[j].index == i;
    forall n: nat | n < |traces[c]| ensures Occurs(w, c, n) {
      WalkEnters(traces, resolve, root, 0, cwd, w, j, c, n);
    }
  }

  lemma ChildTraced(traces: Traces, q: nat, c: nat)
    requires ChildrenTraced(traces) && SpawnEdge(traces, q, c)
    ensures c in traces
  {
  }

  /** The walk from the root of a tree reaches every record. */
  lemma WalkCovers(traces: Traces, resolve: Resolve, root: nat, cwd: string, w: seq<Place>)
    requires OneTree(traces, root) && Walk(traces, resolve, root, 0, cwd, w)
    ensures forall q: nat, i: nat :: q in traces && i < |traces[q]| ==> Occurs(w, q, i)
  {
    hide Walk, UniqueSpawns, Occurs, ChildrenTraced;
    var s := set q | q in traces && Whole(traces, w, q);
    forall n: nat | n < |traces[root]| ensures Occurs(w, root, n) {
      WalkOccurs(traces, resolve, root, 0, cwd, w, n);
    }
    forall x, y | x in s && SpawnEdge(traces, x, y) ensures y in s {
      ChildTraced(traces, x, y);
      WholeChild(traces, resolve, root, cwd, w, x, y);
    }
    forall c | c in traces ensures c in s {
      assert Descends(traces, root, c);
      var p :| Path(traces, p) && p[0] == root && p[|p| - 1] == c;
      ClosedHolds(traces, s, p);
    }
  }

  lemma NothingKept(traces: Traces, root: nat, resolve: Resolve)
    ensures Kept(traces, root, resolve, Books(map[], {}, []))
  {
  }

  /** The entered processes are closed under spawning, so they include every process
      below the root. */
  lemma EverythingEntered(traces: Traces, evidence: Evidences, b: Books, root: nat, r: nat)
    requires OneTree(traces, r) && IsRoot(traces, root)
    requires root in b.started && Finished(traces, evidence, b, root)
    requires AllRecorded(traces, evidence, b, Books(map[], {}, []), root)
    ensures r == root && traces.Keys <= b.started.Keys
  {
    OnlyRoot(traces, r, root);
    hide UniqueSpawns, ChildrenTraced, IsRoot;
    var s := b.started.Keys;
    forall x, y | x in s && SpawnEdge(traces, x, y) ensures y in s {
      assert Finished(traces, evidence, b, x) by {
        assert x != root ==> Recorded(traces, evidence, b, x);
      }
    }
    forall c | c in traces ensures c in s {
      assert Descends(traces, r, c);
      var p :| Path(traces, p) && p[0] == r && p[|p| - 1] == c;
      ClosedHolds(traces, s, p);
    }
  }

  /** Where the books justify each start, the starts follow the tree. */
  lemma StartsFollow(traces: Traces, root: nat, resolve: Resolve, b: Books, q: nat, i: nat, c: nat)
    requires UniqueSpawns(traces) && IsRoot(traces, root) && Kept(traces, root, resolve, b)
    requires SpawnAt(traces, q, i, c) && c in b.started && q in b.started
    ensures b.started[c] == CwdOf(traces[q][..i], b.started[q], resolve)
  {
    hide Descends, CwdOf;
    assert Spawned(traces, c);
    assert Justified(traces, root, resolve, b, c);
    var q': nat, i': nat :| Entered(traces, resolve, b, c, q', i');
    assert q == q' && i == i';
  }

  lemma StartsNow(traces: Traces, root: nat, resolve: Resolve, cwd: string, b: Books)
    requires UniqueSpawns(traces) && IsRoot(traces, root) && Kept(traces, root, resolve, b)
    requires b.started.Keys == traces.Keys && root in b.started && b.started[root] == cwd
    ensures Starts(traces, resolve, root, cwd, b.started)
  {
    hide UniqueSpawns, IsRoot, Kept, CwdOf;
    forall q: nat, i: nat, c: nat | SpawnAt(traces, q, i, c) && c in b.started && q in b.started
      ensures b.started[c] == CwdOf(traces[q][..i], b.started[q], resolve)
    {
      StartsFollow(traces, root, resolve, b, q, i, c);
    }
  }

  lemma OneTreeNow(traces: Traces, root: nat, resolve: Resolve, b: Books)
    requires UniqueSpawns(traces) && ChildrenTraced(traces) && IsRoot(traces, root)
    requires Kept(traces, root, resolve, b) && b.started.Keys == traces.Keys
    ensures OneTree(traces, root)
  {
    hide UniqueSpawns, ChildrenTraced, IsRoot, Descends, Justified;
  }

  lemma RecordedGives(traces: Traces, evidence: Evidences, b: Books, root: nat, c: nat)
    requires AllRecorded(traces, evidence, b, Books(map[], {}, []), root) && c in b.started && c != root &&
             c in traces
    ensures c in evidence && evidence[c].execs == Execs(traces[c]) && SpawnEdge(traces, evidence[c].parent, c)
  {
    hide Execs, SpawnEdge;
    assert Recorded(traces, evidence, b, c);
  }

  lemma CompleteNow(traces: Traces, root: nat, resolve: Resolve, cwd: string, evidence: Evidences, b: Books,
                    w: seq<Place>)
    requires UniqueSpawns(traces) && ChildrenTraced(traces) && IsRoot(traces, root)
    requires Kept(traces, root, resolve, b) && b.started.Keys == traces.Keys
    requires root in b.started && b.started[root] == cwd
    requires Finished(traces, evidence, b, root) && evidence[root].parent == 0 && evidence.Keys <= traces.Keys
    requires AllRecorded(traces, evidence, b, Books(map[], {}, []), root)
    requires Walk(traces, resolve, root, 0, cwd, w) && OnceEach(w, traces.Keys)
    ensures Complete(traces, resolve, root, cwd, evidence, b, w)
  {
    hide UniqueSpawns, ChildrenTraced, IsRoot, Descends, SpawnEdge, Kept, Execs, Starts, OneTree, AllRecorded, Walk;
    hide Occurs;
    StartsNow(traces, root, resolve, cwd, b);
    OneTreeNow(traces, root, resolve, b);
    WalkCovers(traces, resolve, root, cwd, w);
    forall c | c in traces && c != root
      ensures c in evidence && evidence[c].execs == Execs(traces[c]) && SpawnEdge(traces, evidence[c].parent, c)
    {
      RecordedGives(traces, evidence, b, root, c);
    }
  }

  lemma {:induction false} SameSize(a: set<nat>, b: set<nat>)
    requires a <= b
    ensures |a| == |b| <==> a == b
  {
    assert b == a + (b - a);
    if a != b {
      var x :| x in b - a;
      assert |b - a| > 0;
    }
  }

  lemma RootsOf(traces: Traces, children: set<nat>, roots: set<nat>)
    requires forall c :: c in children <==> Spawned(traces, c)
    requires roots == traces.Keys - children
    ensures forall r: nat :: r in roots <==> IsRoot(traces, r)
    ensures |roots| != 1 ==> forall r: nat :: !OneTree(traces, r)
  {
    hide UniqueSpawns, ChildrenTraced, Descends;
    forall r: nat | OneTree(traces, r) ensures |roots| == 1 {
      forall s: nat | s in roots ensures s == r {
        OnlyRoot(traces, r, s);
      }
      assert roots == {r};
    }
  }

  /** `run`: it passes exactly when the traces form one spawn tree and the admission, which
      goes from state to state along the walk of that tree, refuses no record. */
  method Run<A>(traces: Traces, initialCwd: string, rules: Rules<A>, first: A)
    returns (ok: bool, root: nat, evidence: Evidences, admission: A, ghost books: Books, ghost walk: seq<Place>)
    ensures ok <==> CanPass(traces, rules, first, initialCwd)
    ensures ok ==> Complete(traces, rules.resolve, root, initialCwd, evidence, books, walk)
    ensures ok ==> Judged(rules, first, walk) == Some(admission)
  {
    hide UniqueSpawns, ChildrenTraced, Complete, OneTree, IsRoot, Kept, Finished, AllRecorded, Spawned, CanPass, Walk;
    hide Judged, OnceEach, Ahead;
    ok, root, evidence, admission, books, walk := false, 0, map[], first, Books(map[], {}, []), [];
    var scanned, children := Scan(traces);
    PassingTree(traces, rules, first, initialCwd);
    TreeParts(traces);
    if !scanned { return; }
    var roots := traces.Keys - children;
    RootsOf(traces, children, roots);
    if |roots| != 1 { return; }
    root :| root in roots;
    ghost var goal := GoalOf(traces, rules, first, root, initialCwd);
    var p := new Processor(traces, root, rules, first, goal);
    NothingKept(traces, root, rules.resolve);
    NothingDone(rules, first);
    TracedRoot(traces, root);
    var done;
    done, walk := p.Process(root, initialCwd, 0, 0);
    if !done { return; }
    assert [] + walk == walk;
    assert p.processed <= traces.Keys by { KeptTraced(traces, root, rules.resolve, p.books); }
    SameSize(p.processed, traces.Keys);
    forall r: nat | OneTree(traces, r) ensures traces.Keys <= p.processed {
      EverythingEntered(traces, p.evidence, p.books, root, r);
    }
    if |p.processed| != |traces| { return; }
    CompleteNow(traces, root, rules.resolve, initialCwd, p.evidence, p.books, walk);
    CompletePasses(traces, rules, first, root, initialCwd, p.evidence, p.books, walk);
    ok, evidence, admission, books := true, p.evidence, p.admission, p.books;
  }

  /** How the run can pass from this root, if it can pass. */
  lemma GoalOf<A>(traces: Traces, rules: Rules<A>, first: A, root: nat, cwd: string)
    returns (goal: Option<seq<Place>>)
    requires IsRoot(traces, root)
    ensures CanPass(traces, rules, first, cwd) ==> goal.Some?
    ensures goal.Some? ==> Judged(rules, first, goal.value).Some?
    ensures Ahead(traces, rules.resolve, goal, [], root, 0, cwd)
  {
    hide IsRoot, OneTree, Walk, Judged;
    goal := None;
    if CanPass(traces, rules, first, cwd) {
      var r: nat, w :| PassesBy(traces, rules, first, cwd, r, w);
      OnlyRoot(traces, r, root);
      assert [] + w == w;
      goal := Some(w);
    }
  }

  lemma NothingDone<A>(rules: Rules<A>, first: A)
    ensures Judged(rules, first, []) == Some(first) && OnceEach([], {})
  {
  }

  lemma PassingTree<A>(traces: Traces, rules: Rules<A>, first: A, cwd: string)
    ensures CanPass(traces, rules, first, cwd) ==> exists r: nat :: OneTree(traces, r)
  {
    hide OneTree, Walk, Judged;
  }

  lemma TreeParts(traces: Traces)
    ensures forall r: nat :: OneTree(traces, r) ==> UniqueSpawns(traces) && ChildrenTraced(traces)
  {
  }

  lemma TracedRoot(traces: Traces, root: nat)
    requires IsRoot(traces, root)
    ensures root in traces
  {
  }

  lemma KeptTraced(traces: Traces, root: nat, resolve: Resolve, b: Books)
    requires Kept(traces, root, resolve, b)
    ensures b.started.Keys <= traces.Keys
  {
  }

  lemma CompletePasses<A>(traces: Traces, rules: Rules<A>, first: A, root: nat, cwd: string, evidence: Evidences,
                          b: Books, w: seq<Place>)
    requires Complete(traces, rules.resolve, root, cwd, evidence, b, w) && Judged(rules, first, w).Some?
    ensures CanPass(traces, rules, first, cwd)
  {
    hide OneTree, Walk, Judged;
    assert PassesBy(traces, rules, first, cwd, root, w);
  }
}
