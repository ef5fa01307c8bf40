/** The trace checker on parsed records: what a record means for the process tree. */
module TraceCheck {
  import opened SpawnTree
  import opened Wrappers
  import Scanners
  import Text

  type Raw = Scanners.Record

  const UINT64_MAX: nat := 0xFFFF_FFFF_FFFF_FFFF
  const SPAWNS := {"clone", "clone3", "fork", "vfork"}

  datatype Child = NoChild | Child(pid: nat) | BadChild

  /** `childResult`: the process id at the beginning of the result of a successful spawn. */
  function ChildResult(r: Raw): Child {
    if r.name !in SPAWNS || !r.success then NoChild
    else
      var value := r.result[..Text.DigitRun(r.result)];
      if value == "" || Text.Number(value) > UINT64_MAX then BadChild else Child(Text.Number(value))
  }

  /** A printed id is read whatever follows it, unless that is a digit. */
  lemma ChildReads(r: Raw, pid: nat, rest: string)
    requires r.name in SPAWNS && r.success && pid <= UINT64_MAX
    requires r.result == Text.Decimal(pid) + rest && (rest != "" ==> !Text.IsDigit(rest[0]))
    ensures ChildResult(r) == Child(pid)
  {
    Text.DecimalReads(pid);
    Text.RunOfDigits(Text.Decimal(pid), rest);
    assert r.result[..|Text.Decimal(pid)|] == Text.Decimal(pid);
  }

  /** How quoted arguments and descriptor annotations are decoded and paths normalised. */
  datatype Decoders = Decoders(quoted: string -> Option<string>, descriptor: string -> Option<string>,
                               lexical: string -> string)

  /** `resolvePath`. */
  function ResolvePath(d: Decoders): Resolve {
    (value: string, base: string) =>
      if value == "" then d.lexical(base)
      else if value[0] == '/' then d.lexical(value)
      else d.lexical(base + "/" + value)
  }

  function First(r: Raw, decode: string -> Option<string>): Option<string> {
    if r.arguments == [] then None else decode(r.arguments[0])
  }

  /** What a record means for the tree and the working directory. */
  function Meaning(r: Raw, d: Decoders): Record {
    if !r.success then Quiet
    else if r.name in SPAWNS then (match ChildResult(r) case Child(pid) => Spawn(pid) case _ => Quiet)
    else if r.name in {"execve", "execveat"} then Exec
    else if r.name == "chdir" then
      (match First(r, d.quoted) case Some(value) => if value == "" then Quiet else Chdir(value) case None => Quiet)
    else if r.name == "fchdir" then
      (match First(r, d.descriptor) case Some(path) => Enter(path) case None => Quiet)
    else if r.name == "getcwd" then
      (match First(r, d.quoted) case Some(path) => Enter(d.lexical(path)) case None => Quiet)
    else Quiet
  }

  /** The path argument on which the working directory depends can be decoded. */
  predicate Decodes(r: Raw, d: Decoders) {
    && (r.name == "chdir" ==> First(r, d.quoted).Some?)
    && (r.name == "fchdir" ==> First(r, d.descriptor).Some?)
    && (r.name == "getcwd" && r.success ==> First(r, d.quoted).Some?)
  }

  type Records = map<nat, seq<Raw>>

  function Meanings(records: seq<Raw>, d: Decoders): (s: seq<Record>)
    ensures |s| == |records| && forall i :: 0 <= i < |s| ==> s[i] == Meaning(records[i], d)
  {
    seq(|records|, i requires 0 <= i < |records| => Meaning(records[i], d))
  }

  function TracesOf(raw: Records, d: Decoders): (t: Traces)
    ensures t.Keys == raw.Keys
  {
    map pid | pid in raw :: Meanings(raw[pid], d)
  }

  /** The verdict on the record at a place: it must decode, and the admission decides. */
  function RulesOf<A>(raw: Records, d: Decoders, admit: (A, Raw, string) -> Option<A>): Rules<A> {
    Rules(ResolvePath(d),
          (a: A, p: Place) =>
            if p.pid in raw && p.index < |raw[p.pid]| && Decodes(raw[p.pid][p.index], d)
            then admit(a, raw[p.pid][p.index], p.cwd) else None)
  }

  /** Every successful spawn has a process id for its result. */
  ghost predicate Readable(raw: Records) {
    forall pid, i :: pid in raw && 0 <= i < |raw[pid]| ==> !ChildResult(raw[pid][i]).BadChild?
  }

  /** The spawn relation is read off the results. */
  lemma SpawnsAre(raw: Records, d: Decoders, q: nat, i: nat, c: nat)
    ensures SpawnAt(TracesOf(raw, d), q, i, c) <==> q in raw && i < |raw[q]| && ChildResult(raw[q][i]) == Child(c)
  {
  }

  /** The check of the results, record by record. */
  method CheckResults(raw: Records) returns (ok: bool)
    ensures ok <==> Readable(raw)
  {
    hide ChildResult;
    var rest := raw.Keys;
    while rest != {}
      invariant rest <= raw.Keys
      invariant forall pid, i :: pid in raw.Keys - rest && 0 <= i < |raw[pid]| ==> !ChildResult(raw[pid][i]).BadChild?
      decreases |rest|
    {
      var pid :| pid in rest;
      for n := 0 to |raw[pid]|
        invariant forall i :: 0 <= i < n ==> !ChildResult(raw[pid][i]).BadChild?
      {
        if ChildResult(raw[pid][n]).BadChild? { return false; }
      }
      rest := rest - {pid};
    }
    return true;
  }

  // ---------- what the run says of the records ----------

  /** A successful spawn whose result begins with the number of the child. */
  ghost predicate SpawnedBy(r: Raw, c: nat) {
    && r.success && (r.name == "clone" || r.name == "clone3" || r.name == "fork" || r.name == "vfork")
    && exists k :: LeadingNumber(r.result, k, c)
  }

  ghost predicate LeadingNumber(s: string, k: int, n: nat) {
    && 0 < k <= |s| && Text.AllDigits(s[..k]) && (k < |s| ==> !Text.IsDigit(s[k])) && Text.Number(s[..k]) == n
  }

  lemma ChildIs(r: Raw, c: nat)
    requires !ChildResult(r).BadChild?
    ensures ChildResult(r) == Child(c) <==> SpawnedBy(r, c)
  {
    var n := Text.DigitRun(r.result);
    if n > 0 { assert LeadingNumber(r.result, n, Text.Number(r.result[..n])); }
    forall k, m: nat | LeadingNumber(r.result, k, m) ensures k == n {
      RunIs(r.result, k);
    }
  }

  lemma RunIs(s: string, k: nat)
    requires k <= |s| && Text.AllDigits(s[..k]) && (k < |s| ==> !Text.IsDigit(s[k]))
    ensures Text.DigitRun(s) == k
  {
    assert s == s[..k] + s[k..];
    Text.RunOfDigits(s[..k], s[k..]);
  }

  /** The working directory after a record: a successful `chdir` to a path leads there from
      here, `fchdir` to the directory of the descriptor, `getcwd` tells where we are; any
      other record, and any that failed, leaves it. */
  predicate Moves(r: Raw, d: Decoders, here: string, next: string) {
    if r.success && r.name == "chdir" && First(r, d.quoted).Some? && First(r, d.quoted).value != "" then
      var v := First(r, d.quoted).value;
      next == d.lexical(if v[0] == '/' then v else here + "/" + v)
    else if r.success && r.name == "fchdir" && First(r, d.descriptor).Some? then
      next == First(r, d.descriptor).value
    else if r.success && r.name == "getcwd" && First(r, d.quoted).Some? then
      next == d.lexical(First(r, d.quoted).value)
    else
      next == here
  }

  lemma MeaningMoves(r: Raw, d: Decoders, here: string)
    ensures Moves(r, d, here, CwdAfter(Meaning(r, d), here, ResolvePath(d)))
  {
  }

  predicate InRange(raw: Records, p: Place) { p.pid in raw && p.index < |raw[p.pid]| }

  /** The directories of a walk over the records: the root starts in `cwd`, a child where its
      spawner was at the spawn, and every record is reached where the one before led. */
  ghost predicate Directed(raw: Records, d: Decoders, root: nat, cwd: string, walk: seq<Place>) {
    && (forall j :: 0 <= j < |walk| ==> InRange(raw, walk[j]))
    && (forall j :: 0 <= j < |walk| && walk[j].pid == root && walk[j].index == 0 ==> walk[j].cwd == cwd)
    && (forall j, k :: 0 <= j < |walk| && 0 <= k < |walk| && Follow(walk[j], walk[k]) ==>
          Moves(raw[walk[j].pid][walk[j].index], d, walk[j].cwd, walk[k].cwd))
    && (forall j, k :: 0 <= j < |walk| && 0 <= k < |walk| && Spawns(raw, walk[j], walk[k]) ==>
          walk[k].cwd == walk[j].cwd)
  }

  /** The record at `p` spawned the process whose first record is at `q`. */
  ghost predicate Spawns(raw: Records, p: Place, q: Place)
    requires InRange(raw, p)
  {
    q.index == 0 && SpawnedBy(raw[p.pid][p.index], q.pid)
  }

  predicate Follow(p: Place, q: Place) { q.pid == p.pid && q.index == p.index + 1 }

  predicate IsExec(r: Raw) { r.success && (r.name == "execve" || r.name == "execveat") }

  /** The evidence counts the successful execs of each process and names its spawner. */
  ghost predicate Witnessed(raw: Records, root: nat, evidence: Evidences) {
    && evidence.Keys == raw.Keys
    && (forall pid :: pid in raw ==> evidence[pid].execs == |ExecsOf(raw[pid])|)
    && (forall pid :: pid in raw && pid != root ==> SpawnedIn(raw, evidence[pid].parent, pid))
    && (root in raw ==> evidence[root].parent == 0)
  }

  function ExecsOf(records: seq<Raw>): set<nat> {
    set i: nat | i < |records| && IsExec(records[i])
  }

  ghost predicate SpawnedIn(raw: Records, q: nat, c: nat) {
    q in raw && exists i :: 0 <= i < |raw[q]| && SpawnedBy(raw[q][i], c)
  }

  lemma ExecMeans(r: Raw, d: Decoders)
    ensures Meaning(r, d).Exec? <==> IsExec(r)
  {
  }

  lemma {:induction false} ExecsCount(records: seq<Raw>, d: Decoders)
    ensures Execs(Meanings(records, d)) == |ExecsOf(records)|
  {
    if records == [] {
      assert ExecsOf(records) == {};
    } else {
      var n := |records| - 1;
      ExecsCount(records[..n], d);
      assert Meanings(records, d)[..n] == Meanings(records[..n], d);
      ExecMeans(records[n], d);
      hide Meaning, IsExec;
      var front := ExecsOf(records[..n]);
      assert ExecsOf(records) == front + if IsExec(records[n]) then {n} else {};
      assert n !in front;
    }
  }

  lemma DirectedNow(raw: Records, d: Decoders, root: nat, cwd: string, started: map<nat, string>, walk: seq<Place>)
    requires Readable(raw) && PlacesFit(TracesOf(raw, d), ResolvePath(d), started, walk)
    requires Starts(TracesOf(raw, d), ResolvePath(d), root, cwd, started)
    ensures Directed(raw, d, root, cwd, walk)
  {
    var traces := TracesOf(raw, d);
    forall j | 0 <= j < |walk| ensures InRange(raw, walk[j]) && PlaceFits(traces, ResolvePath(d), started, walk[j]) {
      assert PlaceFits(traces, ResolvePath(d), started, walk[j]);
    }
    hide PlacesFit, Readable, Starts, SpawnedBy, Moves, TracesOf, ResolvePath, PlaceFits;
    forall j | 0 <= j < |walk| && walk[j].pid == root && walk[j].index == 0 ensures walk[j].cwd == cwd {
      RootFits(traces, d, root, cwd, started, walk[j]);
    }
    forall j, k | 0 <= j < |walk| && 0 <= k < |walk| && Follow(walk[j], walk[k])
      ensures Moves(raw[walk[j].pid][walk[j].index], d, walk[j].cwd, walk[k].cwd)
    {
      NextFits(raw, d, started, walk[j], walk[k]);
    }
    forall j, k | 0 <= j < |walk| && 0 <= k < |walk| && Spawns(raw, walk[j], walk[k])
      ensures walk[k].cwd == walk[j].cwd
    {
      ChildFits(raw, d, root, cwd, started, walk[j], walk[k]);
    }
  }

  lemma RootFits(traces: Traces, d: Decoders, root: nat, cwd: string, started: map<nat, string>, p: Place)
    requires Starts(traces, ResolvePath(d), root, cwd, started) && PlaceFits(traces, ResolvePath(d), started, p)
    requires p.pid == root && p.index == 0
    ensures p.cwd == cwd
  {
    hide ResolvePath;
    RunStart(traces[root], started[root], ResolvePath(d));
  }

  lemma NextFits(raw: Records, d: Decoders, started: map<nat, string>, p: Place, q: Place)
    requires PlaceFits(TracesOf(raw, d), ResolvePath(d), started, p) && InRange(raw, p)
    requires PlaceFits(TracesOf(raw, d), ResolvePath(d), started, q) && Follow(p, q)
    ensures Moves(raw[p.pid][p.index], d, p.cwd, q.cwd)
  {
    hide ResolvePath, Moves, Meaning, CwdOf;
    RunNext(TracesOf(raw, d)[p.pid], p.index, started[p.pid], ResolvePath(d));
    MeaningMoves(raw[p.pid][p.index], d, p.cwd);
  }

  lemma ChildFits(raw: Records, d: Decoders, root: nat, cwd: string, started: map<nat, string>, p: Place, q: Place)
    requires Readable(raw) && Starts(TracesOf(raw, d), ResolvePath(d), root, cwd, started)
    requires PlaceFits(TracesOf(raw, d), ResolvePath(d), started, p) && InRange(raw, p)
    requires PlaceFits(TracesOf(raw, d), ResolvePath(d), started, q)
    requires q.index == 0 && SpawnedBy(raw[p.pid][p.index], q.pid)
    ensures q.cwd == p.cwd
  {
    hide ResolvePath, SpawnedBy, ChildResult, CwdOf;
    ChildIs(raw[p.pid][p.index], q.pid);
    SpawnsAre(raw, d, p.pid, p.index, q.pid);
    RunStart(TracesOf(raw, d)[q.pid], started[q.pid], ResolvePath(d));
  }

  lemma ParentNow(raw: Records, d: Decoders, q: nat, pid: nat)
    requires Readable(raw) && SpawnEdge(TracesOf(raw, d), q, pid)
    ensures SpawnedIn(raw, q, pid)
  {
    hide SpawnedBy, ChildResult, TracesOf;
    var i: nat :| SpawnAt(TracesOf(raw, d), q, i, pid);
    SpawnsAre(raw, d, q, i, pid);
    ChildIs(raw[q][i], pid);
  }

  lemma WitnessedNow(raw: Records, d: Decoders, root: nat, cwd: string, evidence: Evidences, b: Books, w: seq<Place>)
    requires Readable(raw) && Complete(TracesOf(raw, d), ResolvePath(d), root, cwd, evidence, b, w)
    ensures Witnessed(raw, root, evidence)
  {
    hide OneTree, Walk, Kept, Starts, Covers, ResolvePath, SpawnedIn, Execs, ExecsOf, Readable, SpawnEdge, Meanings;
    forall pid | pid in raw ensures evidence[pid].execs == |ExecsOf(raw[pid])| {
      ExecsCount(raw[pid], d);
    }
    forall pid | pid in raw && pid != root ensures SpawnedIn(raw, evidence[pid].parent, pid) {
      ParentNow(raw, d, evidence[pid].parent, pid);
    }
  }

  /** `run` on parsed records, for any admission: it passes exactly when every spawn has an
      id, the spawns tie the traces into one tree, and on the walk of the tree every record
      decodes and the admission refuses none. */
  method Check<A>(raw: Records, cwd: string, d: Decoders, admit: (A, Raw, string) -> Option<A>, first: A)
    returns (ok: bool, root: nat, evidence: Evidences, admission: A, ghost books: Books, ghost walk: seq<Place>)
    ensures ok <==> Readable(raw) && CanPass(TracesOf(raw, d), RulesOf(raw, d, admit), first, cwd)
    ensures ok ==> Complete(TracesOf(raw, d), ResolvePath(d), root, cwd, evidence, books, walk)
    ensures ok ==> Judged(RulesOf(raw, d, admit), first, walk) == Some(admission)
    ensures ok ==> Directed(raw, d, root, cwd, walk) && Witnessed(raw, root, evidence)
  {
    hide Readable, CanPass, Complete, Judged, TracesOf, RulesOf, ResolvePath, Directed, Witnessed;
    ok, root, evidence, admission, books, walk := false, 0, map[], first, Books(map[], {}, []), [];
    var readable := CheckResults(raw);
    if !readable { return; }
    SameResolve(raw, d, admit);
    ok, root, evidence, admission, books, walk := Run(TracesOf(raw, d), cwd, RulesOf(raw, d, admit), first);
    if ok {
      CompleteFits(TracesOf(raw, d), ResolvePath(d), root, cwd, evidence, books, walk);
      DirectedNow(raw, d, root, cwd, books.started, walk);
      WitnessedNow(raw, d, root, cwd, evidence, books, walk);
    }
  }

  lemma CompleteFits(traces: Traces, resolve: Resolve, root: nat, cwd: string, evidence: Evidences, b: Books,
                     w: seq<Place>)
    requires Complete(traces, resolve, root, cwd, evidence, b, w)
    ensures PlacesFit(traces, resolve, b.started, w) && Starts(traces, resolve, root, cwd, b.started)
  {
    hide OneTree, Walk, Kept, Covers, Execs, CwdOf, PlacesFit;
    WalkEnd(traces, resolve, root, 0, cwd, w);
    RunStart(traces[root], b.started[root], resolve);
    WalkFits(traces, resolve, b.started, root, 0, cwd, w);
  }

  lemma SameResolve<A>(raw: Records, d: Decoders, admit: (A, Raw, string) -> Option<A>)
    ensures RulesOf(raw, d, admit).resolve == ResolvePath(d)
  {
  }
}
