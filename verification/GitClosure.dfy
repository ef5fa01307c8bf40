/** What a tree object stands for: the unfolding of the tree graph below it, with the
    totals the exporter charges. The object store is an arbitrary map, so sharing
    and cycles are possible. */
module GitClosure {
  import opened GitTree
  import opened Wrappers
  import Lex

  datatype Kind = Blob | Tree | Commit

  /** An object on disk, with the size of its file. */
  datatype StoredObject = StoredObject(kind: Kind, payload: string, compressed: nat)

  type Disk = map<ObjectId, StoredObject>

  datatype File = File(path: string, mode: Mode, id: ObjectId, payload: string)

  /** The files below a tree in depth-first order, the directory entries met and the
      tree payload bytes read, each counted as often as it is met. */
  datatype Unfolding = Unfolding(files: seq<File>, directories: nat, treeBytes: nat)

  const MAX_PATH := 512

  function Join(prefix: string, name: string): string {
    if prefix == "" then name else prefix + "/" + name
  }

  /** The part of every path below `prefix` that comes before the entry name. */
  function Lead(prefix: string): string {
    if prefix == "" then "" else prefix + "/"
  }

  ghost predicate IsTree(disk: Disk, id: ObjectId) {
    id in disk && disk[id].kind.Tree? && Decode(disk[id].payload).Some?
  }

  ghost function Entries(disk: Disk, id: ObjectId): seq<Entry>
    requires IsTree(disk, id)
  {
    Decode(disk[id].payload).value
  }

  function Combine(a: Unfolding, b: Option<Unfolding>): Option<Unfolding> {
    match b
    case None => None
    case Some(u) => Some(Unfolding(a.files + u.files, a.directories + u.directories, a.treeBytes + u.treeBytes))
  }

  const NOTHING := Unfolding([], 0, 0)

  /** The unfolding of a tree, when it is well formed and at most `levels` trees deep. */
  ghost function Unfold(disk: Disk, id: ObjectId, prefix: string, levels: nat): Option<Unfolding>
    decreases levels, 0
  {
    if levels == 0 || !IsTree(disk, id) then None
    else Combine(Unfolding([], 0, |disk[id].payload|), UnfoldAll(disk, Entries(disk, id), prefix, levels - 1))
  }

  ghost function UnfoldAll(disk: Disk, es: seq<Entry>, prefix: string, levels: nat): Option<Unfolding>
    decreases levels, |es| + 1
  {
    if es == [] then Some(NOTHING)
    else
      match UnfoldOne(disk, es[0], prefix, levels)
      case None => None
      case Some(u) => Combine(u, UnfoldAll(disk, es[1..], prefix, levels))
  }

  ghost function UnfoldOne(disk: Disk, e: Entry, prefix: string, levels: nat): Option<Unfolding>
    decreases levels, 1
  {
    var path := Join(prefix, e.name);
    if |path| > MAX_PATH then None
    else if e.mode.Directory? then Combine(Unfolding([], 1, 0), Unfold(disk, e.id, path, levels))
    else if e.id in disk && disk[e.id].kind.Blob? then
      Some(Unfolding([File(path, e.mode, e.id, disk[e.id].payload)], 0, 0))
    else None
  }

  // ---------- the files of an unfolding are the leaves reached by names ----------

  /** Following `names` down from tree `id` ends at the non-directory entry `leaf`. */
  ghost predicate Leads(disk: Disk, id: ObjectId, names: seq<string>, leaf: Entry)
    decreases |names|
  {
    && names != []
    && IsTree(disk, id)
    && exists e :: e in Entries(disk, id) && LeadsFrom(disk, e, names, leaf)
  }

  ghost predicate LeadsFrom(disk: Disk, e: Entry, names: seq<string>, leaf: Entry)
    requires names != []
    decreases |names|, 0
  {
    && e.name == names[0]
    && if |names| == 1 then e == leaf && !leaf.mode.Directory?
       else e.mode.Directory? && Leads(disk, e.id, names[1..], leaf)
  }

  function JoinAll(names: seq<string>): string
    requires names != []
  {
    if |names| == 1 then names[0] else names[0] + "/" + JoinAll(names[1..])
  }

  /** `f` is what sits at the end of a chain of names, under its joined path. */
  ghost predicate IsLeafFile(disk: Disk, lead: string, f: File, names: seq<string>, leaf: Entry)
    requires names != []
  {
    && f.path == lead + JoinAll(names)
    && leaf.id in disk && disk[leaf.id].kind.Blob?
    && f == File(f.path, leaf.mode, leaf.id, disk[leaf.id].payload)
  }

  ghost predicate InClosure(disk: Disk, id: ObjectId, lead: string, f: File) {
    exists names, leaf :: names != [] && Leads(disk, id, names, leaf) && IsLeafFile(disk, lead, f, names, leaf)
  }

  ghost predicate InClosureFrom(disk: Disk, e: Entry, lead: string, f: File) {
    exists names, leaf :: names != [] && LeadsFrom(disk, e, names, leaf) && IsLeafFile(disk, lead, f, names, leaf)
  }

  /** The unfolding lists exactly the leaves of the tree graph. */
  lemma {:induction false} UnfoldMembers(disk: Disk, id: ObjectId, prefix: string, levels: nat, f: File)
    requires Unfold(disk, id, prefix, levels).Some?
    ensures f in Unfold(disk, id, prefix, levels).value.files <==> InClosure(disk, id, Lead(prefix), f)
    decreases levels, 0
  {
    var es := Entries(disk, id);
    UnfoldAllMembers(disk, es, prefix, levels - 1, f);
    if InClosure(disk, id, Lead(prefix), f) {
      var names, leaf :| names != [] && Leads(disk, id, names, leaf) && IsLeafFile(disk, Lead(prefix), f, names, leaf);
      var e :| e in es && LeadsFrom(disk, e, names, leaf);
      assert InClosureFrom(disk, e, Lead(prefix), f);
    }
    if e :| e in es && InClosureFrom(disk, e, Lead(prefix), f) {
      var names, leaf :| names != [] && LeadsFrom(disk, e, names, leaf) &&
          IsLeafFile(disk, Lead(prefix), f, names, leaf);
      assert Leads(disk, id, names, leaf);
    }
  }

  lemma {:induction false} UnfoldAllMembers(disk: Disk, es: seq<Entry>, prefix: string, levels: nat, f: File)
    requires UnfoldAll(disk, es, prefix, levels).Some?
    requires forall e :: e in es ==> ValidName(e.name)
    ensures f in UnfoldAll(disk, es, prefix, levels).value.files <==>
            exists e :: e in es && InClosureFrom(disk, e, Lead(prefix), f)
    decreases levels, |es| + 1
  {
    if es != [] {
      UnfoldOneMembers(disk, es[0], prefix, levels, f);
      UnfoldAllMembers(disk, es[1..], prefix, levels, f);
      assert forall e :: e in es <==> e == es[0] || e in es[1..];
    }
  }

  lemma {:induction false} UnfoldOneMembers(disk: Disk, e: Entry, prefix: string, levels: nat, f: File)
    requires UnfoldOne(disk, e, prefix, levels).Some? && ValidName(e.name)
    ensures f in UnfoldOne(disk, e, prefix, levels).value.files <==> InClosureFrom(disk, e, Lead(prefix), f)
    decreases levels, 1
  {
    var path := Join(prefix, e.name);
    assert path == Lead(prefix) + e.name;
    if e.mode.Directory? {
      UnfoldMembers(disk, e.id, path, levels, f);
      LeadThrough(disk, e, prefix, f);
    } else if f in UnfoldOne(disk, e, prefix, levels).value.files {
      assert LeadsFrom(disk, e, [e.name], e) && IsLeafFile(disk, Lead(prefix), f, [e.name], e);
    }
  }

  lemma LeadJoin(prefix: string, name: string, names: seq<string>)
    requires name != "" && names != []
    ensures Lead(prefix) + JoinAll([name] + names) == Lead(Join(prefix, name)) + JoinAll(names)
  {
    assert ([name] + names)[1..] == names;
    var rest := JoinAll(names);
    assert Lead(Join(prefix, name)) == Lead(prefix) + name + "/";
    assert Lead(prefix) + (name + "/" + rest) == Lead(prefix) + name + "/" + rest;
  }

  /** Entering a directory moves its name from the chain into the lead. */
  lemma LeadThrough(disk: Disk, e: Entry, prefix: string, f: File)
    requires e.mode.Directory? && e.name != ""
    ensures InClosure(disk, e.id, Lead(Join(prefix, e.name)), f) <==> InClosureFrom(disk, e, Lead(prefix), f)
  {
    var lead, deeper := Lead(prefix), Lead(Join(prefix, e.name));
    if InClosure(disk, e.id, deeper, f) {
      var names, leaf :| names != [] && Leads(disk, e.id, names, leaf) && IsLeafFile(disk, deeper, f, names, leaf);
      var longer := [e.name] + names;
      LeadJoin(prefix, e.name, names);
      assert longer[1..] == names;
      assert LeadsFrom(disk, e, longer, leaf) && IsLeafFile(disk, lead, f, longer, leaf);
    }
    if InClosureFrom(disk, e, lead, f) {
      var names, leaf :| names != [] && LeadsFrom(disk, e, names, leaf) && IsLeafFile(disk, lead, f, names, leaf);
      assert names == [e.name] + names[1..];
      LeadJoin(prefix, e.name, names[1..]);
      assert Leads(disk, e.id, names[1..], leaf) && IsLeafFile(disk, deeper, f, names[1..], leaf);
    }
  }

  // ---------- the depth-first order is the order of full paths ----------

  predicate Increasing(fs: seq<File>) {
    forall i, j :: 0 <= i < j < |fs| ==> Lex.Less(fs[i].path, fs[j].path)
  }

  /** `path` lies at or below entry `e`. */
  predicate Under(path: string, lead: string, e: Entry) {
    if e.mode.Directory? then lead + Key(e) <= path else path == lead + Key(e)
  }

  lemma NoSlash(n: string)
    requires ValidName(n)
    ensures '/' !in n
  {
  }

  /** Order of Git keys carries over to everything below the two entries: a key that
      ends in a slash is never a prefix of another key, as names hold no slash. */
  lemma KeysOrderPaths(lead: string, a: Entry, b: Entry, p: string, q: string)
    requires ValidName(a.name) && ValidName(b.name) && Lex.Less(Key(a), Key(b))
    requires Under(p, lead, a) && Under(q, lead, b)
    ensures Lex.Less(p, q)
  {
    var ka, kb := Key(a), Key(b);
    var x, y := p[|lead + ka|..], q[|lead + kb|..];
    assert p == lead + (ka + x) && q == lead + (kb + y);
    if a.mode.Directory? {
      NoSlash(b.name);
      Lex.Irreflexive(ka);
      assert ka[|a.name|] == '/' && forall i :: 0 <= i < |b.name| ==> kb[i] == b.name[i] != '/';
      if |a.name| < |b.name| { assert kb[|a.name|] != ka[|a.name|]; }
      assert |ka| == |kb| && ka <= kb ==> ka == kb;
      assert !(ka <= kb);
      Lex.ExtendBoth(ka, kb, x, y);
    } else {
      assert x == "" && ka + x == ka;
      Lex.ExtendRight(ka, kb, y);
    }
    Lex.CommonPrefix(lead, ka + x, kb + y);
  }

  lemma {:induction false} FirstKeyLeast(es: seq<Entry>, j: nat)
    requires Ordered(es) && 0 < j < |es|
    ensures Lex.Less(Key(es[0]), Key(es[j]))
  {
    if j > 1 {
      FirstKeyLeast(es, j - 1);
      Lex.Transitive(Key(es[0]), Key(es[j - 1]), Key(es[j]));
    }
  }

  /** Files appended by the depth-first walk are already in strictly increasing order
      of their full paths. */
  lemma {:induction false} UnfoldIncreasing(disk: Disk, id: ObjectId, prefix: string, levels: nat)
    requires Unfold(disk, id, prefix, levels).Some?
    ensures Increasing(Unfold(disk, id, prefix, levels).value.files)
    ensures forall f :: f in Unfold(disk, id, prefix, levels).value.files ==> Lead(prefix) <= f.path
    decreases levels, 0
  {
    var es := Entries(disk, id);
    UnfoldAllIncreasing(disk, es, prefix, levels - 1);
    var fs := UnfoldAll(disk, es, prefix, levels - 1).value.files;
    assert Unfold(disk, id, prefix, levels).value.files == fs;
    forall f | f in fs ensures Lead(prefix) <= f.path {
      var e :| e in es && Under(f.path, Lead(prefix), e);
    }
  }

  lemma {:induction false} UnfoldAllIncreasing(disk: Disk, es: seq<Entry>, prefix: string, levels: nat)
    requires UnfoldAll(disk, es, prefix, levels).Some?
    requires Ordered(es) && forall e :: e in es ==> ValidName(e.name)
    ensures Increasing(UnfoldAll(disk, es, prefix, levels).value.files)
    ensures forall f :: f in UnfoldAll(disk, es, prefix, levels).value.files ==>
              exists e :: e in es && Under(f.path, Lead(prefix), e)
    decreases levels, |es| + 1
  {
    if es != [] {
      var e, rest := es[0], es[1..];
      UnfoldOneIncreasing(disk, e, prefix, levels);
      assert Ordered(rest) by {
        forall i | 0 < i < |rest| ensures Lex.Less(Key(rest[i - 1]), Key(rest[i])) {
          assert rest[i - 1] == es[i] && rest[i] == es[i + 1];
        }
      }
      UnfoldAllIncreasing(disk, rest, prefix, levels);
      var a := UnfoldOne(disk, e, prefix, levels).value.files;
      var b := UnfoldAll(disk, rest, prefix, levels).value.files;
      forall f, g | f in a && g in b ensures Lex.Less(f.path, g.path) {
        var e' :| e' in rest && Under(g.path, Lead(prefix), e');
        var j :| 0 <= j < |rest| && rest[j] == e';
        FirstKeyLeast(es, j + 1);
        KeysOrderPaths(Lead(prefix), e, e', f.path, g.path);
      }
      IncreasingConcat(a, b);
      assert UnfoldAll(disk, es, prefix, levels).value.files == a + b;
      assert e in es && forall e' :: e' in rest ==> e' in es;
    }
  }

  lemma IncreasingConcat(a: seq<File>, b: seq<File>)
    requires Increasing(a) && Increasing(b)
    requires forall f, g :: f in a && g in b ==> Lex.Less(f.path, g.path)
    ensures Increasing(a + b)
  {
  }

  lemma {:induction false} UnfoldOneIncreasing(disk: Disk, e: Entry, prefix: string, levels: nat)
    requires UnfoldOne(disk, e, prefix, levels).Some? && ValidName(e.name)
    ensures Increasing(UnfoldOne(disk, e, prefix, levels).value.files)
    ensures forall f :: f in UnfoldOne(disk, e, prefix, levels).value.files ==> Under(f.path, Lead(prefix), e)
    decreases levels, 1
  {
    var path := Join(prefix, e.name);
    assert path == Lead(prefix) + e.name;
    if e.mode.Directory? {
      UnfoldIncreasing(disk, e.id, path, levels);
      assert Lead(path) == Lead(prefix) + Key(e);
      assert UnfoldOne(disk, e, prefix, levels).value.files == Unfold(disk, e.id, path, levels).value.files;
    }
  }

  // ---------- cycles ----------

  /** Tree `a` has a directory entry for tree `b`. */
  ghost predicate Edge(disk: Disk, a: ObjectId, b: ObjectId) {
    IsTree(disk, a) && exists e :: e in Entries(disk, a) && e.mode.Directory? && e.id == b
  }

  ghost predicate Chain(disk: Disk, p: seq<ObjectId>) {
    |p| >= 2 && forall i :: 0 < i < |p| ==> Edge(disk, p[i - 1], p[i])
  }

  ghost predicate Links(disk: Disk, p: seq<ObjectId>, a: ObjectId, b: ObjectId) {
    Chain(disk, p) && p[0] == a && p[|p| - 1] == b
  }

  /** `b` is met below `a`, after at least one directory entry. */
  ghost predicate Below(disk: Disk, a: ObjectId, b: ObjectId) {
    exists p :: Links(disk, p, a, b)
  }

  lemma BelowStep(disk: Disk, a: ObjectId, b: ObjectId, c: ObjectId)
    requires Edge(disk, b, c) && (a == b || Below(disk, a, b))
    ensures Below(disk, a, c)
  {
    if a == b {
      assert Links(disk, [a, c], a, c);
    } else {
      var p :| Links(disk, p, a, b);
      assert Links(disk, p + [c], a, c);
    }
  }

  ghost predicate Unfoldable(disk: Disk, id: ObjectId, levels: nat) {
    exists prefix :: Unfold(disk, id, prefix, levels).Some?
  }

  /** A tree met below an unfoldable tree is unfoldable with one level less. */
  lemma EdgeUnfolds(disk: Disk, a: ObjectId, b: ObjectId, levels: nat)
    requires Unfoldable(disk, a, levels) && Edge(disk, a, b)
    ensures levels > 1 && Unfoldable(disk, b, levels - 1)
  {
    var prefix :| Unfold(disk, a, prefix, levels).Some?;
    var e :| e in Entries(disk, a) && e.mode.Directory? && e.id == b;
    MemberUnfolds(disk, Entries(disk, a), prefix, levels - 1, e);
    assert Unfold(disk, b, Join(prefix, e.name), levels - 1).Some?;
  }

  lemma {:induction false} MemberUnfolds(disk: Disk, es: seq<Entry>, prefix: string, levels: nat, e: Entry)
    requires UnfoldAll(disk, es, prefix, levels).Some? && e in es
    ensures UnfoldOne(disk, e, prefix, levels).Some?
  {
    if e != es[0] { MemberUnfolds(disk, es[1..], prefix, levels, e); }
  }

  lemma ChainTail(disk: Disk, p: seq<ObjectId>)
    requires Chain(disk, p) && |p| > 2
    ensures Chain(disk, p[1..])
  {
    var q := p[1..];
    forall i | 0 < i < |q| ensures Edge(disk, q[i - 1], q[i]) {
      assert q[i - 1] == p[i] && q[i] == p[i + 1];
    }
  }

  lemma {:induction false} ChainUnfolds(disk: Disk, p: seq<ObjectId>, levels: nat)
    requires Chain(disk, p) && Unfoldable(disk, p[0], levels)
    ensures |p| <= levels && Unfoldable(disk, p[|p| - 1], levels - (|p| - 1))
    decreases |p|
  {
    hide Unfoldable, Edge;
    EdgeUnfolds(disk, p[0], p[1], levels);
    if |p| > 2 {
      ChainTail(disk, p);
      ChainUnfolds(disk, p[1..], levels - 1);
      assert p[1..][|p| - 2] == p[|p| - 1];
      assert levels - 1 - (|p[1..]| - 1) == levels - (|p| - 1);
    }
  }

  /** A tree on a cycle has no unfolding, however many levels are allowed. */
  lemma {:induction false} CycleHasNoUnfolding(disk: Disk, a: ObjectId, levels: nat)
    requires Below(disk, a, a)
    ensures !Unfoldable(disk, a, levels)
    decreases levels
  {
    if Unfoldable(disk, a, levels) {
      var p :| Links(disk, p, a, a);
      ChainUnfolds(disk, p, levels);
      CycleHasNoUnfolding(disk, a, levels - (|p| - 1));
    }
  }

  /** So nothing below an unfoldable tree is on a cycle. */
  lemma UnfoldAcyclic(disk: Disk, a: ObjectId, levels: nat)
    requires Unfoldable(disk, a, levels)
    ensures forall b :: a == b || Below(disk, a, b) ==> !Below(disk, b, b)
  {
    forall b | a == b || Below(disk, a, b) ensures !Below(disk, b, b) {
      if Below(disk, b, b) {
        if a != b {
          var p :| Links(disk, p, a, b);
          ChainUnfolds(disk, p, levels);
          CycleHasNoUnfolding(disk, b, levels - (|p| - 1));
        } else {
          CycleHasNoUnfolding(disk, a, levels);
        }
      }
    }
  }
}
