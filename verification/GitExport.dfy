/** The loose object store with its budgets, and the export of a source tree. */
module GitExport {
  import opened GitTree
  import opened Wrappers
  import opened GitClosure
  import opened GitObject
  import opened GitReads
  import Lex
  import Text

  datatype GitError =
    | Unreadable | BadTree(error: ParseError) | TreeBytes | Depth | Cycle | LongPath
    | TooManyDirectories | TooManyFiles | EmptyOrDuplicate

  const MAX_SOURCE_DIRECTORIES := 16384

  /** The totals of a walk stay within the limits on files, directories and bytes. */
  predicate InBudget(p: Profile, u: Unfolding) {
    && |u.files| <= p.sourceFileLimit
    && u.directories <= MAX_SOURCE_DIRECTORIES
    && u.treeBytes <= p.sourceIndexLimit
  }

  predicate Admits(p: Profile, u: Option<Unfolding>) {
    u.Some? && InBudget(p, u.value)
  }

  // ---------- a walk that is part way through a tree ----------

  lemma CombineAssociative(a: Unfolding, b: Option<Unfolding>, c: Option<Unfolding>)
    requires b.Some?
    ensures Combine(a, Combine(b.value, c)) == Combine(Combine(a, b).value, c)
  {
    if c.Some? {
      assert a.files + (b.value.files + c.value.files) == (a.files + b.value.files) + c.value.files;
    }
  }

  /** What the walk still owes before and after the next entry; and nothing that comes
      later can bring an overspent walk back into budget. */
  lemma NextEntry(p: Profile, disk: Disk, es: seq<Entry>, i: nat, prefix: string, levels: nat, spent: Unfolding)
    requires i < |es|
    ensures
      var next := Combine(spent, UnfoldOne(disk, es[i], prefix, levels));
      var whole := Combine(spent, UnfoldAll(disk, es[i..], prefix, levels));
      && (next.Some? ==> whole == Combine(next.value, UnfoldAll(disk, es[i + 1..], prefix, levels)))
      && (!Admits(p, next) ==> !Admits(p, whole))
  {
    assert es[i..][1..] == es[i + 1..] && es[i..][0] == es[i];
    var one := UnfoldOne(disk, es[i], prefix, levels);
    if one.Some? {
      CombineAssociative(spent, one, UnfoldAll(disk, es[i + 1..], prefix, levels));
    }
  }

  lemma WalkStart(disk: Disk, es: seq<Entry>, prefix: string, levels: nat)
    ensures UnfoldAll(disk, es, prefix, levels) == UnfoldAll(disk, es[0..], prefix, levels)
  {
    assert es[0..] == es;
  }

  lemma WalkEnd(disk: Disk, es: seq<Entry>, prefix: string, levels: nat, spent: Unfolding)
    ensures Combine(spent, UnfoldAll(disk, es[|es|..], prefix, levels)) == Some(spent)
  {
    assert spent.files + [] == spent.files;
  }

  /** Entering a tree charges its payload before its entries. */
  lemma TreeCharge(p: Profile, disk: Disk, id: ObjectId, prefix: string, levels: nat, spent: Unfolding)
    ensures
      var whole := Combine(spent, Unfold(disk, id, prefix, levels));
      if levels == 0 || !IsTree(disk, id) then whole == None
      else
        var charged := spent.(treeBytes := spent.treeBytes + |disk[id].payload|);
        && whole == Combine(charged, UnfoldAll(disk, Entries(disk, id), prefix, levels - 1))
        && (!InBudget(p, charged) ==> !Admits(p, whole))
  {
    if levels > 0 && IsTree(disk, id) {
      var own := Some(Unfolding([], 0, |disk[id].payload|));
      CombineAssociative(spent, own, UnfoldAll(disk, Entries(disk, id), prefix, levels - 1));
      assert spent.files + [] == spent.files;
    }
  }

  lemma NoneCombines(disk: Disk, id: ObjectId, prefix: string, levels: nat, spent: Unfolding)
    requires !Unfoldable(disk, id, levels)
    ensures Combine(spent, Unfold(disk, id, prefix, levels)) == None
  {
  }

  /** Entering a directory counts it before its tree. */
  lemma DirectoryCharge(p: Profile, disk: Disk, e: Entry, prefix: string, levels: nat, spent: Unfolding)
    requires e.mode.Directory? && |Join(prefix, e.name)| <= MAX_PATH
    ensures
      var charged := spent.(directories := spent.directories + 1);
      var whole := Combine(spent, UnfoldOne(disk, e, prefix, levels));
      && whole == Combine(charged, Unfold(disk, e.id, Join(prefix, e.name), levels))
      && (!InBudget(p, charged) ==> !Admits(p, whole))
  {
    hide Unfold;
    var own := Some(Unfolding([], 1, 0));
    CombineAssociative(spent, own, Unfold(disk, e.id, Join(prefix, e.name), levels));
    assert spent.files + [] == spent.files;
  }

  /** The trees being walked stay above the directory entered next. */
  lemma ActiveBelow(disk: Disk, id: ObjectId, above: set<ObjectId>, e: Entry)
    requires IsTree(disk, id) && e in Entries(disk, id)
    requires forall a :: a in above - {id} ==> Below(disk, a, id)
    ensures e.mode.Directory? ==> forall a :: a in above ==> Below(disk, a, e.id)
  {
    if e.mode.Directory? {
      forall a | a in above ensures Below(disk, a, e.id) { BelowStep(disk, a, id, e.id); }
    }
  }

  lemma BudgetBounds(p: Profile, u: Unfolding)
    requires InBudget(p, u)
    ensures |u.files| <= p.sourceFileLimit && u.directories <= MAX_SOURCE_DIRECTORIES &&
            u.treeBytes <= p.sourceIndexLimit
  {
  }

  // ---------- the final sort ----------

  function InsertByPath(f: File, fs: seq<File>): seq<File> {
    if fs == [] || !Lex.Less(fs[0].path, f.path) then [f] + fs else [fs[0]] + InsertByPath(f, fs[1..])
  }

  /** A stable sort by path, as `list.sort(key=...)` is. */
  function SortByPath(fs: seq<File>): seq<File> {
    if fs == [] then [] else InsertByPath(fs[0], SortByPath(fs[1..]))
  }

  lemma {:induction false} SortIsIdentity(fs: seq<File>)
    requires Increasing(fs)
    ensures SortByPath(fs) == fs
  {
    if fs != [] {
      assert Increasing(fs[1..]);
      SortIsIdentity(fs[1..]);
      if |fs| > 1 {
        assert fs[1..][0] == fs[1];
        Lex.Asymmetric(fs[0].path, fs[1].path);
      }
      assert fs == [fs[0]] + fs[1..];
    }
  }

  lemma {:induction false} PathsDistinct(fs: seq<File>)
    requires Increasing(fs)
    ensures |set f | f in fs :: f.path| == |fs|
  {
    var paths := set f | f in fs :: f.path;
    if fs == [] {
      assert paths == {};
    } else {
      var front, last := fs[..|fs| - 1], fs[|fs| - 1];
      assert fs == front + [last];
      PathsDistinct(front);
      var before := set f | f in front :: f.path;
      assert last.path !in before by {
        Lex.Irreflexive(last.path);
        assert forall f :: f in front ==> Lex.Less(f.path, last.path);
      }
      assert paths == before + {last.path};
    }
  }

  /** The files of an unfolding are sorted, distinct and those of the closure, and nothing
      below the root is on a cycle. */
  lemma UnfoldingMeans(disk: Disk, root: ObjectId, levels: nat, charged: nat, files: seq<File>)
    requires
      var whole := Combine(Unfolding([], 0, charged), Unfold(disk, root, "", levels));
      whole.Some? && whole.value.files == files
    ensures Increasing(files) && SortByPath(files) == files && |set f | f in files :: f.path| == |files|
    ensures forall f :: f in files <==> InClosure(disk, root, "", f)
    ensures forall b :: root == b || Below(disk, root, b) ==> !Below(disk, b, b)
  {
    hide Below, Unfold, Increasing, InClosure, SortByPath;
    assert files == [] + Unfold(disk, root, "", levels).value.files;
    UnfoldIncreasing(disk, root, "", levels);
    SortIsIdentity(files);
    PathsDistinct(files);
    forall f ensures f in files <==> InClosure(disk, root, "", f) {
      UnfoldMembers(disk, root, "", levels, f);
    }
    assert Unfoldable(disk, root, levels);
    UnfoldAcyclic(disk, root, levels);
  }

  class ObjectStore {
    const store: Store
    ghost const disk: Disk
    const profile: Profile
    var cache: map<ObjectId, StoredObject>
    var objectCount: nat
    var compressedBytes: nat
    var expandedBytes: nat
    var treeBytes: nat

    // The variables that `export_tree` shares with its nested visitor.
    var output: seq<File>
    var active: set<ObjectId>
    var directoryCount: nat
    ghost var visits: nat

    /** Every cached object is the one on disk and sound, and the counters are the number
        and the total costs of the cached objects, each charged once, within the limits. */
    ghost predicate Valid()
      reads `cache, `objectCount, `compressedBytes, `expandedBytes
    {
      && (forall id :: id in cache ==> id in disk && cache[id] == disk[id] && Sound(profile, disk, id, disk[id].kind))
      && disk == DiskOf(store) && objectCount == |cache|
      && compressedBytes == Total(disk, Compressed, cache.Keys)
      && expandedBytes == Total(disk, Inflated, cache.Keys)
      && Within(profile, disk, cache.Keys)
    }

    constructor (store: Store, profile: Profile)
      ensures Valid() && disk == DiskOf(store) && this.profile == profile && cache == map[] && treeBytes == 0
    {
      this.store, this.disk, this.profile, cache := store, DiskOf(store), profile, map[];
      objectCount, compressedBytes, expandedBytes, treeBytes := 0, 0, 0, 0;
      output, active, directoryCount, visits := [], {}, 0, 0;
    }

    /** `read_object`: it succeeds exactly when the object is readable. */
    method ReadObject(id: ObjectId, kind: Kind) returns (r: Result<string, GitError>)
      requires Valid()
      modifies `cache, `objectCount, `compressedBytes, `expandedBytes
      ensures Valid()
      ensures r.Success? <==> Readable(profile, disk, old(cache).Keys, id, kind)
      ensures r.Success? ==> id in disk && disk[id].kind == kind && r.value == disk[id].payload
      ensures r.Success? ==> cache == old(cache)[id := disk[id]] && |r.value| <= PayloadLimit(profile, kind)
      ensures r.Failure? ==> r.error == Unreadable && cache == old(cache)
    {
      hide Total, Expanded, Text.Decimal, Within, Readable, Sound, DiskOf, Unframe;
      if id in cache {
        CachedReadable(profile, disk, cache.Keys, id, kind);
        if cache[id].kind != kind { return Failure(Unreadable); }
        assert cache[id := disk[id]] == cache;
        SoundIsSmall(profile, disk, id, kind);
        return Success(cache[id].payload);
      }
      ReadableWhen(profile, disk, cache.Keys, id, kind);
      if objectCount >= profile.objectLimit { return Failure(Unreadable); }
      var payloadLimit := PayloadLimit(profile, kind);
      var compressedLimit := Min(profile.objectBytesLimit - compressedBytes, payloadLimit + 64 * 1024);
      if compressedLimit < 1 || id !in store.files {
        FileOf(store, id);
        return Failure(Unreadable);
      }
      FileHolds(store, id);
      var compressed := store.files[id];
      if !(1 <= |compressed| <= compressedLimit) { return Failure(Unreadable); }
      var expandedLimit := Min(profile.objectBytesLimit - expandedBytes, payloadLimit + 128);
      if expandedLimit < 1 { return Failure(Unreadable); }
      var expanded := store.inflate(compressed);
      if expanded.None? || |expanded.value| > expandedLimit { return Failure(Unreadable); }
      var framed := Unframe(expanded.value);
      if framed.None? || store.identity(expanded.value) != id { return Failure(Unreadable); }
      var payload := framed.value.1;
      if framed.value.0 != kind || |Text.Decimal(|payload|)| > 20 { return Failure(Unreadable); }
      if |payload| > payloadLimit { return Failure(Unreadable); }
      Keep(id, StoredObject(kind, payload, |compressed|), |expanded.value|);
      return Success(payload);
    }


    /** Charge a new object and cache it. */
    method Keep(id: ObjectId, stored: StoredObject, expanded: nat)
      requires Valid() && id !in cache && id in disk && stored == disk[id] && expanded == Expanded(stored)
      requires Readable(profile, disk, cache.Keys, id, stored.kind)
      modifies `cache, `objectCount, `compressedBytes, `expandedBytes
      ensures Valid() && cache == old(cache)[id := disk[id]]
    {
      hide Total, Expanded, Text.Decimal, Within, Readable, Sound, DiskOf;
      ReadableWhen(profile, disk, cache.Keys, id, disk[id].kind);
      Afford(profile, disk, cache.Keys, id);
      assert cache[id := disk[id]].Keys == cache.Keys + {id};
      objectCount := objectCount + 1;
      compressedBytes := compressedBytes + stored.compressed;
      expandedBytes := expandedBytes + expanded;
      cache := cache[id := stored];
    }

    /** `parse_tree`: read, charge the bytes, decode. */
    method ParseTreeObject(id: ObjectId) returns (r: Result<seq<Entry>, GitError>)
      requires Valid()
      modifies `cache, `objectCount, `compressedBytes, `expandedBytes, `treeBytes
      ensures Valid()
      ensures r.Success? ==>
        && IsTree(disk, id) && r.value == Entries(disk, id)
        && treeBytes == old(treeBytes) + |disk[id].payload| <= profile.sourceIndexLimit
      ensures r.Failure? && r.error != Unreadable ==>
        !IsTree(disk, id) || old(treeBytes) + |disk[id].payload| > profile.sourceIndexLimit
      ensures r.Failure? ==> !r.error.Cycle? && !r.error.TooManyDirectories?
      ensures Walked(r.Success?, r.Failure? && r.error == Unreadable, old(cache).Keys, iset{(id, Tree)})
      ensures treeBytes <= TreeBound(old(treeBytes), r.Failure? && r.error == TreeBytes)
    {
      hide Valid, Readable;
      ReadOne(profile, disk, cache.Keys, id, Tree);
      var read := ReadObject(id, Tree);
      if read.Failure? { return Failure(read.error); }
      assert cache.Keys == old(cache).Keys + {id};
      ReadLess(profile, disk, old(cache).Keys, cache.Keys, iset{(id, Tree)});
      treeBytes := treeBytes + |read.value|;
      if treeBytes > profile.sourceIndexLimit { return Failure(TreeBytes); }
      var parsed := ParseTree(read.value);
      if parsed.Failure? { return Failure(BadTree(parsed.error)); }
      return Success(parsed.value);
    }

    /** What a step has read, if the cache was `before`. */
    ghost predicate Walked(complete: bool, unreadable: bool, before: set<ObjectId>, met: Reads)
      reads `cache
    {
      Reading(profile, disk, before, cache.Keys, met, complete, unreadable)
    }

    /** The tree bytes charged are within the limit, save for the tree that breaks it. */
    function TreeBound(before: nat, broken: bool): nat {
      (if before > profile.sourceIndexLimit then before else profile.sourceIndexLimit)
      + if broken then profile.sourceIndexLimit else 0
    }

    /** The counts in every outcome, also of a failing run. */
    ghost predicate Bounded(r: Result<(), GitError>, before: nat)
      reads `output, `directoryCount, `treeBytes
    {
      && |output| <= profile.sourceFileLimit
      && directoryCount <= MAX_SOURCE_DIRECTORIES + (if r.Failure? && r.error.TooManyDirectories? then 1 else 0)
      && treeBytes <= TreeBound(before, r.Failure? && r.error.TreeBytes?)
    }

    ghost function Blocked(r: Result<(), GitError>): bool { r.Failure? && r.error == Unreadable }

    function Levels(depth: nat): nat
      requires depth <= profile.treeDepthLimit + 1
    {
      profile.treeDepthLimit + 1 - depth
    }

    /** What the walk has spent so far. */
    ghost function Spent(): Unfolding
      reads `output, `directoryCount, `treeBytes
    {
      Unfolding(output, directoryCount, treeBytes)
    }

    /** How a step of the walk that adds `u` may end. Unless some object cannot be read it
        succeeds exactly when `u` exists and the totals stay in budget, and a cycle is
        reported only when there is one. `Walked` says what was read. */
    ghost predicate Outcome(r: Result<(), GitError>, spent: Unfolding, u: Option<Unfolding>)
      reads `output, `directoryCount, `treeBytes
    {
      && (r.Success? ==> Combine(spent, u) == Some(Spent()) && InBudget(profile, Spent()))
      && (r.Failure? && r.error != Unreadable ==> !Admits(profile, Combine(spent, u)))
      && (r.Failure? && r.error.Cycle? ==> exists x :: Below(disk, x, x))
    }

    /** Each call of the visitor but the first is paid for by a directory entry. */
    ghost predicate Counted()
      reads `visits, `directoryCount
    {
      visits <= directoryCount + 1 && visits <= MAX_SOURCE_DIRECTORIES + 1
    }

    /** The nested visitor. */
    method Visit(id: ObjectId, prefix: string, depth: nat) returns (r: Result<(), GitError>)
      requires Valid() && |output| <= profile.sourceFileLimit && directoryCount <= MAX_SOURCE_DIRECTORIES
      requires depth <= profile.treeDepthLimit + 1
      requires forall a :: a in active ==> Below(disk, a, id)
      requires visits <= directoryCount
      modifies this
      ensures Valid() && active == old(active) && Counted()
      ensures Outcome(r, old(Spent()), Unfold(disk, id, prefix, Levels(depth)))
      ensures Walked(r.Success?, Blocked(r), old(cache).Keys, ReadsOf(disk, id)) && Bounded(r, old(treeBytes))
      decreases profile.treeDepthLimit + 1 - depth, 3
    {
      hide Valid, Below, Unfold, UnfoldAll, IsTree, Entries, Combine, Reading, ReadsOf, ReadsAmong;
      visits := visits + 1;
      TreeCharge(profile, disk, id, prefix, Levels(depth), Spent());
      ReadNothing(profile, disk, cache.Keys, ReadsOf(disk, id));
      if depth > profile.treeDepthLimit { return Failure(Depth); }
      if id in active {
        CycleHasNoUnfolding(disk, id, Levels(depth));
        NoneCombines(disk, id, prefix, Levels(depth), Spent());
        return Failure(Cycle);
      }
      active := active + {id};
      r := VisitContents(id, prefix, depth);
      active := active - {id};
    }

    /** The tree object and its entries, while the tree is active. */
    method VisitContents(id: ObjectId, prefix: string, depth: nat) returns (r: Result<(), GitError>)
      requires Valid() && |output| <= profile.sourceFileLimit && directoryCount <= MAX_SOURCE_DIRECTORIES
      requires depth <= profile.treeDepthLimit && id in active
      requires forall a :: a in active - {id} ==> Below(disk, a, id)
      requires Counted()
      modifies this
      ensures Valid() && active == old(active) && Counted()
      ensures Outcome(r, old(Spent()), Unfold(disk, id, prefix, Levels(depth)))
      ensures Walked(r.Success?, Blocked(r), old(cache).Keys, ReadsOf(disk, id)) && Bounded(r, old(treeBytes))
      decreases profile.treeDepthLimit + 1 - depth, 2
    {
      hide Valid, Below, Unfold, UnfoldAll, IsTree, Entries, Combine, Reading, ReadsOf, ReadsAmong;
      TreeCharge(profile, disk, id, prefix, Levels(depth), Spent());
      TreeIsRead(disk, id);
      var parsed := ParseTreeObject(id);
      if parsed.Failure? {
        ReadMore(profile, disk, old(cache).Keys, cache.Keys, iset{(id, Tree)}, ReadsOf(disk, id),
                 parsed.error == Unreadable);
        return Failure(parsed.error);
      }
      ghost var middle := cache.Keys;
      r := VisitEntries(id, parsed.value, prefix, depth);
      ReadsOfTree(disk, id);
      ReadOn(profile, disk, old(cache).Keys, middle, cache.Keys, iset{(id, Tree)}, ReadsAmong(disk, parsed.value),
             r.Success?, Blocked(r));
    }

    /** The visitor's loop over the entries of tree `id`. */
    method VisitEntries(id: ObjectId, es: seq<Entry>, prefix: string, depth: nat) returns (r: Result<(), GitError>)
      requires Valid() && InBudget(profile, Spent())
      requires depth <= profile.treeDepthLimit
      requires IsTree(disk, id) && es == Entries(disk, id) && id in active
      requires forall a :: a in active - {id} ==> Below(disk, a, id)
      requires Counted()
      modifies this
      ensures Valid() && active == old(active) && Counted()
      ensures Outcome(r, old(Spent()), UnfoldAll(disk, es, prefix, Levels(depth + 1)))
      ensures Walked(r.Success?, Blocked(r), old(cache).Keys, ReadsAmong(disk, es)) && Bounded(r, old(treeBytes))
      decreases profile.treeDepthLimit + 1 - depth, 1
    {
      hide Valid, Below, UnfoldAll, UnfoldOne, IsTree, Entries, Combine, InBudget, Reading, ReadsAmong, ReadsFrom;
      var i := 0;
      ReadNothing(profile, disk, cache.Keys, iset{});
      assert es[..0] == [];
      BudgetBounds(profile, Spent());
      ghost var levels := Levels(depth + 1);
      ghost var whole := Combine(Spent(), UnfoldAll(disk, es, prefix, levels));
      WalkStart(disk, es, prefix, levels);
      while i < |es|
        invariant 0 <= i <= |es|
        invariant Valid() && active == old(active) && Counted()
        invariant InBudget(profile, Spent())
        invariant whole == Combine(Spent(), UnfoldAll(disk, es[i..], prefix, levels))
        invariant Walked(true, false, old(cache).Keys, ReadsAmong(disk, es[..i]))
      {
        NextEntry(profile, disk, es, i, prefix, levels, Spent());
        ActiveBelow(disk, id, active, es[i]);
        ReadsNext(disk, es, i);
        BudgetBounds(profile, Spent());
        ghost var middle := cache.Keys;
        r := VisitEntry(es[i], prefix, depth);
        ReadOn(profile, disk, old(cache).Keys, middle, cache.Keys, ReadsAmong(disk, es[..i]), ReadsFrom(disk, es[i]),
               r.Success?, Blocked(r));
        if r.Failure? {
          ReadMore(profile, disk, old(cache).Keys, cache.Keys, ReadsAmong(disk, es[..i + 1]), ReadsAmong(disk, es),
              Blocked(r));
          return;
        }
        i := i + 1;
      }
      assert es[..i] == es;
      BudgetBounds(profile, Spent());
      WalkEnd(disk, es, prefix, levels, Spent());
      return Success(());
    }

    /** The body of the visitor's loop. */
    method VisitEntry(entry: Entry, prefix: string, depth: nat) returns (r: Result<(), GitError>)
      requires Valid() && InBudget(profile, Spent())
      requires depth <= profile.treeDepthLimit
      requires entry.mode.Directory? ==> forall a :: a in active ==> Below(disk, a, entry.id)
      requires Counted()
      modifies this
      ensures Valid() && active == old(active) && Counted()
      ensures Outcome(r, old(Spent()), UnfoldOne(disk, entry, prefix, Levels(depth + 1)))
      ensures Walked(r.Success?, Blocked(r), old(cache).Keys, ReadsFrom(disk, entry)) && Bounded(r, old(treeBytes))
      decreases profile.treeDepthLimit + 1 - depth, 0
    {
      hide Valid, Below, Unfold, Reading, Readable, ReadsFrom, ReadsOf;
      ReadNothing(profile, disk, cache.Keys, ReadsFrom(disk, entry));
      ReadsFromIs(disk, entry);
      var path := Join(prefix, entry.name);
      if |path| > MAX_PATH { return Failure(LongPath); }
      if entry.mode.Directory? {
        DirectoryCharge(profile, disk, entry, prefix, Levels(depth + 1), Spent());
        directoryCount := directoryCount + 1;
        if directoryCount > MAX_SOURCE_DIRECTORIES { return Failure(TooManyDirectories); }
        r := Visit(entry.id, path, depth + 1);
      } else {
        if |output| >= profile.sourceFileLimit { return Failure(TooManyFiles); }
        ReadOne(profile, disk, cache.Keys, entry.id, Blob);
        var blob := ReadObject(entry.id, Blob);
        if blob.Failure? { return Failure(blob.error); }
        assert cache.Keys == old(cache).Keys + {entry.id};
        output := output + [File(path, entry.mode, entry.id, blob.value)];
        return Success(());
      }
    }

    /** `export_tree`. It succeeds exactly when the unfolding exists, is in budget and has a
        file, and the objects met are sound and affordable beside those cached before. The
        result is the strictly increasing list of exactly the files of the closure, which
        is acyclic. In every outcome, on every store, the counts stay within the limits. */
    method ExportTree(root: ObjectId) returns (r: Result<seq<File>, GitError>)
      requires Valid()
      modifies this
      ensures Valid() && visits <= 1 + MAX_SOURCE_DIRECTORIES
      ensures |output| <= profile.sourceFileLimit
      ensures directoryCount <= MAX_SOURCE_DIRECTORIES + (if r.Failure? && r.error.TooManyDirectories? then 1 else 0)
      ensures treeBytes <= TreeBound(old(treeBytes), r.Failure? && r.error.TreeBytes?)
      ensures r.Success? ==>
        && r.value != [] && Increasing(r.value)
        && (forall f :: f in r.value <==> InClosure(disk, root, "", f))
        && (forall b :: root == b || Below(disk, root, b) ==> !Below(disk, b, b))
        && |r.value| <= profile.sourceFileLimit
        && treeBytes <= profile.sourceIndexLimit
        && cache.Keys == old(cache).Keys + MetObjects(disk, root)
      ensures
        var whole := Combine(Unfolding([], 0, old(treeBytes)), Unfold(disk, root, "", profile.treeDepthLimit + 1));
        && (r.Success? <==>
             Admits(profile, whole) && whole.value.files != [] && Affordable(profile, disk, old(cache).Keys, root))
        && (r.Success? ==> r.value == whole.value.files)
        && (r.Failure? && r.error != Unreadable ==> !Admits(profile, whole) || whole.value.files == [])
      ensures r.Failure? && r.error == Unreadable ==> !Affordable(profile, disk, old(cache).Keys, root)
      ensures r.Failure? && r.error.Cycle? ==> exists x :: Below(disk, x, x)
    {
      hide Valid, Below, Unfold, Increasing, InClosure, SortByPath, Affordable, Reading, MetObjects, ReadsOf, Combine;
      output, active, directoryCount, visits := [], {}, 0, 0;
      var done := Visit(root, "", 0);
      assert Valid();
      if done.Failure? {
        if done.error == Unreadable {
          CacheOnDisk();
          UnreadableIsLack(profile, disk, old(cache).Keys, cache.Keys, root);
        }
        return Failure(done.error);
      }
      CacheOnDisk();
      CompleteIsAffordable(profile, disk, old(cache).Keys, cache.Keys, root);
      UnfoldingMeans(disk, root, profile.treeDepthLimit + 1, old(treeBytes), output);
      var sorted := SortByPath(output);
      if sorted == [] || |set f | f in sorted :: f.path| != |sorted| {
        return Failure(EmptyOrDuplicate);
      }
      return Success(sorted);
    }

    lemma CacheOnDisk()
      requires Valid()
      ensures Within(profile, disk, cache.Keys)
      ensures forall id :: id in cache.Keys ==> id in disk && Sound(profile, disk, id, disk[id].kind)
    {
      hide Sound, Within;
    }
  }
}
