/** Which objects an export reads, and when the limits of the object store suffice. */
module GitReads {
  import opened GitTree
  import opened GitClosure
  import Text

  datatype Profile = Profile(
    objectLimit: nat, objectBytesLimit: nat, sourceByteLimit: nat,
    sourceIndexLimit: nat, sourceFileLimit: nat, treeDepthLimit: nat)

  const MAX_FILE_BYTES := 1024 * 1024

  // ---------- the cost of an object ----------

  function KindName(kind: Kind): string {
    match kind case Blob => "blob" case Tree => "tree" case Commit => "commit"
  }

  /** The size of an inflated object: kind, blank, decimal size, zero byte, payload. */
  function Expanded(o: StoredObject): nat {
    |KindName(o.kind)| + 1 + |Text.Decimal(|o.payload|)| + 1 + |o.payload|
  }

  function PayloadLimit(p: Profile, kind: Kind): nat {
    match kind
    case Blob => p.sourceByteLimit
    case Tree => p.sourceIndexLimit
    case Commit => MAX_FILE_BYTES
  }

  /** The object is on disk with this kind and within the limits of a single object. */
  predicate Sound(p: Profile, disk: Disk, id: ObjectId, kind: Kind) {
    && id in disk && disk[id].kind == kind
    && 1 <= disk[id].compressed <= PayloadLimit(p, kind) + 64 * 1024
    && Expanded(disk[id]) <= PayloadLimit(p, kind) + 128
    && |Text.Decimal(|disk[id].payload|)| <= 20
    && |disk[id].payload| <= PayloadLimit(p, kind)
  }

  datatype Measure = Compressed | Inflated

  function Cost(disk: Disk, m: Measure, id: ObjectId): nat {
    if id !in disk then 0 else if m.Compressed? then disk[id].compressed else Expanded(disk[id])
  }

  /** The cost of a set of objects, each counted once. */
  ghost function Total(disk: Disk, m: Measure, ids: set<ObjectId>): nat {
    if ids == {} then 0 else var id :| id in ids; Cost(disk, m, id) + Total(disk, m, ids - {id})
  }

  lemma {:induction false} TotalTakes(disk: Disk, m: Measure, ids: set<ObjectId>, id: ObjectId)
    requires id in ids
    ensures Total(disk, m, ids) == Cost(disk, m, id) + Total(disk, m, ids - {id})
    decreases |ids|
  {
    hide Cost;
    var first :| first in ids && Total(disk, m, ids) == Cost(disk, m, first) + Total(disk, m, ids - {first});
    if first != id {
      TotalTakes(disk, m, ids - {first}, id);
      TotalTakes(disk, m, ids - {id}, first);
      assert ids - {first} - {id} == ids - {id} - {first};
    }
  }

  lemma TotalAdds(disk: Disk, m: Measure, ids: set<ObjectId>, id: ObjectId)
    requires id !in ids
    ensures Total(disk, m, ids + {id}) == Total(disk, m, ids) + Cost(disk, m, id)
  {
    TotalTakes(disk, m, ids + {id}, id);
    assert ids + {id} - {id} == ids;
  }

  lemma {:induction false} TotalGrows(disk: Disk, m: Measure, few: set<ObjectId>, many: set<ObjectId>)
    requires few <= many
    ensures Total(disk, m, few) <= Total(disk, m, many) && |few| <= |many|
    decreases |many|
  {
    var rest := many - few;
    if rest == {} {
      assert few == many;
    } else {
      var id :| id in rest;
      TotalTakes(disk, m, many, id);
      TotalGrows(disk, m, few, many - {id});
    }
  }

  /** A set of cached objects is within the limits of the whole store. */
  ghost predicate Within(p: Profile, disk: Disk, ids: set<ObjectId>) {
    && |ids| <= p.objectLimit
    && Total(disk, Compressed, ids) <= p.objectBytesLimit
    && Total(disk, Inflated, ids) <= p.objectBytesLimit
  }

  lemma WithinFewer(p: Profile, disk: Disk, few: set<ObjectId>, many: set<ObjectId>)
    requires few <= many && Within(p, disk, many)
    ensures Within(p, disk, few)
  {
    TotalGrows(disk, Compressed, few, many);
    TotalGrows(disk, Inflated, few, many);
  }

  /** The object can be read now: it is cached with this kind, or sound and affordable. */
  ghost predicate Readable(p: Profile, disk: Disk, cached: set<ObjectId>, id: ObjectId, kind: Kind) {
    if id in cached then id in disk && disk[id].kind == kind
    else Sound(p, disk, id, kind) && Within(p, disk, cached + {id})
  }

  /** One more object is within the limits exactly when each counter has room for it. */
  lemma Afford(p: Profile, disk: Disk, cached: set<ObjectId>, id: ObjectId)
    requires id !in cached
    ensures |cached + {id}| == |cached| + 1
    ensures Total(disk, Compressed, cached + {id}) == Total(disk, Compressed, cached) + Cost(disk, Compressed, id)
    ensures Total(disk, Inflated, cached + {id}) == Total(disk, Inflated, cached) + Cost(disk, Inflated, id)
  {
    TotalAdds(disk, Compressed, cached, id);
    TotalAdds(disk, Inflated, cached, id);
  }

  lemma CachedReadable(p: Profile, disk: Disk, cached: set<ObjectId>, id: ObjectId, kind: Kind)
    requires id in cached
    ensures Readable(p, disk, cached, id, kind) <==> id in disk && disk[id].kind == kind
  {
  }

  /** The checks of the program, in its order, decide whether an object is readable. */
  lemma ReadableWhen(p: Profile, disk: Disk, cached: set<ObjectId>, id: ObjectId, kind: Kind)
    requires id !in cached
    ensures Readable(p, disk, cached, id, kind) <==>
      && |cached| < p.objectLimit && id in disk && disk[id].kind == kind
      && 1 <= disk[id].compressed <= PayloadLimit(p, kind) + 64 * 1024
      && Total(disk, Compressed, cached) + disk[id].compressed <= p.objectBytesLimit
      && 1 <= Expanded(disk[id]) <= PayloadLimit(p, kind) + 128
      && Total(disk, Inflated, cached) + Expanded(disk[id]) <= p.objectBytesLimit
      && |Text.Decimal(|disk[id].payload|)| <= 20 && |disk[id].payload| <= PayloadLimit(p, kind)
    ensures Readable(p, disk, cached, id, kind) ==> Sound(p, disk, id, kind) && Within(p, disk, cached + {id})
    ensures id in disk ==> Expanded(disk[id]) >= 1
    ensures Cost(disk, Compressed, id) == if id in disk then disk[id].compressed else 0
    ensures Cost(disk, Inflated, id) == if id in disk then Expanded(disk[id]) else 0
  {
    Afford(p, disk, cached, id);
    hide Total, Text.Decimal;
  }

  lemma SoundIsSmall(p: Profile, disk: Disk, id: ObjectId, kind: Kind)
    requires Sound(p, disk, id, kind)
    ensures |disk[id].payload| <= PayloadLimit(p, kind)
  {
  }

  // ---------- the objects met below a tree ----------

  /** Tree `t` is `a` or is met below it. */
  ghost predicate AtOrBelow(disk: Disk, a: ObjectId, t: ObjectId) { a == t || Below(disk, a, t) }

  /** A tree at or below `a`, or a file entry of one. */
  ghost predicate Meets(disk: Disk, a: ObjectId, id: ObjectId, kind: Kind) {
    || (kind == Tree && AtOrBelow(disk, a, id))
    || (kind == Blob && exists t :: AtOrBelow(disk, a, t) && HasFile(disk, t, id))
  }

  ghost predicate HasFile(disk: Disk, t: ObjectId, id: ObjectId) {
    IsTree(disk, t) && exists e :: e in Entries(disk, t) && !e.mode.Directory? && e.id == id
  }

  ghost predicate MeetsFrom(disk: Disk, e: Entry, id: ObjectId, kind: Kind) {
    if e.mode.Directory? then Meets(disk, e.id, id, kind) else kind == Blob && e.id == id
  }

  ghost predicate MeetsAmong(disk: Disk, es: seq<Entry>, id: ObjectId, kind: Kind) {
    exists e :: e in es && MeetsFrom(disk, e, id, kind)
  }

  lemma BelowCases(disk: Disk, a: ObjectId, b: ObjectId)
    requires Below(disk, a, b)
    ensures exists c :: Edge(disk, a, c) && AtOrBelow(disk, c, b)
  {
    var p :| Links(disk, p, a, b);
    assert Edge(disk, p[0], p[1]);
    if |p| > 2 {
      ChainTail(disk, p);
      assert Links(disk, p[1..], p[1], b);
    }
  }

  lemma BelowThrough(disk: Disk, a: ObjectId, c: ObjectId, b: ObjectId)
    requires Edge(disk, a, c) && AtOrBelow(disk, c, b)
    ensures Below(disk, a, b)
  {
    if c == b {
      assert Links(disk, [a, c], a, c);
    } else {
      var p :| Links(disk, p, c, b);
      var q := [a] + p;
      forall i | 0 < i < |q| ensures Edge(disk, q[i - 1], q[i]) {
        assert i > 1 ==> q[i - 1] == p[i - 2] && q[i] == p[i - 1];
      }
      assert Links(disk, q, a, b);
    }
  }

  /** What is met below an entry is met below its tree. */
  lemma MeetsUp(disk: Disk, a: ObjectId, e: Entry, id: ObjectId, kind: Kind)
    requires IsTree(disk, a) && e in Entries(disk, a) && MeetsFrom(disk, e, id, kind)
    ensures Meets(disk, a, id, kind)
  {
    hide Below, IsTree, Entries;
    if e.mode.Directory? {
      assert Edge(disk, a, e.id);
      if kind == Tree {
        BelowThrough(disk, a, e.id, id);
      } else {
        var t :| AtOrBelow(disk, e.id, t) && HasFile(disk, t, id);
        BelowThrough(disk, a, e.id, t);
        assert AtOrBelow(disk, a, t);
      }
    } else {
      assert HasFile(disk, a, id) && AtOrBelow(disk, a, a);
    }
  }

  /** What a tree meets is itself and what its entries meet. */
  lemma MeetsDown(disk: Disk, a: ObjectId, id: ObjectId, kind: Kind)
    requires IsTree(disk, a) && Meets(disk, a, id, kind)
    ensures (id == a && kind == Tree) || MeetsAmong(disk, Entries(disk, a), id, kind)
  {
    hide Below, IsTree, Entries;
    if kind == Tree {
      if id != a {
        BelowCases(disk, a, id);
        var c :| Edge(disk, a, c) && AtOrBelow(disk, c, id);
        var e :| e in Entries(disk, a) && e.mode.Directory? && e.id == c;
        assert MeetsFrom(disk, e, id, kind);
      }
    } else {
      var t :| AtOrBelow(disk, a, t) && HasFile(disk, t, id);
      if t == a {
        var e :| e in Entries(disk, a) && !e.mode.Directory? && e.id == id;
        assert MeetsFrom(disk, e, id, kind);
      } else {
        BelowCases(disk, a, t);
        var c :| Edge(disk, a, c) && AtOrBelow(disk, c, t);
        var e :| e in Entries(disk, a) && e.mode.Directory? && e.id == c;
        assert Meets(disk, c, id, kind);
        assert MeetsFrom(disk, e, id, kind);
      }
    }
  }

  // ---------- what a part of a walk has read ----------

  /** The objects that a part of a walk may read. */
  type Reads = iset<(ObjectId, Kind)>

  ghost function ReadsOf(disk: Disk, a: ObjectId): Reads {
    iset id, kind | Meets(disk, a, id, kind) :: (id, kind)
  }

  ghost function ReadsFrom(disk: Disk, e: Entry): Reads {
    iset id, kind | MeetsFrom(disk, e, id, kind) :: (id, kind)
  }

  ghost function ReadsAmong(disk: Disk, es: seq<Entry>): Reads {
    iset id, kind | MeetsAmong(disk, es, id, kind) :: (id, kind)
  }

  /** How the cache may have grown: only by what was met; after a success by all of it;
      after a failed read something met cannot be read. */
  ghost predicate Reading(p: Profile, disk: Disk, before: set<ObjectId>, after: set<ObjectId>, met: Reads,
                          complete: bool, unreadable: bool) {
    && before <= after
    && (forall id :: id in after && id !in before ==> exists kind :: (id, kind) in met)
    && (complete ==> forall id, kind :: (id, kind) in met ==> id in after && id in disk && disk[id].kind == kind)
    && (unreadable ==> exists id, kind :: (id, kind) in met && !Readable(p, disk, after, id, kind))
  }

  lemma ReadNothing(p: Profile, disk: Disk, cached: set<ObjectId>, met: Reads)
    ensures Reading(p, disk, cached, cached, met, false, false)
    ensures Reading(p, disk, cached, cached, ReadsAmong(disk, []), true, false)
  {
  }

  /** One object: read, or not readable. */
  lemma ReadOne(p: Profile, disk: Disk, cached: set<ObjectId>, id: ObjectId, kind: Kind)
    ensures Readable(p, disk, cached, id, kind) ==>
            Reading(p, disk, cached, cached + {id}, iset{(id, kind)}, true, false)
    ensures !Readable(p, disk, cached, id, kind) ==> Reading(p, disk, cached, cached, iset{(id, kind)}, false, true)
  {
    hide Within;
    assert (id, kind) in iset{(id, kind)};
  }

  /** A finished part is also an unfinished one. */
  lemma ReadLess(p: Profile, disk: Disk, before: set<ObjectId>, after: set<ObjectId>, met: Reads)
    requires Reading(p, disk, before, after, met, true, false)
    ensures Reading(p, disk, before, after, met, false, false)
  {
  }

  /** What happened in a part happened in the whole. */
  lemma ReadMore(p: Profile, disk: Disk, before: set<ObjectId>, after: set<ObjectId>, part: Reads, whole: Reads,
                 unreadable: bool)
    requires Reading(p, disk, before, after, part, false, unreadable) && part <= whole
    ensures Reading(p, disk, before, after, whole, false, unreadable)
  {
    hide Readable;
  }

  /** A finished part, and then another. */
  lemma ReadOn(p: Profile, disk: Disk, a: set<ObjectId>, b: set<ObjectId>, c: set<ObjectId>,
               first: Reads, second: Reads, complete: bool, unreadable: bool)
    requires Reading(p, disk, a, b, first, true, false) && Reading(p, disk, b, c, second, complete, unreadable)
    ensures Reading(p, disk, a, c, first + second, complete, unreadable)
  {
    hide Readable;
  }

  lemma ReadsOfTree(disk: Disk, a: ObjectId)
    requires IsTree(disk, a)
    ensures ReadsOf(disk, a) == iset{(a, Tree)} + ReadsAmong(disk, Entries(disk, a))
  {
    hide Meets, MeetsFrom, IsTree, Entries;
    forall id, kind | Meets(disk, a, id, kind) ensures (id, kind) in iset{(a, Tree)} + ReadsAmong(disk,
        Entries(disk, a)) {
      MeetsDown(disk, a, id, kind);
    }
    forall id, kind | MeetsAmong(disk, Entries(disk, a), id, kind) ensures Meets(disk, a, id, kind) {
      var e :| e in Entries(disk, a) && MeetsFrom(disk, e, id, kind);
      MeetsUp(disk, a, e, id, kind);
    }
    MeetsItself(disk, a);
  }

  lemma TreeIsRead(disk: Disk, a: ObjectId)
    ensures iset{(a, Tree)} <= ReadsOf(disk, a)
  {
    hide Meets;
    MeetsItself(disk, a);
  }

  lemma ReadsFromIs(disk: Disk, e: Entry)
    ensures ReadsFrom(disk, e) == if e.mode.Directory? then ReadsOf(disk, e.id) else iset{(e.id, Blob)}
  {
    hide Meets;
  }

  lemma MeetsItself(disk: Disk, a: ObjectId)
    ensures Meets(disk, a, a, Tree)
  {
    hide Below;
  }

  lemma ReadsNext(disk: Disk, es: seq<Entry>, i: nat)
    requires i < |es|
    ensures ReadsAmong(disk, es[..i + 1]) == ReadsAmong(disk, es[..i]) + ReadsFrom(disk, es[i])
    ensures ReadsAmong(disk, es[..i + 1]) <= ReadsAmong(disk, es)
  {
    hide MeetsFrom;
    assert es[..i + 1] == es[..i] + [es[i]];
    assert forall e :: e in es[..i + 1] ==> e in es;
  }

  // ---------- when the limits suffice ----------

  /** The objects on disk that an export of `root` meets. */
  ghost function MetObjects(disk: Disk, root: ObjectId): set<ObjectId> {
    set id | id in disk && MeetsSomehow(disk, root, id)
  }

  ghost predicate MeetsSomehow(disk: Disk, root: ObjectId, id: ObjectId) {
    exists kind :: Meets(disk, root, id, kind)
  }

  /** Every object met is sound, and all of them with those cached are within the limits. */
  ghost predicate Affordable(p: Profile, disk: Disk, cached: set<ObjectId>, root: ObjectId) {
    && (forall id, kind :: Meets(disk, root, id, kind) ==> Sound(p, disk, id, kind))
    && Within(p, disk, cached + MetObjects(disk, root))
  }

  /** A failed read is a true lack. */
  lemma UnreadableIsLack(p: Profile, disk: Disk, before: set<ObjectId>, after: set<ObjectId>, root: ObjectId)
    requires Reading(p, disk, before, after, ReadsOf(disk, root), false, true)
    requires forall id :: id in after ==> id in disk
    ensures !Affordable(p, disk, before, root)
  {
    hide Meets, Sound;
    if Affordable(p, disk, before, root) {
      var id, kind :| (id, kind) in ReadsOf(disk, root) && !Readable(p, disk, after, id, kind);
      assert Meets(disk, root, id, kind);
      SoundIsThere(p, disk, id, kind);
      forall x | x in after + {id} ensures x in before + MetObjects(disk, root) {
        if x in after && x !in before {
          var k :| (x, k) in ReadsOf(disk, root);
          assert MeetsSomehow(disk, root, x);
        } else if x !in before {
          assert MeetsSomehow(disk, root, x);
        }
      }
      WithinFewer(p, disk, after + {id}, before + MetObjects(disk, root));
    }
  }

  lemma SoundIsThere(p: Profile, disk: Disk, id: ObjectId, kind: Kind)
    requires Sound(p, disk, id, kind)
    ensures id in disk && disk[id].kind == kind
  {
  }

  /** After a complete walk the cache is what was there and what was met. */
  lemma CompleteIsAffordable(p: Profile, disk: Disk, before: set<ObjectId>, after: set<ObjectId>, root: ObjectId)
    requires Reading(p, disk, before, after, ReadsOf(disk, root), true, false)
    requires Within(p, disk, after) && forall id :: id in after ==> id in disk && Sound(p, disk, id, disk[id].kind)
    ensures Affordable(p, disk, before, root) && after == before + MetObjects(disk, root)
  {
    hide Meets, Sound, Within;
    forall id, kind | Meets(disk, root, id, kind) ensures Sound(p, disk, id, kind) && id in after {
      assert (id, kind) in ReadsOf(disk, root);
    }
    forall x | x in after ensures x in before + MetObjects(disk, root) {
      if x !in before {
        var k :| (x, k) in ReadsOf(disk, root);
        assert MeetsSomehow(disk, root, x);
      }
    }
    assert after == before + MetObjects(disk, root);
  }
}
