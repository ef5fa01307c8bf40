/** The walk over a commit's ancestry. A commit maps to its parsed headers; an id that
    is not in the map is one whose object cannot be read or parsed. */
module GitCommits {
  import opened GitTree
  import opened Wrappers

  datatype Headers = Headers(tree: ObjectId, parents: seq<ObjectId>)

  type Commits = map<ObjectId, Headers>

  datatype AncestryError = TooDeep | Cyclic | TooMany | Unparsable

  ghost predicate Parent(commits: Commits, child: ObjectId, parent: ObjectId) {
    child in commits && parent in commits[child].parents
  }

  /** `p` follows parent edges from `a` to `b`; it has `|p| - 1` of them. */
  ghost predicate Path(commits: Commits, p: seq<ObjectId>, a: ObjectId, b: ObjectId) {
    && |p| > 0 && p[0] == a && p[|p| - 1] == b
    && forall i, j :: 0 <= i < j < |p| && j == i + 1 ==> Parent(commits, p[i], p[j])
  }

  ghost predicate Ancestor(commits: Commits, a: ObjectId, b: ObjectId) {
    exists p :: Path(commits, p, a, b)
  }

  /** A path of at least one edge from a commit back to itself. */
  ghost predicate OnCycle(commits: Commits, a: ObjectId) {
    exists p :: |p| > 1 && Path(commits, p, a, a)
  }

  // ---------- an order in which parents come first ----------

  ghost predicate ParentsFirst(commits: Commits, order: seq<ObjectId>) {
    && (forall i, j :: 0 <= i < j < |order| ==> order[i] != order[j])
    && (forall i :: 0 <= i < |order| ==> order[i] in commits)
    && (forall i, q :: 0 <= i < |order| && q in commits[order[i]].parents ==> Before(order, i, q))
  }

  ghost predicate Before(order: seq<ObjectId>, i: nat, q: ObjectId)
    requires i <= |order|
  {
    exists k :: 0 <= k < i && order[k] == q
  }

  lemma ParentsFirstSnoc(commits: Commits, order: seq<ObjectId>, id: ObjectId)
    requires ParentsFirst(commits, order) && id !in order && id in commits
    requires forall q :: q in commits[id].parents ==> q in order
    ensures ParentsFirst(commits, order + [id])
  {
    var longer := order + [id];
    forall i, q | 0 <= i < |longer| && q in commits[longer[i]].parents ensures Before(longer, i, q) {
      if i < |order| {
        assert Before(order, i, q);
        var k :| 0 <= k < i && order[k] == q;
        assert longer[k] == q;
      } else {
        var k :| 0 <= k < |order| && order[k] == q;
        assert longer[k] == q;
      }
    }
  }

  /** From a commit in such an order every path goes strictly down in it. */
  lemma {:induction false} PathDescends(commits: Commits, order: seq<ObjectId>, p: seq<ObjectId>, a: ObjectId,
                                        b: ObjectId, i: nat) returns (j: nat)
    requires ParentsFirst(commits, order) && Path(commits, p, a, b)
    requires i < |order| && order[i] == a
    ensures j < |order| && order[j] == b && j + (|p| - 1) <= i
    decreases |p|
  {
    if |p| == 1 {
      j := i;
    } else {
      assert Parent(commits, p[0], p[1]);
      assert Before(order, i, p[1]);
      var k :| 0 <= k < i && order[k] == p[1];
      var q := p[1..];
      assert forall x :: 0 <= x < |q| ==> q[x] == p[x + 1];
      j := PathDescends(commits, order, q, p[1], b, k);
    }
  }

  lemma OrderedIsAcyclic(commits: Commits, order: seq<ObjectId>, a: ObjectId)
    requires ParentsFirst(commits, order) && a in order
    ensures !OnCycle(commits, a)
  {
    if p :| |p| > 1 && Path(commits, p, a, a) {
      var i :| 0 <= i < |order| && order[i] == a;
      var j := PathDescends(commits, order, p, a, a, i);
    }
  }

  lemma OrderedIsClosed(commits: Commits, order: seq<ObjectId>, a: ObjectId, b: ObjectId)
    requires ParentsFirst(commits, order) && a in order && Ancestor(commits, a, b)
    ensures b in order
  {
    var p :| Path(commits, p, a, b);
    var i :| 0 <= i < |order| && order[i] == a;
    var j := PathDescends(commits, order, p, a, b, i);
  }

  lemma PathSnoc(commits: Commits, p: seq<ObjectId>, a: ObjectId, b: ObjectId, c: ObjectId)
    requires Path(commits, p, a, b) && Parent(commits, b, c)
    ensures Path(commits, p + [c], a, c)
  {
  }

  lemma PathSuffix(commits: Commits, p: seq<ObjectId>, a: ObjectId, b: ObjectId, k: nat)
    requires Path(commits, p, a, b) && k < |p|
    ensures Path(commits, p[k..], p[k], b) && Path(commits, p[..k + 1], a, p[k])
  {
    var q := p[k..];
    forall i, j | 0 <= i < j < |q| && j == i + 1 ensures Parent(commits, q[i], q[j]) {
      assert q[i] == p[k + i] && q[j] == p[k + j];
    }
  }

  ghost function Elements(s: seq<ObjectId>): set<ObjectId> {
    set x | x in s
  }

  /** Why a walk from `start` may fail: a real chain, cycle, crowd or unreadable
      ancestor. */
  ghost predicate Excuse(commits: Commits, start: ObjectId, depthLimit: nat, countLimit: nat, error: AncestryError) {
    match error
    case TooDeep => exists b, p :: Path(commits, p, start, b) && |p| - 1 > depthLimit
    case Cyclic => exists b :: Ancestor(commits, start, b) && OnCycle(commits, b)
    case TooMany => exists s: set<ObjectId> :: |s| > countLimit && forall b :: b in s ==> Ancestor(commits, start, b)
    case Unparsable => exists b :: Ancestor(commits, start, b) && b !in commits
  }

  class Ancestry {
    const commits: Commits
    const start: ObjectId
    const depthLimit: nat
    const countLimit: nat
    var active: set<ObjectId>
    var visited: map<ObjectId, Headers>
    ghost var order: seq<ObjectId>  // finished commits, in the order they finished

    constructor (commits: Commits, start: ObjectId, depthLimit: nat, countLimit: nat)
      ensures this.commits == commits && this.start == start
      ensures this.depthLimit == depthLimit && this.countLimit == countLimit
      ensures Valid() && active == {} && visited == map[]
    {
      this.commits, this.start, this.depthLimit, this.countLimit := commits, start, depthLimit, countLimit;
      active, visited, order := {}, map[], [];
    }

    ghost predicate Near(v: ObjectId) {
      exists p :: Path(commits, p, start, v) && |p| - 1 <= depthLimit
    }

    /** A visited commit is either finished or still active, although it enters the
        memo before its parents are looked at. */
    ghost predicate Sound(active: set<ObjectId>, visited: map<ObjectId, Headers>, order: seq<ObjectId>) {
      && (forall v :: v in visited ==> v in commits && visited[v] == commits[v] && Near(v))
      && |visited| <= countLimit
      && ParentsFirst(commits, order)
      && visited.Keys == Elements(order) + active
      && Elements(order) !! active
    }

    ghost predicate Valid()
      reads this
    {
      Sound(active, visited, order)
    }

    lemma Close(id: ObjectId, trail: seq<ObjectId>)
      requires Path(commits, trail, start, id) && |trail| - 1 <= depthLimit
      ensures Near(id)
    {
    }

    lemma Seen(active: set<ObjectId>, visited: map<ObjectId, Headers>, order: seq<ObjectId>, id: ObjectId)
      requires Sound(active, visited, order) && id in visited && id !in active
      ensures id in order && id in commits && visited[id] == commits[id]
    {
    }

    lemma Enter(active: set<ObjectId>, visited: map<ObjectId, Headers>, order: seq<ObjectId>, id: ObjectId)
      requires Sound(active, visited, order)
      requires id !in visited && |visited| < countLimit && id in commits && Near(id)
      ensures Sound(active + {id}, visited[id := commits[id]], order)
    {
      hide Near, ParentsFirst;
      var grown := visited[id := commits[id]];
      assert grown.Keys == visited.Keys + {id};
      assert |grown| == |grown.Keys| && |visited| == |visited.Keys|;
    }

    lemma Leave(active: set<ObjectId>, visited: map<ObjectId, Headers>, order: seq<ObjectId>, id: ObjectId)
      requires Sound(active, visited, order) && id in active && id in commits
      requires forall q :: q in commits[id].parents ==> q in order
      ensures Sound(active - {id}, visited, order + [id])
    {
      hide Near, ParentsFirst;
      assert id !in order by { assert id !in Elements(order); }
      ParentsFirstSnoc(commits, order, id);
      assert Elements(order + [id]) == Elements(order) + {id};
    }

    method Visit(id: ObjectId, depth: nat, ghost trail: seq<ObjectId>) returns (r: Result<Headers, AncestryError>)
      requires Valid()
      requires Path(commits, trail, start, id) && |trail| == depth + 1
      requires active == Elements(trail[..depth])
      requires depth <= depthLimit + 1
      modifies this
      ensures active == old(active)
      ensures r.Success? ==>
        && Valid()
        && id in order && id in commits && r.value == commits[id]
        && old(order) <= order
      ensures r.Failure? ==> Excuse(commits, start, depthLimit, countLimit, r.error)
      decreases depthLimit + 1 - depth, 1
    {
      hide Path, Sound, Excuse, Near, Elements;
      if depth > depthLimit {
        DeepExcuse(id, trail);
        return Failure(TooDeep);
      }
      if id in active {
        CycleExcuse(commits, start, id, trail);
        return Failure(Cyclic);
      }
      if id in visited {
        Seen(active, visited, order, id);
        return Success(visited[id]);
      }
      if |visited| >= countLimit {
        CrowdExcuse(id, trail);
        return Failure(TooMany);
      }
      active := active + {id};
      if id !in commits {
        active := active - {id};
        LostExcuse(id, trail);
        return Failure(Unparsable);
      }
      var headers := commits[id];
      Close(id, trail);
      Enter(old(active), visited, order, id);
      visited := visited[id := headers];
      var failed := VisitParents(id, headers.parents, depth, trail);
      active := active - {id};
      if failed.Some? { return Failure(failed.value); }
      Leave(old(active) + {id}, visited, order, id);
      order := order + [id];
      return Success(headers);
    }

    /** The loop over the parents of the active commit `id`. */
    method VisitParents(id: ObjectId, parents: seq<ObjectId>, depth: nat,
                        ghost trail: seq<ObjectId>) returns (r: Option<AncestryError>)
      requires Valid() && id in commits && parents == commits[id].parents
      requires Path(commits, trail, start, id) && |trail| == depth + 1
      requires active == Elements(trail[..depth]) + {id}
      requires depth <= depthLimit
      modifies this
      ensures active == old(active)
      ensures r.None? ==> Valid() && old(order) <= order && forall q :: q in parents ==> q in order
      ensures r.Some? ==> Excuse(commits, start, depthLimit, countLimit, r.value)
      decreases depthLimit + 1 - depth, 0
    {
      hide Sound, Excuse;
      var i := 0;
      while i < |parents|
        invariant 0 <= i <= |parents|
        invariant Valid() && active == old(active) && old(order) <= order
        invariant forall k :: 0 <= k < i ==> parents[k] in order
      {
        PathSnoc(commits, trail, start, id, parents[i]);
        ghost var longer := trail + [parents[i]];
        assert longer[..depth + 1] == trail == trail[..depth] + [id];
        var inner := Visit(parents[i], depth + 1, longer);
        if inner.Failure? { return Some(inner.error); }
        i := i + 1;
      }
      return None;
    }

    lemma DeepExcuse(id: ObjectId, trail: seq<ObjectId>)
      requires Path(commits, trail, start, id) && |trail| - 1 > depthLimit
      ensures Excuse(commits, start, depthLimit, countLimit, TooDeep)
    {
    }

    lemma LostExcuse(id: ObjectId, trail: seq<ObjectId>)
      requires Path(commits, trail, start, id) && id !in commits
      ensures Excuse(commits, start, depthLimit, countLimit, Unparsable)
    {
      assert Ancestor(commits, start, id);
    }

    lemma CrowdExcuse(id: ObjectId, trail: seq<ObjectId>)
      requires Valid() && id !in visited && |visited| >= countLimit
      requires Path(commits, trail, start, id)
      ensures Excuse(commits, start, depthLimit, countLimit, TooMany)
    {
      var s := visited.Keys + {id};
      assert |visited.Keys| == |visited|;
      assert Ancestor(commits, start, id);
      assert |s| > countLimit && forall b :: b in s ==> Ancestor(commits, start, b);
    }

    /** `commit_tree`: on success the memo holds exactly the ancestors of the start;
        none of them is on a cycle, there are no more than the limit and each is
        within the depth limit of the start. On failure the graph gives the reason. */
    method CommitTree() returns (r: Result<ObjectId, AncestryError>)
      requires Valid() && active == {} && visited == map[]
      modifies this
      ensures r.Success? ==>
        && start in commits && r.value == commits[start].tree
        && (forall v :: v in visited <==> Ancestor(commits, start, v))
        && (forall v :: v in visited ==> v in commits && visited[v] == commits[v])
        && (forall v :: v in visited ==> !OnCycle(commits, v))
        && |visited| <= countLimit
        && (forall v :: v in visited ==> Near(v))
      ensures r.Failure? ==> Excuse(commits, start, depthLimit, countLimit, r.error)
    {
      var done := Visit(start, 0, [start]);
      if done.Failure? { return Failure(done.error); }
      forall v | Ancestor(commits, start, v) ensures v in visited {
        OrderedIsClosed(commits, order, start, v);
      }
      forall v | v in visited ensures Ancestor(commits, start, v) && !OnCycle(commits, v) {
        assert Near(v);
        assert v in order;
        OrderedIsAcyclic(commits, order, v);
      }
      return Success(done.value.tree);
    }
  }

  lemma CycleExcuse(commits: Commits, start: ObjectId, id: ObjectId, trail: seq<ObjectId>)
    requires Path(commits, trail, start, id) && id in Elements(trail[..|trail| - 1])
    ensures forall depthLimit, countLimit :: Excuse(commits, start, depthLimit, countLimit, Cyclic)
  {
    var k :| 0 <= k < |trail| - 1 && trail[k] == id;
    PathSuffix(commits, trail, start, id, k);
    assert OnCycle(commits, id) && Ancestor(commits, start, id);
  }
}
