/** The kernel's process table as far as a child subreaper depends on it. */
module Processes {

  /** How a process ended. */
  datatype Status = Code(code: nat) | Killed(signal: nat)

  datatype State = Live | Zombie(status: Status)

  /** `birth` is a serial number: ids are used again, births are not. `group` is the id of
      the process group. */
  datatype Proc = Proc(parent: nat, subreaper: bool, state: State, birth: nat, group: nat)

  type Table = map<nat, Proc>

  const INIT: nat := 1

  /** Every process but the first has a live parent, and parents have lower ranks. */
  ghost predicate Ranked(procs: Table, rank: map<nat, nat>) {
    && procs.Keys <= rank.Keys && INIT in procs && procs[INIT].state.Live?
    && forall p :: p in procs && p != INIT ==> LiveParent(procs, rank, p)
  }

  ghost predicate LiveParent(procs: Table, rank: map<nat, nat>, p: nat)
    requires p in procs && procs.Keys <= rank.Keys
  {
    var q := procs[p].parent;
    q in procs && procs[q].state.Live? && rank[q] < rank[p]
  }

  /** `born` is the set of processes forked by `me`, or by one of these, and still in the
      table; its members are those whose parent is `me` or a member. */
  ghost predicate Own(procs: Table, rank: map<nat, nat>, born: set<nat>, me: nat) {
    && Ranked(procs, rank)
    && me in procs && me != INIT && procs[me].subreaper && procs[me].state.Live?
    && born <= procs.Keys && me !in born && INIT !in born
    && forall p :: p in procs && p != INIT ==> (p in born <==> procs[p].parent in born + {me})
  }

  function Children(procs: Table, me: nat): set<nat> {
    set p | p in procs && p != INIT && procs[p].parent == me
  }

  /** No child is lost, or replaced by another process under its id. */
  ghost predicate KeepsChildren(before: Table, after: Table, me: nat) {
    forall c :: c in Children(before, me) ==> c in Children(after, me) && before[c].birth == after[c].birth
  }

  /** Births in the table are distinct and below the counter. */
  ghost predicate Numbered(procs: Table, births: nat) {
    && (forall p :: p in procs ==> procs[p].birth < births)
    && (forall p, q :: p in procs && q in procs && procs[p].birth == procs[q].birth ==> p == q)
  }

  /** No process of `after` is new. */
  ghost predicate SameBirths(before: Table, after: Table) {
    forall p :: p in after ==> p in before && before[p].birth == after[p].birth
  }

  lemma SameNumbers(before: Table, after: Table, births: nat)
    requires Numbered(before, births) && SameBirths(before, after)
    ensures Numbered(after, births + 1)
  {
  }

  lemma OldBirths(procs: Table, rank: map<nat, nat>, me: nat, a: Action)
    requires Ranked(procs, rank) && Enabled(procs, me, a) && !a.Fork?
    ensures SameBirths(procs, Apply(procs, rank, me, a))
  {
    hide Ranked, Reaper;
  }

  /** A step keeps the numbering if a new process takes the next number; nobody else's
      birth changes. */
  lemma StepNumbers(procs: Table, rank: map<nat, nat>, me: nat, a: Action, births: nat)
    requires Ranked(procs, rank) && Enabled(procs, me, a) && Numbered(procs, births)
    requires a.Fork? ==> a.birth == births
    ensures Numbered(Apply(procs, rank, me, a), births + 1)
    ensures NoRevival(procs, Apply(procs, rank, me, a), births)
  {
    hide Ranked, Reaper, Exited;
    if !a.Fork? {
      hide Apply, Numbered;
      OldBirths(procs, rank, me, a);
      SameNumbers(procs, Apply(procs, rank, me, a), births);
    }
  }

  /** Whoever is in the table was there before or was born since. */
  ghost predicate NoRevival(before: Table, after: Table, births: nat) {
    forall p :: p in after ==> after[p].birth >= births || (p in before && before[p].birth == after[p].birth)
  }

  /** A process that has no children has no descendants at all. */
  lemma NoChildrenNoDescendants(procs: Table, rank: map<nat, nat>, born: set<nat>, me: nat)
    requires Own(procs, rank, born, me)
    ensures Children(procs, me) == {} <==> born == {}
  {
    if born != {} {
      var low := Lowest(rank, born);
      assert LiveParent(procs, rank, low);
      assert procs[low].parent !in born;
      assert low in Children(procs, me);
    }
  }

  lemma {:induction false} Lowest(rank: map<nat, nat>, s: set<nat>) returns (low: nat)
    requires s != {} && s <= rank.Keys
    ensures low in s && forall p :: p in s ==> rank[low] <= rank[p]
    decreases s
  {
    var p :| p in s;
    var rest := s - {p};
    if rest == {} {
      assert s == {p};
      return p;
    }
    low := Lowest(rank, rest);
    if rank[p] < rank[low] { low := p; }
  }

  /** The process that inherits the children of `x`: its nearest ancestor that is a
      subreaper, or the first process. */
  function Reaper(procs: Table, ghost rank: map<nat, nat>, x: nat): (r: nat)
    requires Ranked(procs, rank) && x in procs && x != INIT
    ensures r in procs && procs[r].state.Live? && rank[r] < rank[x]
    decreases rank[x]
  {
    assert LiveParent(procs, rank, x);
    var q := procs[x].parent;
    if q == INIT || procs[q].subreaper then q else Reaper(procs, rank, q)
  }

  /** Children do not leave the subreaper's tree, and none enter it. */
  lemma {:induction false} ReaperSide(procs: Table, rank: map<nat, nat>, born: set<nat>, me: nat, x: nat)
    requires Own(procs, rank, born, me) && x in procs && x != INIT && x != me
    ensures Reaper(procs, rank, x) in born + {me} <==> x in born
    decreases rank[x]
  {
    assert LiveParent(procs, rank, x);
    var q := procs[x].parent;
    if q != INIT && !procs[q].subreaper { ReaperSide(procs, rank, born, me, q); }
  }

  // ---------- what other processes do ----------

  datatype Action =
    | Fork(p: nat, c: nat, birth: nat) | Exit(p: nat, status: Status) | Wait(p: nat, c: nat)
    | Adopt(p: nat, on: bool) | Regroup(p: nat, g: nat)

  function Members(procs: Table, g: nat): set<nat> {
    set p | p in procs && procs[p].group == g
  }

  /** An id can be given to a new process only if neither a process nor a group has it. */
  predicate IdFree(procs: Table, id: nat) {
    id !in procs && forall p :: p in procs ==> procs[p].group != id
  }

  /** Steps of processes other than `me`: fork a child under any free id, exit, collect a
      child that has exited, become or cease to be a subreaper, found a group under the own
      id or enter one that has members. */
  predicate Enabled(procs: Table, me: nat, a: Action) {
    && a.p in procs && a.p != me && procs[a.p].state.Live?
    && match a
       case Fork(_, c, _) => IdFree(procs, c)
       case Exit(p, _) => p != INIT
       case Wait(p, c) => c in procs && c != INIT && procs[c].parent == p && procs[c].state.Zombie?
       case Adopt(p, _) => true
       case Regroup(p, g) => g == p || exists q :: q in procs && procs[q].group == g
  }

  /** The table after a process exits: its children pass to the reaper. */
  function Exited(procs: Table, x: nat, status: Status, r: nat): Table {
    map p | p in procs ::
      if p == x then procs[p].(state := Zombie(status))
      else if p != INIT && procs[p].parent == x then procs[p].(parent := r)
      else procs[p]
  }

  function Apply(procs: Table, ghost rank: map<nat, nat>, me: nat, a: Action): Table
    requires Ranked(procs, rank) && Enabled(procs, me, a)
  {
    match a
    case Fork(p, c, birth) => procs[c := Proc(p, false, Live, birth, procs[p].group)]
    case Exit(p, status) => Exited(procs, p, status, Reaper(procs, rank, p))
    case Wait(p, c) => procs - {c}
    case Adopt(p, on) => procs[p := procs[p].(subreaper := on)]
    case Regroup(p, g) => procs[p := procs[p].(group := g)]
  }

  ghost function RankAfter(rank: map<nat, nat>, a: Action): map<nat, nat> {
    if a.Fork? && a.p in rank then rank[a.c := rank[a.p] + 1] else rank
  }

  function BornAfter(born: set<nat>, a: Action): set<nat> {
    match a
    case Fork(p, c, _) => if p in born then born + {c} else born
    case Wait(_, c) => born - {c}
    case _ => born
  }

  lemma ForkKeeps(procs: Table, rank: map<nat, nat>, born: set<nat>, me: nat, a: Action)
    requires Own(procs, rank, born, me) && Enabled(procs, me, a) && a.Fork?
    ensures Own(Apply(procs, rank, me, a), RankAfter(rank, a), BornAfter(born, a), me)
  {
    var procs', rank' := Apply(procs, rank, me, a), RankAfter(rank, a);
    forall p | p in procs' && p != INIT ensures LiveParent(procs', rank', p) {
      assert p != a.c ==> LiveParent(procs, rank, p);
    }
  }

  lemma ExitRanked(procs: Table, rank: map<nat, nat>, me: nat, a: Action)
    requires Ranked(procs, rank) && Enabled(procs, me, a) && a.Exit?
    ensures Ranked(Apply(procs, rank, me, a), rank)
  {
    var procs' := Apply(procs, rank, me, a);
    var r := Reaper(procs, rank, a.p);
    forall p | p in procs' && p != INIT ensures LiveParent(procs', rank, p) {
      assert LiveParent(procs, rank, p);
    }
  }

  lemma ExitKeeps(procs: Table, rank: map<nat, nat>, born: set<nat>, me: nat, a: Action)
    requires Own(procs, rank, born, me) && Enabled(procs, me, a) && a.Exit?
    ensures Own(Apply(procs, rank, me, a), rank, born, me)
  {
    ExitRanked(procs, rank, me, a);
    ReaperSide(procs, rank, born, me, a.p);
    hide Ranked, LiveParent, Reaper;
  }

  lemma WaitKeeps(procs: Table, rank: map<nat, nat>, born: set<nat>, me: nat, c: nat)
    requires Own(procs, rank, born, me) && c in procs && c != INIT && procs[c].state.Zombie?
    ensures Own(procs - {c}, rank, born - {c}, me)
  {
    var procs' := procs - {c};
    forall p | p in procs' && p != INIT ensures LiveParent(procs', rank, p) {
      assert LiveParent(procs, rank, p);
    }
  }

  lemma AdoptKeeps(procs: Table, rank: map<nat, nat>, born: set<nat>, me: nat, a: Action)
    requires Own(procs, rank, born, me) && Enabled(procs, me, a) && (a.Adopt? || a.Regroup?)
    ensures Own(Apply(procs, rank, me, a), rank, born, me)
  {
    var procs' := Apply(procs, rank, me, a);
    forall p | p in procs' && p != INIT ensures LiveParent(procs', rank, p) {
      assert LiveParent(procs, rank, p);
    }
  }

  lemma StepKeepsChildren(procs: Table, rank: map<nat, nat>, me: nat, a: Action)
    requires Ranked(procs, rank) && Enabled(procs, me, a)
    ensures KeepsChildren(procs, Apply(procs, rank, me, a), me)
  {
    hide Ranked, Reaper;
  }

  /** Whatever the other processes do: the subreaper keeps exactly its tree, loses no
      child, and gains none once its tree is empty. */
  lemma StepKeeps(procs: Table, rank: map<nat, nat>, born: set<nat>, me: nat, a: Action)
    requires Own(procs, rank, born, me) && Enabled(procs, me, a)
    ensures Own(Apply(procs, rank, me, a), RankAfter(rank, a), BornAfter(born, a), me)
    ensures KeepsChildren(procs, Apply(procs, rank, me, a), me)
    ensures born == {} ==> BornAfter(born, a) == {}
  {
    hide Ranked, Reaper, KeepsChildren, Children, Exited;
    StepKeepsChildren(procs, rank, me, a);
    match a {
      case Fork(_, _, _) => ForkKeeps(procs, rank, born, me, a);
      case Exit(_, _) => ExitKeeps(procs, rank, born, me, a);
      case Wait(_, c) => WaitKeeps(procs, rank, born, me, c);
      case Adopt(_, _) => AdoptKeeps(procs, rank, born, me, a);
      case Regroup(_, _) => AdoptKeeps(procs, rank, born, me, a);
    }
  }

  /** The subreaper's own fork. */
  function Forked(procs: Table, me: nat, c: nat, birth: nat): Table
    requires me in procs
  {
    procs[c := Proc(me, false, Live, birth, procs[me].group)]
  }

  ghost function ForkedRank(rank: map<nat, nat>, me: nat, c: nat): map<nat, nat> {
    if me in rank then rank[c := rank[me] + 1] else rank
  }

  lemma OwnFork(procs: Table, rank: map<nat, nat>, born: set<nat>, me: nat, c: nat, birth: nat)
    requires Own(procs, rank, born, me) && c !in procs && c != INIT && Numbered(procs, birth)
    ensures Own(Forked(procs, me, c, birth), ForkedRank(rank, me, c), born + {c}, me)
    ensures c in Children(Forked(procs, me, c, birth), me) && Numbered(Forked(procs, me, c, birth), birth + 1)
    ensures Forked(procs, me, c, birth)[c].birth == birth
  {
    var procs', rank' := Forked(procs, me, c, birth), ForkedRank(rank, me, c);
    forall p | p in procs' && p != INIT ensures LiveParent(procs', rank', p) {
      assert p != c ==> LiveParent(procs, rank, p);
    }
  }

  const SMALL: Table := map[1 := Proc(0, false, Live, 0, 1), 2 := Proc(1, false, Live, 1, 1)]

  /** Without subreaping the tree would not be kept: the child of an exiting process goes
      to the first process, and the launcher is left with live descendants it cannot see. */
  lemma LostWithoutSubreaper()
    ensures
      var procs := SMALL[3 := Proc(2, false, Live, 2, 3)][4 := Proc(3, false, Live, 3, 3)];
      var rank := map[1 := 0, 2 := 1, 3 := 2, 4 := 3];
      && Ranked(procs, rank) && Enabled(procs, 2, Exit(3, Code(0)))
      && Apply(procs, rank, 2, Exit(3, Code(0)))[4].parent == INIT
  {
    var procs := SMALL[3 := Proc(2, false, Live, 2, 3)][4 := Proc(3, false, Live, 3, 3)];
    var rank := map[1 := 0, 2 := 1, 3 := 2, 4 := 3];
    assert LiveParent(procs, rank, 2) && LiveParent(procs, rank, 3) && LiveParent(procs, rank, 4);
    assert Ranked(procs, rank);
    assert Reaper(procs, rank, 3) == INIT;
  }

  // ---------- an id that is used again ----------

  /** The launcher 2 is a subreaper; its leader 3 has a child 4, which has left the
      leader's group. */
  const FAMILY: Table :=
    map[1 := Proc(0, false, Live, 0, 1), 2 := Proc(1, true, Live, 1, 1), 3 := Proc(2, false, Live, 2, 3),
        4 := Proc(3, false, Live, 3, 4)]

  const RANKS: map<nat, nat> := map[1 := 0, 2 := 1, 3 := 2, 4 := 3]

  const EXITED: Table := FAMILY[3 := Proc(2, false, Zombie(Code(0)), 2, 3)][4 := Proc(2, false, Live, 3, 4)]

  const COLLECTED: Table := EXITED - {3}

  const FORKED: Table := COLLECTED[3 := Proc(4, false, Live, 4, 4)]

  const ENDED: Table := COLLECTED[3 := Proc(4, false, Zombie(Code(7)), 4, 4)]

  const LAST: Table :=
    COLLECTED[3 := Proc(2, false, Zombie(Code(7)), 4, 4)][4 := Proc(2, false, Zombie(Code(1)), 3, 4)]

  const NEW_RANKS: map<nat, nat> := map[1 := 0, 2 := 1, 4 := 3, 3 := 4]

  ghost predicate Steps(before: Table, rank: map<nat, nat>, me: nat, a: Action, after: Table) {
    Ranked(before, rank) && Enabled(before, me, a) && after == Apply(before, rank, me, a)
  }

  lemma ExitOfOne(procs: Table, x: nat, status: Status, r: nat)
    requires x in procs && forall p :: p in procs && p != INIT ==> procs[p].parent != x
    ensures Exited(procs, x, status, r) == procs[x := procs[x].(state := Zombie(status))]
  {
  }

  lemma ExitOfParent(procs: Table, x: nat, c: nat, status: Status, r: nat)
    requires x in procs && c in procs && c != x && c != INIT
    requires forall p :: p in procs && p != INIT ==> (procs[p].parent == x <==> p == c)
    ensures Exited(procs, x, status, r) == procs[x := procs[x].(state := Zombie(status))][c := procs[c].(parent := r)]
  {
  }

  lemma LeaderExits()
    ensures Own(FAMILY, RANKS, {3, 4}, 2) && Steps(FAMILY, RANKS, 2, Exit(3, Code(0)), EXITED)
  {
    hide Exited;
    assert LiveParent(FAMILY, RANKS, 2) && LiveParent(FAMILY, RANKS, 3) && LiveParent(FAMILY, RANKS, 4);
    assert Ranked(FAMILY, RANKS);
    assert Reaper(FAMILY, RANKS, 3) == 2;
    ExitOfParent(FAMILY, 3, 4, Code(0), 2);
  }

  lemma ChildForks()
    ensures Steps(COLLECTED, RANKS, 2, Fork(4, 3, 4), FORKED)
  {
    assert LiveParent(COLLECTED, RANKS, 2) && LiveParent(COLLECTED, RANKS, 4);
  }

  lemma GrandchildExits()
    ensures Steps(FORKED, NEW_RANKS, 2, Exit(3, Code(7)), ENDED)
  {
    hide Exited, Reaper;
    assert LiveParent(FORKED, NEW_RANKS, 2) && LiveParent(FORKED, NEW_RANKS, 3) && LiveParent(FORKED, NEW_RANKS, 4);
    assert Ranked(FORKED, NEW_RANKS);
    ExitOfOne(FORKED, 3, Code(7), Reaper(FORKED, NEW_RANKS, 3));
  }

  lemma ChildExits()
    ensures Steps(ENDED, NEW_RANKS, 2, Exit(4, Code(1)), LAST)
  {
    hide Exited;
    assert LiveParent(ENDED, NEW_RANKS, 2) && LiveParent(ENDED, NEW_RANKS, 3) && LiveParent(ENDED, NEW_RANKS, 4);
    assert Ranked(ENDED, NEW_RANKS);
    assert Reaper(ENDED, NEW_RANKS, 4) == 2;
    ExitOfParent(ENDED, 4, 3, Code(1), 2);
  }

  /** After the leader has exited and been collected, its child may fork under the free id.
      When both have exited, the launcher has a second child to collect under the leader's
      id, another process with another status. */
  lemma LeaderIdReused()
    ensures Own(FAMILY, RANKS, {3, 4}, 2) && Steps(FAMILY, RANKS, 2, Exit(3, Code(0)), EXITED)
    ensures 3 in Children(EXITED, 2) && EXITED[3].state == Zombie(Code(0)) && COLLECTED == EXITED - {3}
    ensures Steps(COLLECTED, RANKS, 2, Fork(4, 3, 4), FORKED)
    ensures Steps(FORKED, NEW_RANKS, 2, Exit(3, Code(7)), ENDED)
    ensures Steps(ENDED, NEW_RANKS, 2, Exit(4, Code(1)), LAST)
    ensures 3 in Children(LAST, 2) && LAST[3].state == Zombie(Code(7)) && LAST[3].birth != EXITED[3].birth
  {
    hide Steps, Own;
    LeaderExits();
    ChildForks();
    GrandchildExits();
    ChildExits();
  }
}
