/** Whom a signal to a process group reaches, over whole runs of the process table. */
module Groups {
  import opened Processes

  /** The table and the subreaper's tree at one time. */
  datatype Moment = Moment(procs: Table, born: set<nat>)

  /** A step of another process. */
  ghost predicate ByOther(a: Moment, b: Moment, me: nat, rank: map<nat, nat>, x: Action) {
    && Ranked(a.procs, rank) && Enabled(a.procs, me, x)
    && b.procs == Apply(a.procs, rank, me, x) && b.born == BornAfter(a.born, x)
  }

  /** The subreaper collects a child. */
  ghost predicate ByWait(a: Moment, b: Moment, me: nat, c: nat) {
    c in Children(a.procs, me) && a.procs[c].state.Zombie? && b == Moment(a.procs - {c}, a.born - {c})
  }

  ghost predicate Next(a: Moment, b: Moment, me: nat) {
    (exists rank, x :: ByOther(a, b, me, rank, x)) || exists c :: ByWait(a, b, me, c)
  }

  /** A run: every moment follows from the one before. */
  ghost predicate Linked(history: seq<Moment>, me: nat) {
    forall i, j :: 0 <= i < j < |history| && j == i + 1 ==> Next(history[i], history[j], me)
  }

  /** Whoever has the id, as a process or as its group, belongs to the tree. */
  ghost predicate Confined(m: Moment, id: nat) {
    forall p :: p in m.procs && (p == id || m.procs[p].group == id) ==> p in m.born
  }

  /** A process outside the tree enters the group. */
  ghost predicate Enters(a: Moment, b: Moment, id: nat) {
    exists p :: p in a.procs && p in b.procs && p !in b.born && a.procs[p].group != id && b.procs[p].group == id
  }

  lemma OtherConfined(a: Moment, b: Moment, me: nat, rank: map<nat, nat>, x: Action, id: nat)
    requires ByOther(a, b, me, rank, x) && Confined(a, id) && !IdFree(a.procs, id)
    ensures Confined(b, id) <==> !Enters(a, b, id)
  {
    hide Ranked, Reaper;
    if !Enters(a, b, id) {
      forall p | p in b.procs && (p == id || b.procs[p].group == id) ensures p in b.born {
      }
    }
  }

  /** As long as the id is in use, it stays with the tree exactly until a process outside
      enters the group. */
  lemma ConfinedStep(a: Moment, b: Moment, me: nat, id: nat)
    requires Next(a, b, me) && Confined(a, id) && !IdFree(a.procs, id)
    ensures Confined(b, id) <==> !Enters(a, b, id)
  {
    hide Enters, Apply, Enabled, Ranked;
    if rank, x :| ByOther(a, b, me, rank, x) {
      OtherConfined(a, b, me, rank, x, id);
    } else {
      var c :| ByWait(a, b, me, c);
      WaitConfined(a, b, me, c, id);
    }
  }

  lemma WaitConfined(a: Moment, b: Moment, me: nat, c: nat, id: nat)
    requires ByWait(a, b, me, c) && Confined(a, id)
    ensures Confined(b, id) && !Enters(a, b, id)
  {
  }

  /** Up to moment `n` the id was always in use and nobody from outside entered its group. */
  ghost predicate Guarded(history: seq<Moment>, id: nat, n: nat) {
    && n < |history|
    && (forall i :: 0 <= i < n ==> !IdFree(history[i].procs, id))
    && (forall i, j :: 0 <= i < j <= n && j == i + 1 ==> !Enters(history[i], history[j], id))
  }

  /** In every run in which the id is guarded, it stays with the tree. */
  lemma {:induction false} GuardedIsConfined(history: seq<Moment>, me: nat, id: nat, n: nat)
    requires Linked(history, me) && Guarded(history, id, n) && Confined(history[0], id)
    ensures Confined(history[n], id)
  {
    hide Confined, Enters, Next;
    if n > 0 {
      GuardedIsConfined(history, me, id, n - 1);
      assert Next(history[n - 1], history[n], me);
      ConfinedStep(history[n - 1], history[n], me, id);
    }
  }

  /** A signal to the group then reaches nobody outside the tree. */
  lemma GroupStays(history: seq<Moment>, me: nat, id: nat, n: nat)
    requires Linked(history, me) && Guarded(history, id, n) && Confined(history[0], id)
    ensures Members(history[n].procs, id) <= history[n].born
  {
    GuardedIsConfined(history, me, id, n);
  }

  /** Once the id is free, two steps of others suffice for the group to have a member
      outside the tree: a process is forked under the id and founds a group. */
  lemma FreeIsLost(m: Moment, rank: map<nat, nat>, me: nat, id: nat, birth: nat) returns (a: Moment, b: Moment)
    requires Own(m.procs, rank, m.born, me) && IdFree(m.procs, id)
    ensures Next(m, a, me) && Next(a, b, me) && !Enters(m, a, id)
    ensures Members(b.procs, id) == {id} && id !in b.born
  {
    var fork, found := Fork(INIT, id, birth), Regroup(id, id);
    a := Moment(Apply(m.procs, rank, me, fork), BornAfter(m.born, fork));
    assert ByOther(m, a, me, rank, fork);
    ForkKeeps(m.procs, rank, m.born, me, fork);
    b := Moment(Apply(a.procs, RankAfter(rank, fork), me, found), BornAfter(a.born, found));
    assert ByOther(a, b, me, RankAfter(rank, fork), found);
  }
}
