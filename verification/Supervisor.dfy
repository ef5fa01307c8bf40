/** The launcher's supervision of the process tree it starts. */
module Supervisor {
  import opened Groups
  import opened Processes
  import opened Wrappers
  import PidStream

  const EXECUTION_TIMEOUT := 3600000
  const TERM_GRACE := 2000
  const KILL_GRACE := 5000
  const POLL := 20
  const SIGKILL := 9
  const SIGTERM := 15

  datatype WaitResult = Reaped(entry: Collected) | NoneReady | Interrupted | NoChild | WaitError

  /** A process that `waitpid` has returned. */
  datatype Collected = Collected(pid: nat, status: Status, birth: nat)

  datatype Target = Group(leader: nat) | Child(pid: nat)

  /** A signal, the time at which it was sent, and how many moments there had been. */
  datatype Signal = Signal(to: Target, number: nat, at: nat, moments: nat)

  /** How the launcher ends once it has started to supervise. */
  datatype Outcome =
    | HasChildren | CannotFork
    | HandshakeFailed | NotEmptied
    | NotProvedEmpty | TimedOut | Caught(signal: nat) | NotSupervised
    | Ended(exit: nat)
  {
    /** A leader was forked. */
    predicate Supervised() { !HasChildren? && !CannotFork? }
  }

  function ExitStatus(s: Status): nat {
    match s case Code(n) => n case Killed(n) => 128 + n
  }

  // ---------- collections of an id ----------

  function FirstOf(log: seq<Collected>, pid: nat): Option<Collected> {
    if log == [] then None else if log[0].pid == pid then Some(log[0]) else FirstOf(log[1..], pid)
  }

  function LastOf(log: seq<Collected>, pid: nat): Option<Collected> {
    if log == [] then None
    else if log[|log| - 1].pid == pid then Some(log[|log| - 1])
    else LastOf(log[..|log| - 1], pid)
  }

  /** How often the id was collected. */
  function Times(log: seq<Collected>, pid: nat): nat {
    if log == [] then 0 else Times(log[..|log| - 1], pid) + if log[|log| - 1].pid == pid then 1 else 0
  }

  lemma {:induction false} FirstSnoc(log: seq<Collected>, entry: Collected, pid: nat)
    ensures FirstOf(log + [entry], pid) ==
      if FirstOf(log, pid).Some? then FirstOf(log, pid) else if entry.pid == pid then Some(entry) else None
  {
    if log != [] {
      assert (log + [entry])[1..] == log[1..] + [entry];
      FirstSnoc(log[1..], entry, pid);
    } else {
      assert log + [entry] == [entry];
    }
  }

  lemma LastSnoc(log: seq<Collected>, entry: Collected, pid: nat)
    ensures LastOf(log + [entry], pid) == if entry.pid == pid then Some(entry) else LastOf(log, pid)
    ensures Times(log + [entry], pid) == Times(log, pid) + if entry.pid == pid then 1 else 0
  {
    assert (log + [entry])[..|log|] == log;
  }

  /** What the log says of the leader: its own collection is the first of its id, and the
      last is another process's exactly when the id was collected again. */
  ghost predicate LogKnows(log: seq<Collected>, leader: nat, birth: nat) {
    && (FirstOf(log, leader).Some? <==> LastOf(log, leader).Some?)
    && (FirstOf(log, leader).Some? <==> Times(log, leader) > 0)
    && (FirstOf(log, leader).Some? ==> FirstOf(log, leader).value.birth == birth)
    && (LastOf(log, leader).Some? ==>
         && (LastOf(log, leader).value.birth == birth <==> Times(log, leader) == 1)
         && (Times(log, leader) == 1 ==> LastOf(log, leader) == FirstOf(log, leader)))
  }

  lemma LogGrows(log: seq<Collected>, entry: Collected, leader: nat, birth: nat)
    requires LogKnows(log, leader, birth)
    requires entry.pid == leader ==> (entry.birth == birth <==> FirstOf(log, leader).None?)
    ensures LogKnows(log + [entry], leader, birth)
  {
    FirstSnoc(log, entry, leader);
    LastSnoc(log, entry, leader);
    hide FirstOf, LastOf, Times;
  }

  /** The supervisor's record of the leader. Until the leader is collected it stays in the
      table as a child; afterwards nobody in the table is it. */
  datatype Record = Record(leader: nat, birth: nat, reaped: bool, status: Status)

  /** Nobody in the table has this birth. */
  ghost predicate Gone(procs: Table, birth: nat) { forall p :: p in procs ==> procs[p].birth != birth }

  ghost predicate Knows(r: Record, procs: Table, births: nat, me: nat, log: seq<Collected>) {
    && LogKnows(log, r.leader, r.birth) && r.birth < births
    && (r.reaped <==> LastOf(log, r.leader).Some?)
    && (r.reaped ==> LastOf(log, r.leader).value.status == r.status)
    && if r.reaped then Gone(procs, r.birth)
       else r.leader in Children(procs, me) && procs[r.leader].birth == r.birth
  }

  lemma KnowsOn(r: Record, a: World, b: World, me: nat, log: seq<Collected>)
    requires Knows(r, a.procs, a.births, me, log) && Onward(a, b) && KeepsChildren(a.procs, b.procs, me)
    ensures Knows(r, b.procs, b.births, me, log)
  {
    hide LogKnows, LastOf;
  }

  /** A collection brings the record up to date. */
  lemma KnowsMore(r: Record, procs: Table, births: nat, me: nat, log: seq<Collected>, entry: Collected)
    requires Knows(r, procs, births, me, log) && Numbered(procs, births)
    requires entry.pid in Children(procs, me) && entry.birth == procs[entry.pid].birth
    ensures
      var next := if entry.pid == r.leader then r.(reaped := true, status := entry.status) else r;
      Knows(next, procs - {entry.pid}, births, me, log + [entry])
  {
    LastSnoc(log, entry, r.leader);
    LogGrows(log, entry, r.leader, r.birth);
    hide LogKnows, LastOf, FirstOf, Times;
  }

  // ---------- the world between two calls ----------

  /** The process table, the time, the times at which a call or a limit has failed, the last
      signal caught, and the moments since the leader was forked. */
  datatype World =
    World(procs: Table, born: set<nat>, births: nat, now: nat, faults: seq<nat>, caught: nat, history: seq<Moment>)

  /** How the handshake ended, and when. */
  datatype Greeting = Greeting(ready: bool, at: World)

  /** When the tree was to be terminated, and what came of it: 1 for success, 0 when time
      ran out, -1 for a failure. */
  datatype Termination = Termination(start: World, result: int)

  ghost predicate Onward(a: World, b: World) {
    && (a.born == {} ==> b.born == {})
    && a.births <= b.births && NoRevival(a.procs, b.procs, a.births)
    && a.now <= b.now && a.faults <= b.faults && a.history <= b.history && (a.caught != 0 ==> b.caught != 0)
    && forall i :: |a.faults| <= i < |b.faults| ==> a.now <= b.faults[i] <= b.now
  }

  /** Something failed between the two. */
  ghost predicate Failing(a: World, b: World) { |a.faults| < |b.faults| }

  lemma OnwardTwice(a: World, b: World, c: World)
    requires Onward(a, b) && Onward(b, c)
    ensures Onward(a, c)
    ensures Failing(a, b) || Failing(b, c) ==> Failing(a, c)
  {
  }

  lemma KeepsTwice(a: Table, b: Table, c: Table, me: nat)
    requires KeepsChildren(a, b, me) && KeepsChildren(b, c, me)
    ensures KeepsChildren(a, c, me)
  {
    hide Children;
  }

  // ---------- signals ----------

  /** The signals from `n` on have this number and were sent within these times. */
  ghost predicate Sent(signals: seq<Signal>, n: nat, number: nat, from: nat, to: nat) {
    forall i :: n <= i < |signals| ==> signals[i].number == number && from <= signals[i].at <= to
  }

  ghost predicate GroupTold(signals: seq<Signal>, n: nat, leader: nat, number: nat) {
    exists i :: n <= i < |signals| && signals[i].to == Group(leader) && signals[i].number == number
  }

  ghost predicate ChildTold(signals: seq<Signal>, n: nat, c: nat, number: nat) {
    exists i :: n <= i < |signals| && signals[i].to == Child(c) && signals[i].number == number
  }

  lemma SentMore(a: seq<Signal>, b: seq<Signal>, n: nat, number: nat, from: nat, mid: nat, middle: nat, to: nat)
    requires n <= |a| && a <= b && from <= middle && mid <= to
    requires Sent(a, n, number, from, mid) && Sent(b, |a|, number, middle, to)
    ensures Sent(b, n, number, from, to)
  {
    forall i | n <= i < |b| ensures b[i].number == number && from <= b[i].at <= to {
      assert i < |a| ==> b[i] == a[i];
    }
  }

  /** The time `t` has come to use SIGKILL: the whole grace has passed since the start, and
      the group has been sent SIGTERM in that time; or something has failed since the start. */
  ghost predicate Due(signals: seq<Signal>, n: nat, leader: nat, start: World, t: World) {
    || (t.now >= start.now + TERM_GRACE && GroupTold(signals, n, leader, SIGTERM))
    || Failing(start, t)
  }

  /** From `n` on the signals are SIGTERM up to some point of time, and from there SIGKILL,
      of which there is none before it is due. */
  ghost predicate Escalates(signals: seq<Signal>, n: nat, leader: nat, start: World, t: World) {
    exists k: nat ::
      && n <= k <= |signals|
      && (forall i :: n <= i < k ==> signals[i].number == SIGTERM && start.now <= signals[i].at <= t.now)
      && (forall i :: k <= i < |signals| ==> signals[i].number == SIGKILL && signals[i].at >= t.now)
      && (k < |signals| ==> Onward(start, t) && Due(signals[..k], n, leader, start, t))
  }

  lemma AllTerm(signals: seq<Signal>, n: nat, leader: nat, start: World, t: World)
    requires n <= |signals| && Sent(signals, n, SIGTERM, start.now, t.now)
    ensures Escalates(signals, n, leader, start, t)
  {
    assert signals[..|signals|] == signals;
  }

  lemma ThenKill(terms: seq<Signal>, signals: seq<Signal>, n: nat, leader: nat, start: World, t: World, to: nat)
    requires n <= |terms| && terms <= signals && Sent(terms, n, SIGTERM, start.now, t.now)
    requires Sent(signals, |terms|, SIGKILL, t.now, to) && Onward(start, t) && Due(terms, n, leader, start, t)
    ensures Escalates(signals, n, leader, start, t)
  {
    assert signals[..|terms|] == terms;
  }

  /** Every SIGKILL was sent after the whole grace, SIGTERM having been sent to the group, or
      after a failure since the start. */
  lemma KillOnlyWhenDue(signals: seq<Signal>, n: nat, leader: nat, start: World, t: World, i: nat)
    requires Escalates(signals, n, leader, start, t) && n <= i < |signals| && signals[i].number == SIGKILL
    ensures
      || (signals[i].at >= start.now + TERM_GRACE && GroupTold(signals[..i], n, leader, SIGTERM))
      || exists f :: |start.faults| <= f < |t.faults| && start.now <= t.faults[f] <= signals[i].at
  {
    var k: nat :| n <= k <= |signals|
      && (forall j :: n <= j < k ==> signals[j].number == SIGTERM && start.now <= signals[j].at <= t.now)
      && (forall j :: k <= j < |signals| ==> signals[j].number == SIGKILL && signals[j].at >= t.now)
      && (k < |signals| ==> Onward(start, t) && Due(signals[..k], n, leader, start, t));
    if t.now >= start.now + TERM_GRACE && GroupTold(signals[..k], n, leader, SIGTERM) {
      var j :| n <= j < k && signals[..k][j].to == Group(leader) && signals[..k][j].number == SIGTERM;
      assert signals[..i][j] == signals[j];
    } else {
      assert start.now <= t.faults[|start.faults|] <= t.now;
    }
  }

  /** What an outcome of a supervised run means. Each condition excludes the others, but
      that a late signal and the end of the time may both have come: so when the handshake
      succeeded, nothing failed, the leader was collected before the termination and the
      tree was emptied, the outcome is `Ended`, and only then. */
  ghost predicate Tells(o: Outcome, g: Greeting, t: Termination, leader: nat, birth: nat, me: nat, caught: nat) {
    && (o.HandshakeFailed? <==> !g.ready && t.result == 1)
    && (o.NotEmptied? <==> !g.ready && t.result != 1)
    && (o.NotProvedEmpty? <==> g.ready && t.result != 1)
    && (o.Ended? <==> g.ready && t.result == 1 && !Failing(g.at, t.start) && Gone(t.start.procs, birth))
    && (o.TimedOut? ==>
         && g.ready && t.result == 1 && !Failing(g.at, t.start) && t.start.now >= g.at.now + EXECUTION_TIMEOUT
         && leader in Children(t.start.procs, me) && t.start.procs[leader].birth == birth)
    && (o.Caught? ==>
         && g.ready && t.result == 1 && o.signal == caught > 0
         && (Failing(g.at, t.start) || (t.start.caught != 0 && !Gone(t.start.procs, birth))))
    && (o.NotSupervised? ==> g.ready && t.result == 1 && caught == 0 && Failing(g.at, t.start))
  }

  lemma TellsNoHandshake(o: Outcome, g: Greeting, t: Termination, leader: nat, birth: nat, me: nat, caught: nat)
    requires !g.ready && o == if t.result != 1 then NotEmptied else HandshakeFailed
    ensures Tells(o, g, t, leader, birth, me, caught)
  {
  }

  // ---------- history ----------

  /** Before the fork there is no history; afterwards it is a run that has led to `last`. */
  ghost predicate Tracked(history: seq<Moment>, last: Moment, me: nat) {
    history == [] || (history[|history| - 1] == last && Linked(history, me))
  }

  /** Every signal has its moment. Group signals go to the leader's group, and an id
      signalled by itself was that of a child. */
  ghost predicate Dated(signals: seq<Signal>, history: seq<Moment>, me: nat, leader: nat) {
    forall i :: 0 <= i < |signals| ==> Timely(signals[i], history, me, leader)
  }

  ghost predicate Timely(s: Signal, history: seq<Moment>, me: nat, leader: nat) {
    && 0 < s.moments <= |history|
    && match s.to
       case Group(id) => id == leader
       case Child(pid) => var m := history[s.moments - 1]; pid in Children(m.procs, me) && pid in m.born
  }

  ghost function Longer(history: seq<Moment>, m: Moment): seq<Moment> {
    if history == [] then [] else history + [m]
  }

  lemma TrackedMore(history: seq<Moment>, a: Moment, b: Moment, me: nat)
    requires Tracked(history, a, me) && Next(a, b, me)
    ensures Tracked(Longer(history, b), b, me)
  {
    hide Next;
  }

  lemma TrackedByOther(history: seq<Moment>, a: Moment, me: nat, rank: map<nat, nat>, x: Action)
    requires Tracked(history, a, me) && Ranked(a.procs, rank) && Enabled(a.procs, me, x)
    ensures
      var b := Moment(Apply(a.procs, rank, me, x), BornAfter(a.born, x));
      Tracked(Longer(history, b), b, me)
  {
    hide Enabled, Apply, Ranked, Tracked;
    var b := Moment(Apply(a.procs, rank, me, x), BornAfter(a.born, x));
    assert ByOther(a, b, me, rank, x);
    TrackedMore(history, a, b, me);
  }

  lemma TrackedByWait(history: seq<Moment>, a: Moment, me: nat, c: nat)
    requires Tracked(history, a, me) && c in Children(a.procs, me) && a.procs[c].state.Zombie?
    ensures
      var b := Moment(a.procs - {c}, a.born - {c});
      Tracked(Longer(history, b), b, me)
  {
    hide Tracked;
    var b := Moment(a.procs - {c}, a.born - {c});
    assert ByWait(a, b, me, c);
    TrackedMore(history, a, b, me);
  }

  lemma DatedLonger(signals: seq<Signal>, history: seq<Moment>, m: Moment, me: nat, leader: nat)
    requires Dated(signals, history, me, leader)
    ensures Dated(signals, Longer(history, m), me, leader)
  {
    forall i | 0 <= i < |signals| ensures Timely(signals[i], Longer(history, m), me, leader) {
      assert Timely(signals[i], history, me, leader);
    }
  }

  lemma DatedMore(signals: seq<Signal>, s: Signal, history: seq<Moment>, m: Moment, rank: map<nat, nat>, me: nat,
                  leader: nat)
    requires Dated(signals, history, me, leader) && Tracked(history, m, me) && s.moments == |history| > 0
    requires Own(m.procs, rank, m.born, me)
    requires if s.to.Child? then s.to.pid in Children(m.procs, me) else s.to.leader == leader
    ensures Dated(signals + [s], history, me, leader)
  {
    hide Ranked;
    assert Timely(s, history, me, leader);
  }

  /** The history began when the leader had its id, which nobody else had. */
  ghost predicate Begun(history: seq<Moment>, r: Record) {
    && history != [] && r.leader in history[0].born && r.leader in history[0].procs
    && history[0].procs[r.leader].birth == r.birth && Confined(history[0], r.leader)
  }

  lemma BegunOn(a: World, b: World, r: Record, s: Record)
    requires Begun(a.history, r) && Onward(a, b) && s.leader == r.leader && s.birth == r.birth
    ensures Begun(b.history, s)
  {
  }

  /** Whom a signal reaches: a child, or whoever is in the group at that moment. */
  function Reached(to: Target, procs: Table): set<nat> {
    match to
    case Group(leader) => Members(procs, leader)
    case Child(pid) => {pid}
  }

  /** A signal reaches nobody outside the tree if up to then the leader's id was always in
      use and nobody from outside entered its group; `FreeIsLost` shows what a free id
      permits. */
  ghost predicate StaysInside(s: Signal, history: seq<Moment>, leader: nat)
    requires 0 < s.moments <= |history|
  {
    var m := history[s.moments - 1];
    Guarded(history, leader, s.moments - 1) ==> Reached(s.to, m.procs) <= m.born
  }

  ghost predicate AllStayInside(signals: seq<Signal>, history: seq<Moment>, leader: nat) {
    forall i :: 0 <= i < |signals| ==> 0 < signals[i].moments <= |history| && StaysInside(signals[i], history, leader)
  }

  lemma SignalsStay(signals: seq<Signal>, history: seq<Moment>, last: Moment, me: nat, r: Record)
    requires Begun(history, r) && Tracked(history, last, me) && Dated(signals, history, me, r.leader)
    ensures AllStayInside(signals, history, r.leader)
  {
    hide Linked, Confined, Guarded;
    forall i | 0 <= i < |signals| ensures Timely(signals[i], history, me, r.leader) {}
    forall i | 0 <= i < |signals| && Guarded(history, r.leader, signals[i].moments - 1)
      ensures StaysInside(signals[i], history, r.leader)
    {
      assert Timely(signals[i], history, me, r.leader);
      GroupStays(history, me, r.leader, signals[i].moments - 1);
    }
  }

  class Launcher {
    const me: nat
    var procs: Table
    ghost var rank: map<nat, nat>
    ghost var born: set<nat>
    var births: nat
    var now: nat
    var caught: nat
    var record: Record
    ghost var faults: seq<nat>
    ghost var reaped: seq<Collected>
    ghost var signals: seq<Signal>
    ghost var history: seq<Moment>
    ghost var forked: bool
    ghost var greeting: Option<Greeting>
    ghost var terminations: seq<Termination>

    /** The history is a run that ends now, and every signal has its place in it. */
    ghost predicate Valid()
      reads `procs, `rank, `born, `births, `history, `forked, `signals, `record
    {
      && Own(procs, rank, born, me) && Numbered(procs, births) && (forked <==> history != [])
      && Tracked(history, Moment(procs, born), me) && Dated(signals, history, me, record.leader)
    }

    ghost function Here(): World
      reads `procs, `born, `births, `now, `faults, `caught, `history
    {
      World(procs, born, births, now, faults, caught, history)
    }

    ghost predicate LeaderKnown()
      reads `procs, `births, `record, `reaped
    {
      Knows(record, procs, births, me, reaped)
    }

    /** The process is a subreaper whose descendants are `born`. */
    constructor (me: nat, procs: Table, births: nat, ghost rank: map<nat, nat>, ghost born: set<nat>, now: nat)
      requires Own(procs, rank, born, me) && Numbered(procs, births)
      ensures Valid() && this.me == me && this.procs == procs && this.born == born
      ensures signals == [] && reaped == [] && faults == [] && !forked && greeting == None && terminations == []
    {
      this.me, this.procs, this.births, this.rank, this.born, this.now := me, procs, births, rank, born, now;
      caught, record, faults, reaped, signals := 0, Record(0, 0, false, Code(0)), [], [], [];
      history, forked, greeting, terminations := [], false, None, [];
    }

    // ---------- the system ----------

    /** A step of another process. */
    method OtherStep(a: Action)
      requires Valid() && Enabled(procs, me, a) && (a.Fork? ==> a.birth == births)
      modifies `procs, `rank, `born, `births, `history
      ensures Valid() && KeepsChildren(old(procs), procs, me) && Onward(old(Here()), Here())
    {
      hide Own, Enabled, Apply, KeepsChildren, Numbered, NoRevival, Tracked, Dated;
      OwnRanked(procs, rank, born, me);
      StepKeeps(procs, rank, born, me, a);
      StepNumbers(procs, rank, me, a, births);
      TrackedByOther(history, Moment(procs, born), me, rank, a);
      DatedLonger(signals, history, Moment(Apply(procs, rank, me, a), BornAfter(born, a)), me, record.leader);
      procs, rank, born := Apply(procs, rank, me, a), RankAfter(rank, a), BornAfter(born, a);
      births := births + 1;
      history := Longer(history, Moment(procs, born));
    }

    /** Any number of steps of other processes, time passing, and signals arriving. */
    method Others()
      requires Valid()
      modifies `procs, `rank, `born, `births, `history, `now, `caught
      ensures Valid() && KeepsChildren(old(procs), procs, me) && Onward(old(Here()), Here())
    {
      hide Own, Enabled, KeepsChildren, Numbered, NoRevival, Tracked, Dated, Onward;
      var steps: int := *;
      Standing(procs, births, me);
      OnwardSame(Here());
      while steps > 0
        invariant Valid() && KeepsChildren(old(procs), procs, me) && Onward(old(Here()), Here())
      {
        var a := Choose(births);
        if Enabled(procs, me, a) {
          ghost var here := Here();
          OtherStep(a);
          KeepsTwice(old(procs), here.procs, procs, me);
          OnwardTwice(old(Here()), here, Here());
        }
        steps := steps - 1;
      }
      var later: int := *;
      if later > 0 {
        OnwardLater(old(Here()), Here(), later);
        now := now + later;
      }
      var signal: int := *;
      if signal > 0 {
        OnwardCaught(old(Here()), Here(), signal);
        caught := signal;
      }
    }

    static lemma OnwardCaught(a: World, b: World, signal: nat)
      requires Onward(a, b) && signal > 0
      ensures Onward(a, b.(caught := signal))
    {
    }

    static lemma OnwardLater(a: World, b: World, later: nat)
      requires Onward(a, b)
      ensures Onward(a, b.(now := b.now + later))
    {
    }

    /** Any action; a new process takes the next birth number. */
    static method Choose(births: nat) returns (a: Action)
      ensures a.Fork? ==> a.birth == births
    {
      a := *;
      if a.Fork? { a := a.(birth := births); }
    }

    static lemma Standing(procs: Table, births: nat, me: nat)
      ensures KeepsChildren(procs, procs, me) && NoRevival(procs, procs, births)
    {
    }

    static lemma OwnRanked(procs: Table, rank: map<nat, nat>, born: set<nat>, me: nat)
      requires Own(procs, rank, born, me)
      ensures Ranked(procs, rank)
    {
    }

    /** A call that may fail: others run on, and a failure goes on record. */
    method Call() returns (ok: bool)
      requires Valid()
      modifies `procs, `rank, `born, `births, `history, `now, `caught, `faults
      ensures Valid() && KeepsChildren(old(procs), procs, me) && Onward(old(Here()), Here())
      ensures !ok ==> Failing(old(Here()), Here())
      ensures ok ==> faults == old(faults)
    {
      hide Own, KeepsChildren, NoRevival, Numbered, Tracked, Dated;
      Others();
      ok := *;
      if !ok { faults := faults + [now]; }
    }

    /** A limit of the program is reached. */
    ghost method Refuse()
      modifies `faults
      ensures faults == old(faults) + [now]
    {
      faults := faults + [now];
    }

    /** `waitpid(-1, WNOHANG)`: some child that has exited; or none has; or there is no
        child; or an error. */
    method WaitAny() returns (r: WaitResult)
      requires Valid() && LeaderKnown()
      modifies `procs, `rank, `born, `births, `history, `now, `caught, `faults, `reaped
      ensures Valid() && Onward(old(Here()), Here())
      ensures r.Reaped? ==>
        && reaped == old(reaped) + [r.entry]
        && Knows(if r.entry.pid == record.leader then record.(reaped := true, status := r.entry.status) else record,
                 procs, births, me, reaped)
      ensures !r.Reaped? ==> LeaderKnown() && reaped == old(reaped)
      ensures r.NoChild? ==> born == {} && Children(procs, me) == {}
      ensures r.WaitError? ==> Failing(old(Here()), Here())
      ensures !r.WaitError? ==> faults == old(faults)
      ensures r.NoneReady? ==> Children(procs, me) != {}
    {
      hide Knows, KeepsChildren, NoRevival, Numbered, Own, Tracked, Dated;
      var ok := Call();
      KnowsOn(record, old(Here()), Here(), me, reaped);
      NoChildrenNoDescendants(procs, rank, born, me);
      if !ok { return WaitError; }
      var interrupted: bool := *;
      if interrupted { return Interrupted; }
      var children := Children(procs, me);
      if children == {} { return NoChild; }
      var exited := set c | c in children && procs[c].state.Zombie?;
      if exited == {} { return NoneReady; }
      var pid :| pid in exited;
      ghost var before := Here();
      var entry := Take(pid);
      OnwardTwice(old(Here()), before, Here());
      return Reaped(entry);
    }

    /** A child that has exited leaves the table. */
    method Take(pid: nat) returns (entry: Collected)
      requires Valid() && LeaderKnown() && pid in Children(procs, me) && procs[pid].state.Zombie?
      modifies `procs, `born, `history, `reaped
      ensures Valid() && Onward(old(Here()), Here()) && reaped == old(reaped) + [entry]
      ensures Knows(if entry.pid == record.leader then record.(reaped := true, status := entry.status) else record,
                    procs, births, me, reaped)
    {
      hide Knows, NoRevival, Numbered, Own, Tracked, Dated;
      entry := Collected(pid, procs[pid].state.status, procs[pid].birth);
      KnowsMore(record, procs, births, me, reaped, entry);
      WaitKeeps(procs, rank, born, me, pid);
      Removed(procs, births, pid);
      TrackedByWait(history, Moment(procs, born), me, pid);
      DatedLonger(signals, history, Moment(procs - {pid}, born - {pid}), me, record.leader);
      reaped := reaped + [entry];
      procs := procs - {pid};
      born := born - {pid};
      history := Longer(history, Moment(procs, born));
    }

    static lemma Removed(procs: Table, births: nat, pid: nat)
      requires Numbered(procs, births)
      ensures Numbered(procs - {pid}, births) && NoRevival(procs, procs - {pid}, births)
    {
    }

    /** `monotonic_milliseconds`. */
    method Clock() returns (ok: bool, time: nat)
      requires Valid()
      modifies `procs, `rank, `born, `births, `history, `now, `caught, `faults
      ensures Valid() && KeepsChildren(old(procs), procs, me) && Onward(old(Here()), Here()) && time == now
      ensures !ok ==> Failing(old(Here()), Here())
      ensures ok ==> faults == old(faults)
    {
      ok := Call();
      time := now;
    }

    /** `delay_milliseconds`. */
    method Delay(duration: nat) returns (ok: bool)
      requires Valid()
      modifies `procs, `rank, `born, `births, `history, `now, `caught, `faults
      ensures Valid() && KeepsChildren(old(procs), procs, me) && Onward(old(Here()), Here())
      ensures if ok then now >= old(now) + duration else Failing(old(Here()), Here())
      ensures ok ==> faults == old(faults)
    {
      hide Own, KeepsChildren, NoRevival, Numbered, Tracked, Dated;
      ok := Call();
      if ok { now := now + duration; }
    }

    /** `deadline_after`. */
    method DeadlineAfter(duration: nat) returns (ok: bool, deadline: nat)
      requires Valid()
      modifies `procs, `rank, `born, `births, `history, `now, `caught, `faults
      ensures Valid() && KeepsChildren(old(procs), procs, me) && Onward(old(Here()), Here())
      ensures if ok then old(now) + duration <= deadline <= PidStream.UINT64_MAX else Failing(old(Here()), Here())
      ensures ok ==> faults == old(faults)
    {
      hide Own, KeepsChildren, NoRevival, Numbered, Tracked, Dated;
      var time;
      ok, time := Clock();
      if !ok { return false, 0; }
      if duration > PidStream.UINT64_MAX - time {
        Refuse();
        return false, 0;
      }
      return true, time + duration;
    }

    /** `kill`; a child is signalled by its id only while it is a child. */
    method Kill(to: Target, number: nat) returns (ok: bool)
      requires Valid() && forked && if to.Child? then to.pid in Children(procs, me) else to.leader == record.leader
      modifies `procs, `rank, `born, `births, `history, `now, `caught, `faults, `signals
      ensures Valid() && KeepsChildren(old(procs), procs, me) && Onward(old(Here()), Here())
      ensures signals == old(signals) + [Signal(to, number, old(now), |old(history)|)]
      ensures !ok ==> Failing(old(Here()), Here())
    {
      hide Own, KeepsChildren, NoRevival, Numbered, Tracked, Dated;
      DatedMore(signals, Signal(to, number, now, |history|), history, Moment(procs, born), rank, me, record.leader);
      signals := signals + [Signal(to, number, now, |history|)];
      ok := Call();
    }

    // ---------- the supervisor ----------

    /** The child list as the kernel prints it, in some order. */
    method ListChildren() returns (order: seq<nat>, ghost text: string)
      requires Valid()
      ensures forall c :: c in order <==> c in Children(procs, me)
      ensures PidStream.Legal(text) && PidStream.Listed(text) == order
    {
      order := [];
      var rest := Children(procs, me);
      while rest != {}
        invariant rest <= Children(procs, me) && forall c :: c in order <==> c in Children(procs, me) && c !in rest
        decreases |rest|
      {
        var pid :| pid in rest;
        order := order + [pid];
        rest := rest - {pid};
      }
      text := PidStream.Listing(order);
      PidStream.ListingReads(order);
    }

    /** The ids among the signals from `n` on. */
    static ghost predicate TellsInOrder(signals: seq<Signal>, n: nat, number: nat, ids: seq<nat>) {
      && |signals| == n + |ids|
      && forall i :: 0 <= i < |ids| ==> signals[n + i].to == Child(ids[i]) && signals[n + i].number == number
    }

    /** `signal_adopted_children` over the kernel's list, whose bytes `PidStream` reads.
        Others run on between the listing and the signals, but only the launcher collects
        its children, so every id listed is still one of them when it is signalled. */
    method SignalAdopted(number: nat) returns (ok: bool, found: bool, ghost text: string, ghost told: nat)
      requires Valid() && forked
      modifies `procs, `rank, `born, `births, `history, `now, `caught, `faults, `signals
      ensures Valid() && KeepsChildren(old(procs), procs, me) && Onward(old(Here()), Here())
      ensures old(signals) <= signals && Sent(signals, |old(signals)|, number, old(now), now)
      ensures told <= |PidStream.Listed(text)|
      ensures TellsInOrder(signals, |old(signals)|, number, PidStream.Listed(text)[..told])
      ensures forall c :: c in PidStream.Listed(text) ==> c in Children(procs, me)
      ensures ok ==> told == |PidStream.Listed(text)| && PidStream.Good(text, _ => true)
      ensures ok ==> forall c :: c in Children(old(procs), me) ==> ChildTold(signals, |old(signals)|, c, number)
      ensures ok ==> (found <==> told > 0)
      ensures !ok ==> Failing(old(Here()), Here())
    {
      hide Own, KeepsChildren, NoRevival, Numbered, Children, Sent, TellsInOrder, ChildTold, Onward;
      hide PidStream.Listed, PidStream.Legal, PidStream.Good, Tracked, Dated;
      found, told, text := false, 0, "";
      NothingTold(signals, number);
      ok := Call();
      ghost var a, table := Here(), procs;
      NothingSent(signals, number, old(now), now);
      var order;
      order, text := ListChildren();
      ChildrenKept(old(procs), procs, me);
      assert order[..0] == [];
      if !ok { return; }
      ok, found, told := TellAll(order, number);
      OnwardTwice(old(Here()), a, Here());
      OnwardNow(old(Here()), a, Here());
      KeepsTwice(old(procs), table, procs, me);
      SentEarlier(signals, |old(signals)|, number, old(now), a.now, now);
      if ok {
        assert order[..told] == order;
        AllListed(text, order);
        EachTold(signals, |old(signals)|, number, order);
      }
    }

    /** The loop over the ids of the list. */
    method TellAll(order: seq<nat>, number: nat) returns (ok: bool, found: bool, ghost told: nat)
      requires Valid() && forked && forall c :: c in order ==> c in Children(procs, me)
      modifies `procs, `rank, `born, `births, `history, `now, `caught, `faults, `signals
      ensures Valid() && KeepsChildren(old(procs), procs, me) && Onward(old(Here()), Here())
      ensures forall c :: c in order ==> c in Children(procs, me)
      ensures old(signals) <= signals && Sent(signals, |old(signals)|, number, old(now), now)
      ensures told <= |order| && TellsInOrder(signals, |old(signals)|, number, order[..told])
      ensures ok ==> told == |order| <= PidStream.MAX_REAPS_PER_PASS && (found <==> told > 0)
      ensures ok ==> forall k :: 0 <= k < |order| ==> 1 <= order[k] <= PidStream.INT_MAX
      ensures !ok ==> Failing(old(Here()), Here())
    {
      hide Own, KeepsChildren, NoRevival, Numbered, Children, Sent, TellsInOrder, Onward, Tracked, Dated;
      found, told := false, 0;
      Standing(procs, births, me);
      OnwardSame(Here());
      NothingSent(signals, number, old(now), now);
      NothingTold(signals, number);
      assert order[..0] == [];
      var i := 0;
      while i < |order|
        invariant 0 <= i <= |order| && told == i <= PidStream.MAX_REAPS_PER_PASS && (found <==> i > 0)
        invariant Valid() && KeepsChildren(old(procs), procs, me) && Onward(old(Here()), Here())
        invariant forall c :: c in order ==> c in Children(procs, me)
        invariant old(signals) <= signals && Sent(signals, |old(signals)|, number, old(now), now)
        invariant TellsInOrder(signals, |old(signals)|, number, order[..i])
        invariant forall k :: 0 <= k < i ==> 1 <= order[k] <= PidStream.INT_MAX
      {
        var pid := order[i];
        if i + 1 > PidStream.MAX_REAPS_PER_PASS || pid == 0 || pid > PidStream.INT_MAX {
          OneFault(old(Here()), Here());
          Refuse();
          return false, found, told;
        }
        ghost var here, table, before := Here(), procs, signals;
        ok := Kill(Child(pid), number);
        OnwardTwice(old(Here()), here, Here());
        OnwardNow(old(Here()), here, Here());
        KeepsTwice(old(procs), table, procs, me);
        ChildrenKept(table, procs, me);
        TellsNext(before, signals, |old(signals)|, number, order, i, old(now), here.now, now,
                  |here.history|);
        told := told + 1;
        if !ok { return false, found, told; }
        found := true;
        i := i + 1;
      }
      assert order[..i] == order;
      ok := true;
    }

    static lemma TellsNext(before: seq<Signal>, after: seq<Signal>, n: nat, number: nat, order: seq<nat>, i: nat,
                           from: nat, at: nat, to: nat, moments: nat)
      requires i < |order| && n <= |before| && TellsInOrder(before, n, number, order[..i]) &&
               Sent(before, n, number, from, at)
      requires after == before + [Signal(Child(order[i]), number, at, moments)] && from <= at <= to
      ensures TellsInOrder(after, n, number, order[..i + 1]) && Sent(after, n, number, from, to)
    {
    }

    static lemma NothingTold(signals: seq<Signal>, number: nat)
      ensures TellsInOrder(signals, |signals|, number, [])
    {
    }

    static lemma SentEarlier(signals: seq<Signal>, n: nat, number: nat, from: nat, later: nat, to: nat)
      requires Sent(signals, n, number, later, to) && from <= later
      ensures Sent(signals, n, number, from, to)
    {
    }

    static lemma OnwardSame(w: World)
      ensures Onward(w, w)
    {
    }

    /** A failure put on record now. */
    static lemma OneFault(a: World, b: World)
      requires Onward(a, b)
      ensures Onward(a, b.(faults := b.faults + [b.now])) && Failing(a, b.(faults := b.faults + [b.now]))
    {
    }

    static lemma ChildrenKept(before: Table, after: Table, me: nat)
      requires KeepsChildren(before, after, me)
      ensures Children(before, me) <= Children(after, me)
    {
    }

    static lemma AllListed(text: string, order: seq<nat>)
      requires PidStream.Legal(text) && PidStream.Listed(text) == order && |order| <= PidStream.MAX_REAPS_PER_PASS
      requires forall k :: 0 <= k < |order| ==> 1 <= order[k] <= PidStream.INT_MAX
      ensures PidStream.Good(text, _ => true)
    {
      assert |PidStream.Words(text)| == |order|;
      hide PidStream.Words;
    }

    static lemma EachTold(signals: seq<Signal>, n: nat, number: nat, order: seq<nat>)
      requires TellsInOrder(signals, n, number, order)
      ensures forall c :: c in order ==> ChildTold(signals, n, c, number)
    {
      forall c | c in order ensures ChildTold(signals, n, c, number) {
        var k :| 0 <= k < |order| && order[k] == c;
        assert signals[n + k].to == Child(c);
      }
    }

    /** `reap_exited_children`. Success without live children means the tree is empty. */
    method ReapExited() returns (ok: bool, live: bool)
      requires Valid() && LeaderKnown()
      modifies `procs, `rank, `born, `births, `history, `now, `caught, `faults, `reaped, `record
      ensures Valid() && LeaderKnown() && Onward(old(Here()), Here())
      ensures record.leader == old(record).leader && record.birth == old(record).birth
      ensures old(record).reaped ==> record.reaped
      ensures ok && !live ==> born == {} && Children(procs, me) == {}
      ensures !ok ==> Failing(old(Here()), Here())
      ensures ok ==> faults == old(faults)
      ensures ok && live ==> Children(procs, me) != {}
    {
      hide Own, Children, Knows, NoRevival, Numbered, Onward, Tracked, Dated;
      live := false;
      OnwardSame(Here());
      var index := 0;
      while index < PidStream.MAX_REAPS_PER_PASS
        invariant Valid() && LeaderKnown() && Onward(old(Here()), Here())
        invariant record.leader == old(record).leader && record.birth == old(record).birth
        invariant old(record).reaped ==> record.reaped
        invariant faults == old(faults)
      {
        ghost var here := Here();
        var r := WaitAny();
        OnwardTwice(old(Here()), here, Here());
        match r {
          case Reaped(entry) =>
            if entry.pid == record.leader { record := record.(reaped := true, status := entry.status); }
          case NoneReady => return true, true;
          case Interrupted =>
          case NoChild => return true, false;
          case WaitError => return false, live;
        }
        index := index + 1;
      }
      OneFault(old(Here()), Here());
      Refuse();
      return false, live;
    }

    /** `poll_leader`: 1 once the leader is collected, 0 after the whole execution time,
        -1 on an error. The leader cannot be missing without having been collected. */
    method PollLeader() returns (result: int)
      requires Valid() && LeaderKnown() && !record.reaped
      modifies `procs, `rank, `born, `births, `history, `now, `caught, `faults, `reaped, `record
      ensures Valid() && LeaderKnown() && Onward(old(Here()), Here())
      ensures record.leader == old(record).leader && record.birth == old(record).birth
      ensures result == 1 ==> record.reaped
      ensures result == 0 ==> !record.reaped && now >= old(now) + EXECUTION_TIMEOUT
      ensures result >= 0 ==> faults == old(faults)
      ensures result == -1 ==> Failing(old(Here()), Here()) || (caught != 0 && !record.reaped)
      ensures -1 <= result <= 1
    {
      hide Own, Children, Knows, NoRevival, Numbered, KeepsChildren, Tracked, Dated;
      var ok, deadline := DeadlineAfter(EXECUTION_TIMEOUT);
      KnowsOn(record, old(Here()), Here(), me, reaped);
      if !ok { return -1; }
      while true
        invariant Valid() && LeaderKnown() && !record.reaped && Onward(old(Here()), Here()) && faults == old(faults)
        invariant record.leader == old(record).leader && record.birth == old(record).birth
        decreases if now < deadline then deadline - now else 0
      {
        ghost var a := Here();
        var done, live := ReapExited();
        ghost var b := Here();
        OnwardTwice(old(Here()), a, b);
        if !done { return -1; }
        if record.reaped { return 1; }
        StillThere(record, procs, births, me, reaped);
        if !live { assert false; }
        if caught != 0 { return -1; }
        var clocked, time := Clock();
        ghost var c := Here();
        KnowsOn(record, b, c, me, reaped);
        OnwardTwice(old(Here()), b, c);
        if !clocked { return -1; }
        if time >= deadline { return 0; }
        var delayed := Delay(POLL);
        KnowsOn(record, c, Here(), me, reaped);
        OnwardTwice(old(Here()), c, Here());
        if !delayed { return -1; }
      }
    }

    static lemma StillThere(r: Record, procs: Table, births: nat, me: nat, log: seq<Collected>)
      requires Knows(r, procs, births, me, log) && !r.reaped
      ensures r.leader in Children(procs, me)
    {
    }

    /** One round of a drain: signal the group, signal the children, collect. */
    method DrainPass(number: nat) returns (ok: bool, live: bool)
      requires Valid() && LeaderKnown() && forked
      modifies `procs, `rank, `born, `births, `history, `now, `caught, `faults, `reaped, `record, `signals
      ensures Valid() && LeaderKnown() && Onward(old(Here()), Here())
      ensures record.leader == old(record).leader && record.birth == old(record).birth
      ensures old(record).reaped ==> record.reaped
      ensures ok && !live ==> born == {} && Children(procs, me) == {}
      ensures old(signals) <= signals && Sent(signals, |old(signals)|, number, old(now), now)
      ensures ok ==> GroupTold(signals, |old(signals)|, record.leader, number)
      ensures ok ==> forall c :: c in Children(old(procs), me) ==> ChildTold(signals, |old(signals)|, c, number)
      ensures !ok ==> Failing(old(Here()), Here())
    {
      hide Own, Children, Knows, NoRevival, Numbered, KeepsChildren, Tracked, Dated;
      live := false;
      ok := Kill(Group(record.leader), number);
      ghost var a, first, table := Here(), signals, procs;
      ChildrenKept(old(procs), procs, me);
      KnowsOn(record, old(Here()), a, me, reaped);
      assert first[|old(signals)|].to == Group(record.leader);
      if !ok { return; }
      var found;
      ghost var text, told;
      ok, found, text, told := SignalAdopted(number);
      ghost var b := Here();
      KnowsOn(record, a, b, me, reaped);
      OnwardTwice(old(Here()), a, b);
      SentMore(first, signals, |old(signals)|, number, old(now), a.now, a.now, now);
      ToldMore(old(signals), first, signals, record.leader, number);
      if !ok { return; }
      ok, live := ReapExited();
      OnwardTwice(old(Here()), b, Here());
    }

    /** What was told in the later part was told. */
    static lemma ToldMore(a: seq<Signal>, b: seq<Signal>, c: seq<Signal>, leader: nat, number: nat)
      requires a <= b <= c
      ensures GroupTold(b, |a|, leader, number) ==> GroupTold(c, |a|, leader, number)
      ensures GroupTold(c, |b|, leader, number) ==> GroupTold(c, |a|, leader, number)
      ensures forall p :: ChildTold(c, |b|, p, number) ==> ChildTold(c, |a|, p, number)
    {
    }

    /** `drain_phase`: 1 when the tree is empty, 0 after the whole grace, -1 on an error. */
    method DrainPhase(number: nat, grace: nat) returns (result: int)
      requires Valid() && LeaderKnown() && forked
      modifies `procs, `rank, `born, `births, `history, `now, `caught, `faults, `reaped, `record, `signals
      ensures Valid() && LeaderKnown() && Onward(old(Here()), Here())
      ensures record.leader == old(record).leader && record.birth == old(record).birth
      ensures old(record).reaped ==> record.reaped
      ensures old(signals) <= signals && Sent(signals, |old(signals)|, number, old(now), now)
      ensures result == 1 ==> born == {} && Children(procs, me) == {}
      ensures result == 0 ==> now >= old(now) + grace
      ensures result >= 0 ==> GroupTold(signals, |old(signals)|, record.leader, number)
      ensures result == -1 ==> Failing(old(Here()), Here())
      ensures -1 <= result <= 1
    {
      hide Own, Children, Knows, NoRevival, Numbered, KeepsChildren, Sent, GroupTold, ChildTold, Onward, Tracked;
      hide Dated;
      var ok, deadline := DeadlineAfter(grace);
      KnowsOn(record, old(Here()), Here(), me, reaped);
      NothingSent(signals, number, old(now), now);
      if !ok { return -1; }
      while true
        invariant Valid() && LeaderKnown() && Onward(old(Here()), Here())
        invariant record.leader == old(record).leader && record.birth == old(record).birth
        invariant old(record).reaped ==> record.reaped
        invariant old(signals) <= signals && Sent(signals, |old(signals)|, number, old(now), now)
        decreases if now < deadline then deadline - now else 0
      {
        ghost var a, before := Here(), signals;
        var passed, live := DrainPass(number);
        ghost var b := Here();
        OnwardTwice(old(Here()), a, b);
        OnwardNow(old(Here()), a, b);
        SentMore(before, signals, |old(signals)|, number, old(now), a.now, a.now, now);
        ToldMore(old(signals), before, signals, record.leader, number);
        if !passed { return -1; }
        if !live { return 1; }
        var clocked, time := Clock();
        ghost var c := Here();
        KnowsOn(record, b, c, me, reaped);
        OnwardTwice(old(Here()), b, c);
        OnwardNow(old(Here()), b, c);
        SentLater(signals, |old(signals)|, number, old(now), b.now, c.now);
        if !clocked { return -1; }
        if time >= deadline { return 0; }
        var delayed := Delay(POLL);
        ghost var d := Here();
        KnowsOn(record, c, d, me, reaped);
        OnwardTwice(old(Here()), c, d);
        OnwardNow(old(Here()), c, d);
        SentLater(signals, |old(signals)|, number, old(now), c.now, d.now);
        if !delayed { return -1; }
      }
    }

    static lemma NothingSent(signals: seq<Signal>, number: nat, from: nat, to: nat)
      ensures Sent(signals, |signals|, number, from, to)
    {
    }

    static lemma OnwardNow(a: World, b: World, c: World)
      requires Onward(a, b) && Onward(b, c)
      ensures a.now <= b.now <= c.now
    {
    }

    static lemma SentLater(signals: seq<Signal>, n: nat, number: nat, from: nat, to: nat, later: nat)
      requires Sent(signals, n, number, from, to) && to <= later
      ensures Sent(signals, n, number, from, later)
    {
    }

    /** `terminate_and_reap_tree`: SIGTERM first; SIGKILL only once the grace has passed or
        something has failed. Result 1 means the tree is empty. */
    method TerminateAndReap() returns (result: int, ghost turn: World)
      requires Valid() && LeaderKnown() && forked
      modifies `procs, `rank, `born, `births, `history, `now, `caught, `faults, `reaped, `record, `signals,
               `terminations
      ensures Valid() && LeaderKnown() && Onward(old(Here()), Here())
      ensures record.leader == old(record).leader && record.birth == old(record).birth
      ensures old(record).reaped ==> record.reaped
      ensures old(signals) <= signals && Escalates(signals, |old(signals)|, record.leader, old(Here()), turn)
      ensures Onward(old(Here()), turn) && Onward(turn, Here())
      ensures terminations == old(terminations) + [Termination(old(Here()), result)]
      ensures result == 1 ==> born == {} && Children(procs, me) == {}
      ensures result == 0 ==> now >= turn.now + KILL_GRACE
      ensures result == -1 ==> Failing(old(Here()), Here())
      ensures -1 <= result <= 1
    {
      hide Own, Children, Knows, NoRevival, Numbered, Sent, Escalates, Due, GroupTold, Onward, Tracked, Dated;
      ghost var start := Here();
      result := DrainPhase(SIGTERM, TERM_GRACE);
      turn := Here();
      OnwardSame(turn);
      ghost var terms := signals;
      AllTerm(signals, |old(signals)|, record.leader, old(Here()), turn);
      if result == 1 {
        terminations := terminations + [Termination(start, 1)];
        return;
      }
      ItIsDue(signals, |old(signals)|, record.leader, old(Here()), turn, result);
      result := DrainPhase(SIGKILL, KILL_GRACE);
      ghost var b := Here();
      OnwardTwice(old(Here()), turn, b);
      ThenKill(terms, signals, |old(signals)|, record.leader, old(Here()), turn, now);
      if result != 1 {
        terminations := terminations + [Termination(start, result)];
        return;
      }
      var ok, live := ReapExited();
      OnwardTwice(old(Here()), b, Here());
      OnwardTwice(turn, b, Here());
      OnwardTimes(b, Here());
      NoChildrenNoDescendants(procs, rank, born, me);
      result := if !ok || live then -1 else 1;
      terminations := terminations + [Termination(start, result)];
    }

    static lemma ItIsDue(signals: seq<Signal>, n: nat, leader: nat, start: World, t: World, result: int)
      requires -1 <= result < 1
      requires result == 0 ==> t.now >= start.now + TERM_GRACE
      requires result >= 0 ==> GroupTold(signals, n, leader, SIGTERM)
      requires result == -1 ==> Failing(start, t)
      ensures Due(signals, n, leader, start, t)
    {
    }

    /** `main` from the subreaper check on. Every outcome but the three that say so leaves
        no process in the tree. An exit status is that of the last collection of the
        leader's id; the first is the leader's own, and the last is the leader's own
        exactly when the id was collected once. There is one termination, whose beginning
        is on record; all signals belong to it, and SIGKILL comes only when it is due,
        counted from there. `Tells` says what each outcome means. */
    method Run() returns (outcome: Outcome, ghost turn: World)
      requires Valid() && reaped == [] && signals == [] && !forked && terminations == []
      modifies this
      ensures Valid()
      ensures !outcome.HasChildren? && !outcome.NotEmptied? && !outcome.NotProvedEmpty? ==>
              born == {} && Children(procs, me) == {}
      ensures outcome.Supervised() <==> forked
      ensures !forked ==> reaped == [] && signals == [] && terminations == []
      ensures !forked ==> (outcome.HasChildren? <==> Children(procs, me) != {})
      ensures outcome.CannotFork? ==> Failing(old(Here()), Here())
      ensures forked ==>
        && Begun(history, record) && LogKnows(reaped, record.leader, record.birth)
        && AllStayInside(signals, history, record.leader)
        && |terminations| == 1 && greeting.Some?
        && old(now) <= greeting.value.at.now <= terminations[0].start.now <= turn.now <= now
        && Onward(greeting.value.at, terminations[0].start)
        && Onward(terminations[0].start, turn) && Onward(turn, Here())
        && Escalates(signals, 0, record.leader, terminations[0].start, turn)
        && Tells(outcome, greeting.value, terminations[0], record.leader, record.birth, me, caught)
        && (terminations[0].result == 0 ==> now >= turn.now + KILL_GRACE)
        && (terminations[0].result == -1 ==> Failing(terminations[0].start, Here()))
      ensures outcome.Ended? ==>
        LastOf(reaped, record.leader).Some? &&
        match LastOf(reaped, record.leader).value.status
        case Code(n) => outcome.exit == n
        case Killed(n) => outcome.exit == 128 + n
    {
      hide Own, Children, KeepsChildren, NoRevival, Numbered, Knows, LogKnows, Escalates, Onward, Begun, Tracked;
      hide Dated, AllStayInside, Tells;
      Others();
      OnwardTimes(old(Here()), Here());
      turn := Here();
      NoChildrenNoDescendants(procs, rank, born, me);
      if Children(procs, me) != {} { return HasChildren, turn; }
      var able := Call();
      OnwardTimes(turn, Here());
      OnwardTwice(old(Here()), turn, Here());
      if !able {
        NoChildrenNoDescendants(procs, rank, born, me);
        return CannotFork, turn;
      }
      Fork();
      outcome, turn := Supervise();
    }

    /** The part of `main` after the fork. */
    method Supervise() returns (outcome: Outcome, ghost turn: World)
      requires Valid() && LeaderKnown() && !record.reaped && forked && Begun(history, record)
      requires signals == [] && terminations == []
      modifies `procs, `rank, `born, `births, `history, `now, `caught, `faults, `reaped, `record, `signals, `greeting,
               `terminations
      ensures Valid() && outcome.Supervised()
      ensures !outcome.NotEmptied? && !outcome.NotProvedEmpty? ==> born == {} && Children(procs, me) == {}
      ensures Begun(history, record) && LogKnows(reaped, record.leader, record.birth)
      ensures AllStayInside(signals, history, record.leader)
      ensures |terminations| == 1 && greeting.Some?
      ensures old(now) <= greeting.value.at.now <= terminations[0].start.now <= turn.now <= now
      ensures Onward(greeting.value.at, terminations[0].start)
      ensures Onward(terminations[0].start, turn) && Onward(turn, Here())
      ensures Escalates(signals, 0, record.leader, terminations[0].start, turn)
      ensures Tells(outcome, greeting.value, terminations[0], record.leader, record.birth, me, caught)
      ensures terminations[0].result == 0 ==> now >= turn.now + KILL_GRACE
      ensures terminations[0].result == -1 ==> Failing(terminations[0].start, Here())
      ensures outcome.Ended? ==>
        LastOf(reaped, record.leader).Some? &&
        match LastOf(reaped, record.leader).value.status
        case Code(n) => outcome.exit == n
        case Killed(n) => outcome.exit == 128 + n
    {
      hide Own, Children, KeepsChildren, NoRevival, Numbered, Knows, LogKnows, Escalates, Onward, Begun, Tracked;
      hide Dated, AllStayInside, Gone, LastOf, Tells;
      ghost var there, known := Here(), record;
      var ready := Handshake();
      OnwardTimes(there, Here());
      BegunOn(there, Here(), known, record);
      ghost var waiting := Here();
      if !ready {
        var emptied;
        OnwardSame(waiting);
        emptied, turn := Terminate();
        outcome := if emptied != 1 then NotEmptied else HandshakeFailed;
        TellsNoHandshake(outcome, greeting.value, terminations[0], record.leader, record.birth, me, caught);
        return;
      }
      var waited := PollLeader();
      OnwardTimes(waiting, Here());
      BegunOn(waiting, Here(), known, record);
      LeaderNow(record, procs, births, me, reaped);
      LeaderStays(record, procs, me);
      ghost var polled := Here();
      var cleanup;
      cleanup, turn := Terminate();
      OnwardCatches(polled, turn, Here());
      outcome := Conclude(waited, cleanup, caught, record, greeting.value, terminations[0], me);
    }

    /** The last lines of `main`. */
    static method Conclude(waited: int, cleanup: int, caught: nat, record: Record, ghost g: Greeting,
                           ghost t: Termination, ghost me: nat) returns (o: Outcome)
      requires g.ready && t.result == cleanup && -1 <= waited <= 1 && (t.start.caught != 0 ==> caught != 0)
      requires waited >= 0 ==> !Failing(g.at, t.start)
      requires waited == 1 ==> Gone(t.start.procs, record.birth)
      requires waited == 0 ==>
        && t.start.now >= g.at.now + EXECUTION_TIMEOUT && !Gone(t.start.procs, record.birth)
        && record.leader in Children(t.start.procs, me) && t.start.procs[record.leader].birth == record.birth
      requires waited == -1 ==> Failing(g.at, t.start) || (t.start.caught != 0 && !Gone(t.start.procs, record.birth))
      ensures Tells(o, g, t, record.leader, record.birth, me, caught)
      ensures o.Supervised() && (o.NotProvedEmpty? <==> cleanup != 1) && !o.NotEmptied?
      ensures o.Ended? ==>
        waited == 1 && match record.status case Code(n) => o.exit == n case Killed(n) => o.exit == 128 + n
    {
      hide Gone, Children;
      if cleanup != 1 { return NotProvedEmpty; }
      if waited == 0 { return TimedOut; }
      if waited < 0 {
        if caught != 0 { return Caught(caught); }
        return NotSupervised;
      }
      return Ended(ExitStatus(record.status));
    }

    /** The only termination of a run, and what it leaves. */
    method Terminate() returns (result: int, ghost turn: World)
      requires Valid() && LeaderKnown() && forked && Begun(history, record) && signals == [] && terminations == []
      modifies `procs, `rank, `born, `births, `history, `now, `caught, `faults, `reaped, `record, `signals,
               `terminations
      ensures Valid() && Begun(history, record) && LogKnows(reaped, record.leader, record.birth)
      ensures AllStayInside(signals, history, record.leader)
      ensures record.leader == old(record).leader && record.birth == old(record).birth
      ensures old(record).reaped ==> record.reaped
      ensures record.reaped ==>
        LastOf(reaped, record.leader).Some? && LastOf(reaped, record.leader).value.status == record.status
      ensures terminations == [Termination(old(Here()), result)] && old(now) <= turn.now <= now
      ensures Onward(old(Here()), turn) && Onward(turn, Here())
      ensures Escalates(signals, 0, record.leader, old(Here()), turn)
      ensures result == 1 ==> born == {} && Children(procs, me) == {}
      ensures result == 0 ==> now >= turn.now + KILL_GRACE
      ensures result == -1 ==> Failing(old(Here()), Here())
    {
      hide Own, Children, NoRevival, Numbered, Knows, LogKnows, Escalates, Onward, Begun, Tracked, Dated;
      hide AllStayInside;
      result, turn := TerminateAndReap();
      OnwardTwice(old(Here()), turn, Here());
      OnwardNow(old(Here()), turn, Here());
      BegunOn(old(Here()), Here(), old(record), record);
      KnowsLog(record, procs, births, me, reaped);
      SignalsStay(signals, history, Moment(procs, born), me, record);
    }

    static lemma OnwardCatches(a: World, b: World, c: World)
      requires Onward(a, b) && Onward(b, c)
      ensures a.caught != 0 ==> c.caught != 0
    {
    }

    /** Whoever is a child is not gone. */
    static lemma LeaderStays(r: Record, procs: Table, me: nat)
      ensures r.leader in Children(procs, me) && procs[r.leader].birth == r.birth ==> !Gone(procs, r.birth)
    {
    }

    static lemma LeaderNow(r: Record, procs: Table, births: nat, me: nat, log: seq<Collected>)
      requires Knows(r, procs, births, me, log)
      ensures r.reaped ==> Gone(procs, r.birth)
      ensures !r.reaped ==> r.leader in Children(procs, me) && procs[r.leader].birth == r.birth
    {
    }

    static lemma OnwardTimes(a: World, b: World)
      requires Onward(a, b)
      ensures a.now <= b.now && (a.born == {} ==> b.born == {})
    {
    }

    static lemma KnowsLog(r: Record, procs: Table, births: nat, me: nat, log: seq<Collected>)
      requires Knows(r, procs, births, me, log)
      ensures LogKnows(log, r.leader, r.birth)
      ensures r.reaped ==> LastOf(log, r.leader).Some? && LastOf(log, r.leader).value.status == r.status
    {
    }

    /** `fork`, seen from the parent: the leader is a child under a free id. */
    method Fork()
      requires Valid() && reaped == [] && signals == [] && !forked
      modifies `procs, `rank, `born, `births, `history, `forked, `now, `caught, `record
      ensures Valid() && LeaderKnown() && !record.reaped && now >= old(now) && forked && Begun(history, record)
    {
      hide Own, NoRevival, Numbered, KeepsChildren, Knows, Begun, Tracked, Dated, Onward;
      NewLeader();
      ghost var here := Here();
      Others();
      OnwardTimes(here, Here());
      KnowsOn(record, here, Here(), me, reaped);
      BegunOn(here, Here(), record, record);
    }

    method NewLeader()
      requires Valid() && reaped == [] && signals == [] && !forked
      modifies `procs, `rank, `born, `births, `history, `forked, `record
      ensures Valid() && LeaderKnown() && !record.reaped && forked && Begun(history, record)
    {
      hide Own, Children, Forked, ForkedRank, NoRevival, Numbered, Knows, Begun, Tracked, Dated, IdFree;
      OwnHere(procs, rank, born, me);
      var child := Unused(procs);
      FreeIsUnused(procs, child);
      OwnFork(procs, rank, born, me, child, births);
      record := Record(child, births, false, Code(0));
      procs := Forked(procs, me, child, births);
      rank := ForkedRank(rank, me, child);
      born := born + {child};
      births := births + 1;
      history, forked := [Moment(procs, born)], true;
      BeginHistory(old(procs), old(born), me, record, signals);
      KnowsNew(record, procs, births, me);
    }

    static lemma OwnHere(procs: Table, rank: map<nat, nat>, born: set<nat>, me: nat)
      requires Own(procs, rank, born, me)
      ensures me in procs
    {
    }

    static lemma FreeIsUnused(procs: Table, id: nat)
      requires IdFree(procs, id)
      ensures id !in procs
    {
    }

    static lemma BeginHistory(procs: Table, born: set<nat>, me: nat, r: Record, signals: seq<Signal>)
      requires IdFree(procs, r.leader) && me in procs && signals == []
      ensures
        var m := Moment(Forked(procs, me, r.leader, r.birth), born + {r.leader});
        Begun([m], r) && Tracked([m], m, me) && Dated(signals, [m], me, r.leader)
    {
    }

    static lemma KnowsNew(r: Record, procs: Table, births: nat, me: nat)
      requires r.leader in Children(procs, me) && procs[r.leader].birth == r.birth < births && !r.reaped
      ensures Knows(r, procs, births, me, [])
    {
    }

    /** The parent's side of the handshake, as far as the tree is concerned: time passes. */
    method Handshake() returns (ready: bool)
      requires Valid() && LeaderKnown() && !record.reaped
      modifies `procs, `rank, `born, `births, `history, `now, `caught, `greeting
      ensures Valid() && LeaderKnown() && Onward(old(Here()), Here())
      ensures greeting == Some(Greeting(ready, Here()))
    {
      hide Own, KeepsChildren, NoRevival, Numbered, Knows, Tracked, Dated;
      Others();
      KnowsOn(record, old(Here()), Here(), me, reaped);
      ready := *;
      greeting := Some(Greeting(ready, Here()));
    }
  }

  /** Some id that no process and no group has. */
  method Unused(procs: Table) returns (id: nat)
    ensures IdFree(procs, id) && id > 1
  {
    var wish: int := *;
    if wish > 1 && IdFree(procs, wish) { return wish; }
    var top := 1;
    var rest := procs.Keys;
    while rest != {}
      invariant rest <= procs.Keys && top >= 1
      invariant forall p :: p in procs && p !in rest ==> p <= top && procs[p].group <= top
      decreases |rest|
    {
      var p :| p in rest;
      if p > top { top := p; }
      if procs[p].group > top { top := procs[p].group; }
      rest := rest - {p};
    }
    return top + 1;
  }
}
