/** The handshake between the launcher and the child it forks, as a transition system:
    either side may be delayed, time out, fail or die at any point. */
module Handshake {
  import opened Wrappers

  const POLICY_FD: nat := 240
  const CAPABILITY_FD: nat := 241
  const EXECUTABLE_FD: nat := 242

  const READY: string := "FE2O3-AUTHORITY-READY-V1\0"
  const ALLOW: string := "FE2O3-AUTHORITY-EXEC-V1\0"

  // ---------- descriptors ----------

  datatype File = PolicyFile | CapabilitySocket | ExecutableFile | Other(id: nat, readOnly: bool, socket: bool)

  datatype Descriptor = Descriptor(file: File, cloexec: bool)

  type Descriptors = map<nat, Descriptor>

  predicate ReadOnly(f: File) { f.PolicyFile? || f.ExecutableFile? || (f.Other? && f.readOnly) }

  predicate Socket(f: File) { f.CapabilitySocket? || (f.Other? && f.socket) }

  /** `install_fixed_descriptor`. */
  function Install(fds: Descriptors, source: nat, destination: nat, cloexec: bool): Option<Descriptors> {
    if source !in fds then None
    else if source == destination then Some(fds[destination := fds[destination].(cloexec := cloexec)])
    else Some(fds[destination := Descriptor(fds[source].file, cloexec)])
  }

  const KEPT: set<nat> := {0, 1, 2, POLICY_FD, CAPABILITY_FD, EXECUTABLE_FD}

  /** `close_child_descriptors`. */
  function CloseRest(fds: Descriptors): Descriptors { map f | f in fds && f in KEPT :: fds[f] }

  /** `verify_child_descriptors`. */
  predicate Verified(fds: Descriptors) {
    && POLICY_FD in fds && ReadOnly(fds[POLICY_FD].file) && !fds[POLICY_FD].cloexec
    && CAPABILITY_FD in fds && Socket(fds[CAPABILITY_FD].file) && !fds[CAPABILITY_FD].cloexec
    && EXECUTABLE_FD in fds && fds[EXECUTABLE_FD].cloexec
  }

  /** What an exec leaves open. */
  function AfterExec(fds: Descriptors): Descriptors { map f | f in fds && !fds[f].cloexec :: fds[f] }

  /** The child's inherited descriptors and which of them hold the three objects. */
  datatype Config = Config(pid: nat, fds: Descriptors, policy: nat, capability: nat, executable: nat)

  predicate Inherited(c: Config) {
    && 0 in c.fds && 1 in c.fds && 2 in c.fds
    && !c.fds[0].cloexec && !c.fds[1].cloexec && !c.fds[2].cloexec
    && c.policy in c.fds && c.fds[c.policy].file == PolicyFile && c.policy > 2
    && c.capability in c.fds && c.fds[c.capability].file == CapabilitySocket && c.capability > 2
    && c.executable in c.fds && c.fds[c.executable].file == ExecutableFile && c.executable > 2
  }

  /** No source is overwritten by an earlier install. */
  predicate Unharmed(c: Config) {
    c.capability != POLICY_FD && c.executable != POLICY_FD && c.executable != CAPABILITY_FD
  }

  /** The descriptors before child step `n`. */
  function Stage(c: Config, n: nat): Option<Descriptors> {
    if n <= 4 then Some(c.fds)
    else match Stage(c, n - 1)
      case None => None
      case Some(fds) =>
        if n == 5 then Install(fds, c.policy, POLICY_FD, false)
        else if n == 6 then Install(fds, c.capability, CAPABILITY_FD, false)
        else if n == 7 then Install(fds, c.executable, EXECUTABLE_FD, true)
        else if n == 8 then Some(CloseRest(fds))
        else Some(fds)
  }

  /** The three objects are in their places. */
  predicate InPlace(fds: Descriptors) {
    && fds.Keys == KEPT
    && fds[POLICY_FD] == Descriptor(PolicyFile, false)
    && fds[CAPABILITY_FD] == Descriptor(CapabilitySocket, false)
    && fds[EXECUTABLE_FD] == Descriptor(ExecutableFile, true)
    && !fds[0].cloexec && !fds[1].cloexec && !fds[2].cloexec
  }

  lemma Stages(c: Config) returns (f5: Descriptors, f6: Descriptors, f7: Descriptors)
    requires Inherited(c)
    ensures Some(f5) == Install(c.fds, c.policy, POLICY_FD, false)
    ensures Some(f6) == Install(f5, c.capability, CAPABILITY_FD, false)
    ensures Some(f7) == Install(f6, c.executable, EXECUTABLE_FD, true)
    ensures Stage(c, 8) == Some(CloseRest(f7))
  {
    StageInstalls(c, 4, c.fds);
    f5 := Stage(c, 5).value;
    StageInstalls(c, 5, f5);
    f6 := Stage(c, 6).value;
    StageInstalls(c, 6, f6);
    f7 := Stage(c, 7).value;
    StageInstalls(c, 7, f7);
  }

  /** The installs put every object in its place exactly when none of the sources is
      overwritten by an earlier install. */
  lemma InstallExact(c: Config)
    requires Inherited(c)
    ensures Stage(c, 8).Some?
    ensures InPlace(Stage(c, 8).value) <==> Unharmed(c)
  {
    var f5, f6, f7 := Stages(c);
    assert CloseRest(f7).Keys == KEPT;
  }

  /** The check after the installs passes exactly when the capability was not overwritten.
      It misses exactly an overwritten executable. */
  lemma CheckExact(c: Config)
    requires Inherited(c)
    ensures Stage(c, 8).Some? && (Verified(Stage(c, 8).value) <==> c.capability != POLICY_FD)
    ensures Verified(Stage(c, 8).value) && !InPlace(Stage(c, 8).value) <==>
      c.capability != POLICY_FD && c.executable in {POLICY_FD, CAPABILITY_FD}
    ensures c.capability != POLICY_FD && c.executable in {POLICY_FD, CAPABILITY_FD} ==>
      Stage(c, 8).value[EXECUTABLE_FD].file != ExecutableFile
  {
    InstallExact(c);
    var f5, f6, f7 := Stages(c);
    hide InPlace, Stage;
  }

  /** A descriptor is opened at the lowest free number. */
  function LowestFree(open: set<nat>, from: nat): (n: nat)
    ensures n >= from && n !in open && forall k :: from <= k < n ==> k in open
    decreases set k | k in open && k >= from
  {
    if from !in open then from
    else
      var more, rest := set k | k in open && k >= from, set k | k in open && k >= from + 1;
      assert from in more && from !in rest && rest <= more;
      LowestFree(open, from + 1)
  }

  lemma FreeIs(open: set<nat>, n: nat)
    requires n !in open && forall k :: 0 <= k < n ==> k in open
    ensures LowestFree(open, 0) == n
  {
  }

  /** With 0 to 2 open and nothing else, the opens and closes of `main` give the child its
      objects at 5, 7 and 4, clear of the fixed places. */
  lemma MainAllocates(open: set<nat>)
    requires open == {0, 1, 2}
    ensures
      var launcher := LowestFree(open, 0);
      var executable := LowestFree(open + {launcher}, 0);
      var policy := LowestFree(open + {launcher, executable}, 0);
      var children := LowestFree(open + {executable, policy}, 0);
      var first := LowestFree(open + {executable, policy, children}, 0);
      var capability := LowestFree(open + {executable, policy, children, first}, 0);
      policy == 5 && capability == 7 && executable == 4
  {
    FreeIs(open, 3);
    FreeIs(open + {3}, 4);
    FreeIs(open + {3, 4}, 5);
    FreeIs(open + {4, 5}, 3);
    FreeIs(open + {4, 5, 3}, 6);
    FreeIs(open + {4, 5, 3, 6}, 7);
  }

  // ---------- the two programs ----------

  datatype Event = LedGroup | Installed | SentReady | GotReady | SawGroup | SentAllow | GotAllow | Execed

  /** The only order in which the events can happen. */
  const SCRIPT: seq<Event> := [LedGroup, Installed, SentReady, GotReady, SawGroup, SentAllow, GotAllow, Execed]

  // The steps of the child, in order.
  const CLOSE_OTHER_END: nat := 0
  const LEAD_GROUP: nat := 1
  const SET_DEATH_SIGNAL: nat := 2
  const CHECK_PARENT: nat := 3
  const INSTALL_POLICY: nat := 4
  const INSTALL_CAPABILITY: nat := 5
  const INSTALL_EXECUTABLE: nat := 6
  const CLOSE_REST: nat := 7
  const VERIFY: nat := 8
  const TIDY: nat := 9
  const SEND_READY: nat := 10
  const AWAIT: nat := 11
  const RECEIVE_ALLOW: nat := 12
  const RESET_SIGNALS: nat := 13
  const EXEC: nat := 14
  const RUNNING: nat := 15  // the executed program
  const GONE: nat := 16

  // The steps of the launcher.
  const CLOSE_CHILD_END: nat := 0
  const AWAIT_READY: nat := 1
  const RECEIVE_READY: nat := 2
  const SEE_GROUP: nat := 3
  const SEND_ALLOW: nat := 4
  const SUPERVISE: nat := 5
  const CLOSED: nat := 6  // its end of the socket
  const DEAD: nat := 7

  datatype System = System(
    parent: nat, child: nat, group: nat, deathSignal: bool, fds: Descriptors,
    toParent: seq<string>, toChild: seq<string>, log: seq<Event>)

  /** `recv` cuts a message to the size of the buffer. */
  function Received(message: string, size: nat): string {
    if |message| <= size then message else message[..size]
  }

  predicate Init(c: Config, s: System) {
    && s.parent == 0 && s.child == 0 && s.group != c.pid && !s.deathSignal && s.fds == c.fds
    && s.toParent == [] && s.toChild == [] && s.log == []
  }

  /** The state after the child's next call succeeds, if it can. */
  function ChildNext(c: Config, s: System): Option<System>
    requires s.child < RUNNING
  {
    var next := s.(child := s.child + 1);
    if s.child == LEAD_GROUP then Some(next.(group := c.pid, log := s.log + [LedGroup]))
    else if s.child == SET_DEATH_SIGNAL then Some(next.(deathSignal := true))
    else if s.child == CHECK_PARENT then if s.parent == DEAD then None else Some(next)
    else if s.child == INSTALL_POLICY then InstallNext(next, c.policy, POLICY_FD, false)
    else if s.child == INSTALL_CAPABILITY then InstallNext(next, c.capability, CAPABILITY_FD, false)
    else if s.child == INSTALL_EXECUTABLE then InstallNext(next, c.executable, EXECUTABLE_FD, true)
    else if s.child == CLOSE_REST then Some(next.(fds := CloseRest(s.fds)))
    else if s.child == VERIFY then if Verified(s.fds) then Some(next.(log := s.log + [Installed])) else None
    else if s.child == SEND_READY then
      if s.parent >= CLOSED then None else Some(next.(toParent := s.toParent + [READY], log := s.log + [SentReady]))
    else if s.child == AWAIT then if s.toChild == [] && s.parent < CLOSED then None else Some(next)
    else if s.child == RECEIVE_ALLOW then
      if s.toChild != [] && Received(s.toChild[0], |ALLOW|) == ALLOW
      then Some(next.(toChild := s.toChild[1..], log := s.log + [GotAllow])) else None
    else if s.child == EXEC then Some(next.(fds := AfterExec(s.fds), log := s.log + [Execed]))
    else Some(next)
  }

  function InstallNext(s: System, source: nat, destination: nat, cloexec: bool): Option<System> {
    match Install(s.fds, source, destination, cloexec)
    case None => None
    case Some(fds) => Some(s.(fds := fds))
  }

  /** The state after the launcher's next call succeeds, if it can. */
  function ParentNext(c: Config, s: System): Option<System>
    requires s.parent <= SUPERVISE
  {
    var next := s.(parent := s.parent + 1);
    if s.parent == AWAIT_READY then if s.toParent == [] && s.child != GONE then None else Some(next)
    else if s.parent == RECEIVE_READY then
      if s.toParent != [] && Received(s.toParent[0], |READY|) == READY
      then Some(next.(toParent := s.toParent[1..], log := s.log + [GotReady])) else None
    else if s.parent == SEE_GROUP then if s.group == c.pid then Some(next.(log := s.log + [SawGroup])) else None
    else if s.parent == SEND_ALLOW then
      if s.child == GONE then None else Some(next.(toChild := s.toChild + [ALLOW], log := s.log + [SentAllow]))
    else Some(next)
  }

  /** The launcher dies: its end closes, and the death signal takes the child along. */
  function ParentDies(s: System): System {
    s.(parent := DEAD, child := if s.deathSignal then GONE else s.child)
  }

  /** One step of either side. The executed program may do anything to what it holds. */
  ghost predicate Step(c: Config, s: System, t: System) {
    || (s.child < RUNNING && ChildNext(c, s) == Some(t))
    || (s.child < GONE && t == s.(child := GONE))
    || (s.parent <= SUPERVISE && ParentNext(c, s) == Some(t))
    || (s.parent <= SUPERVISE && t == s.(parent := CLOSED))
    || (s.parent < DEAD && t == ParentDies(s))
    || (s.child == RUNNING && t == s.(group := t.group, fds := t.fds, toParent := t.toParent, toChild := t.toChild,
                                      deathSignal := t.deathSignal))
  }

  ghost predicate Run(c: Config, run: seq<System>) {
    && |run| > 0 && Init(c, run[0])
    && forall i, j :: 0 <= i < j < |run| && j == i + 1 ==> Step(c, run[i], run[j])
  }

  // ---------- the invariant ----------

  /** How far the log is, as far as the child's position tells. */
  predicate ChildLog(child: nat, n: nat) {
    && (child <= LEAD_GROUP ==> n == 0) && (LEAD_GROUP < child <= VERIFY ==> n == 1)
    && (VERIFY < child <= SEND_READY ==> n == 2) && (SEND_READY < child <= RECEIVE_ALLOW ==> 3 <= n <= 6)
    && (RECEIVE_ALLOW < child <= EXEC ==> n == 7) && (child == RUNNING ==> n == 8)
  }

  predicate ParentLog(parent: nat, n: nat) {
    && (parent <= RECEIVE_READY ==> n <= 3) && (parent == SEE_GROUP ==> n == 4) && (parent == SEND_ALLOW ==> n == 5)
    && (parent == SUPERVISE ==> n >= 6) && (n >= 6 ==> parent >= SUPERVISE)
  }

  predicate Messages(s: System) {
    |s.log| < 8 ==>
      && s.toParent == (if |s.log| == 3 then [READY] else [])
      && s.toChild == (if |s.log| == 6 then [ALLOW] else [])
  }

  ghost predicate Inv(c: Config, s: System) {
    && s.log <= SCRIPT && ChildLog(s.child, |s.log|) && ParentLog(s.parent, |s.log|) && Messages(s)
    && (1 <= |s.log| < 8 ==> s.group == c.pid)
    && (SET_DEATH_SIGNAL < s.child < RUNNING ==> s.deathSignal)
    && (s.parent == DEAD ==> s.child <= CHECK_PARENT || s.child >= RUNNING)
    && (s.child < RUNNING ==> Stage(c, s.child) == Some(s.fds))
    && s.child <= GONE && s.parent <= DEAD
  }

  lemma StageNext(c: Config, n: nat)
    requires n < RUNNING - 1
    ensures n < 4 ==> Stage(c, n + 1) == Stage(c, n)
    ensures n >= 8 ==> Stage(c, n + 1) == Stage(c, n)
  {
  }

  lemma ScriptNext(log: seq<Event>, e: Event)
    requires log <= SCRIPT && |log| < 8 && e == SCRIPT[|log|]
    ensures log + [e] <= SCRIPT
  {
  }

  /** Steps without an event or a change of descriptors. */
  predicate IsQuiet(child: nat) {
    child in {CLOSE_OTHER_END, SET_DEATH_SIGNAL, CHECK_PARENT, TIDY, AWAIT, RESET_SIGNALS}
  }

  predicate IsEvent(child: nat) { child in {LEAD_GROUP, VERIFY, SEND_READY, RECEIVE_ALLOW, EXEC} }

  lemma ChildQuiet(c: Config, s: System, t: System)
    requires Inv(c, s) && IsQuiet(s.child) && ChildNext(c, s) == Some(t)
    ensures Inv(c, t)
  {
    StageNext(c, s.child);
    hide Stage;
  }

  lemma ChildInstalls(c: Config, s: System, t: System)
    requires Inv(c, s) && INSTALL_POLICY <= s.child <= CLOSE_REST && ChildNext(c, s) == Some(t)
    ensures Inv(c, t)
  {
    StageInstalls(c, s.child, s.fds);
    hide Stage, Install, CloseRest;
  }

  lemma ChildEvent(c: Config, s: System, t: System)
    requires Inv(c, s) && IsEvent(s.child) && ChildNext(c, s) == Some(t)
    ensures Inv(c, t)
  {
    if s.child < RUNNING - 1 { StageNext(c, s.child); }
    hide Stage, Verified, AfterExec;
    ScriptNext(s.log, t.log[|s.log|]);
  }

  lemma ChildKeeps(c: Config, s: System, t: System)
    requires Inv(c, s) && s.child < RUNNING && ChildNext(c, s) == Some(t)
    ensures Inv(c, t)
  {
    hide Inv, ChildNext;
    if IsQuiet(s.child) {
      ChildQuiet(c, s, t);
    } else if INSTALL_POLICY <= s.child <= CLOSE_REST {
      ChildInstalls(c, s, t);
    } else {
      ChildEvent(c, s, t);
    }
  }

  /** The child's steps do to the descriptors what the stages say. */
  lemma StageInstalls(c: Config, n: nat, fds: Descriptors)
    requires Stage(c, n) == Some(fds) && n < RUNNING
    ensures n == 4 ==> Stage(c, 5) == Install(fds, c.policy, POLICY_FD, false)
    ensures n == 5 ==> Stage(c, 6) == Install(fds, c.capability, CAPABILITY_FD, false)
    ensures n == 6 ==> Stage(c, 7) == Install(fds, c.executable, EXECUTABLE_FD, true)
    ensures n == 7 ==> Stage(c, 8) == Some(CloseRest(fds))
  {
  }

  lemma ParentQuiet(c: Config, s: System, t: System)
    requires Inv(c, s) && s.parent in {CLOSE_CHILD_END, AWAIT_READY, SUPERVISE} && ParentNext(c, s) == Some(t)
    ensures Inv(c, t)
  {
    hide Stage;
  }

  lemma ParentEvent(c: Config, s: System, t: System)
    requires Inv(c, s) && s.parent in {RECEIVE_READY, SEE_GROUP, SEND_ALLOW} && ParentNext(c, s) == Some(t)
    ensures Inv(c, t)
  {
    hide Stage;
    ScriptNext(s.log, t.log[|s.log|]);
  }

  /** A side stops, or the executed program acts. */
  lemma OtherKeeps(c: Config, s: System, t: System)
    requires Inv(c, s) && Step(c, s, t)
    requires !(s.child < RUNNING && ChildNext(c, s) == Some(t)) &&
             !(s.parent <= SUPERVISE && ParentNext(c, s) == Some(t))
    ensures Inv(c, t) && t.log == s.log
  {
    hide Stage, ChildNext, ParentNext;
  }

  lemma StepKeeps(c: Config, s: System, t: System)
    requires Inv(c, s) && Step(c, s, t)
    ensures Inv(c, t)
  {
    if s.child < RUNNING && ChildNext(c, s) == Some(t) {
      hide Inv, ChildNext;
      ChildKeeps(c, s, t);
    } else if s.parent <= SUPERVISE && ParentNext(c, s) == Some(t) {
      hide Inv, ParentNext, Step;
      if s.parent in {RECEIVE_READY, SEE_GROUP, SEND_ALLOW} { ParentEvent(c, s, t); } else { ParentQuiet(c, s, t); }
    } else {
      OtherKeeps(c, s, t);
    }
  }

  /** Every state of every run satisfies the invariant; in particular the events have
      happened in the order of the script. */
  lemma {:induction false} RunKeeps(c: Config, run: seq<System>, i: nat)
    requires Run(c, run) && i < |run|
    ensures Inv(c, run[i]) && run[i].log <= SCRIPT
  {
    if i > 0 {
      RunKeeps(c, run, i - 1);
      assert Step(c, run[i - 1], run[i]);
      StepKeeps(c, run[i - 1], run[i]);
    } else {
      hide Step;
    }
  }

  // ---------- what the steps of a run have done ----------

  /** What it means for the event number `k` of the script to happen in a step. */
  ghost predicate Happens(c: Config, s: System, t: System, k: nat) {
    && |s.log| == k && |t.log| == k + 1
    && match k
       case 0 => t.group == c.pid
       case 1 => Verified(s.fds) && Stage(c, 8) == Some(s.fds)
       case 2 => t.toParent == [READY]
       case 3 => s.parent == RECEIVE_READY && s.toParent == [READY]
       case 4 => s.parent == SEE_GROUP && s.group == c.pid
       case 5 => s.parent == SEND_ALLOW && t.toChild == [ALLOW]
       case 6 => s.child == RECEIVE_ALLOW && s.toChild == [ALLOW]
       case 7 => s.child == EXEC && t.child == RUNNING
       case _ => false
  }

  lemma LogGrows(c: Config, s: System, t: System)
    requires Inv(c, s) && Step(c, s, t)
    ensures t.log == s.log || Happens(c, s, t, |s.log|)
  {
    if s.child < RUNNING && ChildNext(c, s) == Some(t) {
      if s.child == VERIFY { StageNext(c, VERIFY); }
      hide Stage, Install, CloseRest, Verified, AfterExec;
    } else if s.parent <= SUPERVISE && ParentNext(c, s) == Some(t) {
      hide Stage;
    } else {
      OtherKeeps(c, s, t);
    }
  }

  lemma StepAt(c: Config, run: seq<System>, i: nat)
    requires Run(c, run) && i + 1 < |run|
    ensures Inv(c, run[i]) && Step(c, run[i], run[i + 1])
  {
    RunKeeps(c, run, i);
    hide Inv, Step;
  }

  /** Every event in the log of a run happened in one of its steps. */
  lemma {:induction false} Happened(c: Config, run: seq<System>, e: nat, k: nat) returns (i: nat)
    requires Run(c, run) && e < |run| && k < |run[e].log|
    ensures i < e && Happens(c, run[i], run[i + 1], k)
    decreases e
  {
    hide Happens, Step, Inv;
    if e == 0 { assert false; }
    hide Run;
    StepAt(c, run, e - 1);
    LogGrows(c, run[e - 1], run[e]);
    if k < |run[e - 1].log| {
      i := Happened(c, run, e - 1, k);
    } else {
      HappensAt(c, run[e - 1], run[e], |run[e - 1].log|);
      i := e - 1;
    }
  }

  lemma HappensAt(c: Config, s: System, t: System, k: nat)
    requires t.log == s.log || Happens(c, s, t, k)
    ensures t.log != s.log ==> |s.log| == k && |t.log| == k + 1
  {
  }

  lemma {:induction false} LogMonotone(c: Config, run: seq<System>, i: nat, j: nat)
    requires Run(c, run) && i <= j < |run|
    ensures |run[i].log| <= |run[j].log|
    decreases j
  {
    hide Happens, Step, Inv, Run;
    if i < j {
      LogMonotone(c, run, i, j - 1);
      StepAt(c, run, j - 1);
      LogGrows(c, run[j - 1], run[j]);
      HappensAt(c, run[j - 1], run[j], |run[j - 1].log|);
    }
  }

  lemma InOrder(c: Config, run: seq<System>, i: nat, j: nat, k: nat)
    requires Run(c, run) && i + 1 < |run| && j + 1 < |run|
    requires Happens(c, run[i], run[i + 1], k) && Happens(c, run[j], run[j + 1], k + 1)
    ensures i < j
  {
    hide Step, Run;
    if j <= i { LogMonotone(c, run, j + 1, i + 1); }
  }

  lemma {:induction false} StageFixed(c: Config, n: nat)
    requires n >= 8
    ensures Stage(c, n) == Stage(c, 8)
  {
    if n > 8 { StageFixed(c, n - 1); }
  }

  lemma FromExec(c: Config, s: System, t: System)
    requires Inv(c, s) && Step(c, s, t) && s.child != RUNNING && t.child == RUNNING
    ensures s.child == EXEC && t.fds == AfterExec(s.fds) && Stage(c, EXEC) == Some(s.fds)
    ensures s.group == c.pid && s.parent in {SUPERVISE, CLOSED}
  {
    hide Stage, AfterExec;
  }

  /** At the exec: the child leads its group, the launcher is alive, and the descriptors
      are 0 to 2 and the three objects; the exec closes the executable's. */
  lemma AtExec(c: Config, s: System, t: System)
    requires Inherited(c) && Unharmed(c)
    requires Inv(c, s) && Step(c, s, t) && s.child != RUNNING && t.child == RUNNING
    ensures s.group == c.pid && s.parent in {SUPERVISE, CLOSED}
    ensures InPlace(s.fds) && t.fds.Keys == {0, 1, 2, POLICY_FD, CAPABILITY_FD}
    ensures t.fds[POLICY_FD].file == PolicyFile && t.fds[CAPABILITY_FD].file == CapabilitySocket
  {
    StageFixed(c, EXEC);
    InstallExact(c);
    hide Stage, Inherited;
    FromExec(c, s, t);
    hide Inv, Step;
    assert t.fds == AfterExec(s.fds);
    assert t.fds.Keys == KEPT - {EXECUTABLE_FD};
  }

  /** The executed program runs only after the child led its own group, had its
      descriptors in place and said so, and after the launcher received exactly that
      message, saw the group, and allowed it; and these happened in this order. At the exec
      the child still leads its group and the launcher lives; if no install overwrote a
      source, the descriptors are 0 to 2 and the three objects in place, and the program
      starts with those but the executable's. */
  lemma ExecOnlyAfter(c: Config, run: seq<System>, e: nat)
    returns (led: nat, ready: nat, seen: nat, allowed: nat, told: nat, execed: nat)
    requires Run(c, run) && e < |run| && run[e].child == RUNNING
    ensures led < ready < seen < allowed < told < execed < e
    ensures Happens(c, run[led], run[led + 1], 0) && Happens(c, run[ready], run[ready + 1], 3)
    ensures Happens(c, run[seen], run[seen + 1], 4) && Happens(c, run[allowed], run[allowed + 1], 5)
    ensures Happens(c, run[told], run[told + 1], 6) && Happens(c, run[execed], run[execed + 1], 7)
    ensures run[execed].group == c.pid && run[execed].parent in {SUPERVISE, CLOSED}
    ensures Inherited(c) && Unharmed(c) ==>
      && InPlace(run[execed].fds) && run[execed + 1].fds.Keys == {0, 1, 2, POLICY_FD, CAPABILITY_FD}
      && run[execed + 1].fds[POLICY_FD].file == PolicyFile &&
        run[execed + 1].fds[CAPABILITY_FD].file == CapabilitySocket
  {
    hide Step, Happens, Inv, Run, InPlace, Inherited, Unharmed;
    RunKeeps(c, run, e);
    RunningLog(c, run[e]);
    led := Happened(c, run, e, 0);
    var installed := Happened(c, run, e, 1);
    var sent := Happened(c, run, e, 2);
    ready := Happened(c, run, e, 3);
    seen := Happened(c, run, e, 4);
    allowed := Happened(c, run, e, 5);
    told := Happened(c, run, e, 6);
    execed := Happened(c, run, e, 7);
    InOrder(c, run, led, installed, 0);
    InOrder(c, run, installed, sent, 1);
    InOrder(c, run, sent, ready, 2);
    InOrder(c, run, ready, seen, 3);
    InOrder(c, run, seen, allowed, 4);
    InOrder(c, run, allowed, told, 5);
    InOrder(c, run, told, execed, 6);
    ExecIn(c, run, execed);
  }

  /** Whoever runs has the whole script behind it. */
  lemma RunningLog(c: Config, s: System)
    requires Inv(c, s) && s.child == RUNNING
    ensures |s.log| == 8
  {
    hide Stage;
  }

  lemma ExecIn(c: Config, run: seq<System>, i: nat)
    requires Run(c, run) && i + 1 < |run| && Happens(c, run[i], run[i + 1], 7)
    ensures run[i].group == c.pid && run[i].parent in {SUPERVISE, CLOSED}
    ensures Inherited(c) && Unharmed(c) ==>
      && InPlace(run[i].fds) && run[i + 1].fds.Keys == {0, 1, 2, POLICY_FD, CAPABILITY_FD}
      && run[i + 1].fds[POLICY_FD].file == PolicyFile && run[i + 1].fds[CAPABILITY_FD].file == CapabilitySocket
  {
    hide Step, Happens, Inv, Run, InPlace, Inherited, Unharmed;
    RunKeeps(c, run, i);
    StepAt(c, run, i);
    ExecHappens(c, run[i], run[i + 1]);
    FromExec(c, run[i], run[i + 1]);
    if Inherited(c) && Unharmed(c) { AtExec(c, run[i], run[i + 1]); }
  }

  lemma ExecHappens(c: Config, s: System, t: System)
    requires Happens(c, s, t, 7)
    ensures s.child != RUNNING && t.child == RUNNING
  {
  }

  // ---------- whatever is in the socket ----------

  /** A step of either side, or anything at all happens to the messages in flight. */
  ghost predicate NoisyStep(c: Config, s: System, t: System) {
    Step(c, s, t) || t == s.(toParent := t.toParent, toChild := t.toChild)
  }

  ghost predicate NoisyRun(c: Config, run: seq<System>) {
    && |run| > 0 && Init(c, run[0])
    && forall i, j :: 0 <= i < j < |run| && j == i + 1 ==> NoisyStep(c, run[i], run[j])
  }

  lemma ChildGoesOn(c: Config, s: System, t: System)
    requires NoisyStep(c, s, t) && t.child <= RUNNING
    ensures t.child == s.child || (s.child < RUNNING && t.child == s.child + 1 && ChildNext(c, s) == Some(t))
  {
    hide Install, CloseRest, Verified, AfterExec;
  }

  lemma ParentGoesOn(c: Config, s: System, t: System)
    requires NoisyStep(c, s, t) && t.parent <= SUPERVISE
    ensures t.parent == s.parent || (s.parent < SUPERVISE && t.parent == s.parent + 1 && ParentNext(c, s) == Some(t))
  {
    hide Install, CloseRest, Verified, AfterExec;
  }

  lemma NoisyAt(c: Config, run: seq<System>, i: nat)
    requires NoisyRun(c, run) && i + 1 < |run|
    ensures NoisyStep(c, run[i], run[i + 1])
  {
    hide NoisyStep;
  }

  lemma StartsAtZero(c: Config, run: seq<System>)
    requires NoisyRun(c, run)
    ensures run[0].child == 0 && run[0].parent == 0
  {
    hide NoisyStep;
  }

  /** The child has passed every step before the one it is at, after those before it. */
  lemma {:induction false} ChildPassed(c: Config, run: seq<System>, e: nat, p: nat) returns (i: nat)
    requires NoisyRun(c, run) && e < |run| && p < run[e].child <= RUNNING
    ensures i < e && run[i].child == p && ChildNext(c, run[i]) == Some(run[i + 1])
    decreases e
  {
    hide NoisyRun, NoisyStep, ChildNext;
    if e == 0 {
      StartsAtZero(c, run);
      assert false;
    }
    NoisyAt(c, run, e - 1);
    ChildGoesOn(c, run[e - 1], run[e]);
    if run[e].child == run[e - 1].child || run[e - 1].child > p {
      i := ChildPassed(c, run, e - 1, p);
    } else {
      i := e - 1;
    }
  }

  lemma {:induction false} ParentPassed(c: Config, run: seq<System>, e: nat, p: nat) returns (i: nat)
    requires NoisyRun(c, run) && e < |run| && p < run[e].parent <= SUPERVISE
    ensures i < e && run[i].parent == p && ParentNext(c, run[i]) == Some(run[i + 1])
    decreases e
  {
    hide NoisyRun, NoisyStep, ParentNext;
    if e == 0 {
      StartsAtZero(c, run);
      assert false;
    }
    NoisyAt(c, run, e - 1);
    ParentGoesOn(c, run[e - 1], run[e]);
    if run[e].parent == run[e - 1].parent || run[e - 1].parent > p {
      i := ParentPassed(c, run, e - 1, p);
    } else {
      i := e - 1;
    }
  }

  /** The message is this text, as far as the text goes. */
  predicate Says(message: string, text: string) { text <= message }

  lemma ReceivedSays(message: string, text: string)
    requires Received(message, |text|) == text
    ensures Says(message, text)
  {
  }

  /** Even if anything may be in the socket: the program runs only after the child led its
      group, asked for its death with the launcher, found the launcher alive, passed the
      check of its descriptors and received what says ALLOW. */
  lemma ChildChecks(c: Config, run: seq<System>, e: nat)
    returns (led: nat, bound: nat, alive: nat, checked: nat, told: nat, execed: nat)
    requires NoisyRun(c, run) && e < |run| && run[e].child == RUNNING
    ensures led < bound < alive < checked < told < execed < e
    ensures run[led + 1].group == c.pid && run[bound + 1].deathSignal && run[alive].parent != DEAD
    ensures Verified(run[checked].fds)
    ensures run[told].toChild != [] && Says(run[told].toChild[0], ALLOW)
    ensures run[execed].child == EXEC && run[execed + 1].fds == AfterExec(run[execed].fds)
  {
    hide NoisyRun, Install, CloseRest, Verified, AfterExec, Received;
    execed := ChildPassed(c, run, e, EXEC);
    told := ChildPassed(c, run, execed, RECEIVE_ALLOW);
    checked := ChildPassed(c, run, told, VERIFY);
    alive := ChildPassed(c, run, checked, CHECK_PARENT);
    bound := ChildPassed(c, run, alive, SET_DEATH_SIGNAL);
    led := ChildPassed(c, run, bound, LEAD_GROUP);
    ReceivedSays(run[told].toChild[0], ALLOW);
  }

  /** The launcher supervises only after it received what says READY, saw the child lead its
      group and sent ALLOW, in this order. */
  lemma LauncherChecks(c: Config, run: seq<System>, e: nat) returns (got: nat, seen: nat, sent: nat)
    requires NoisyRun(c, run) && e < |run| && run[e].parent == SUPERVISE
    ensures got < seen < sent < e
    ensures run[got].toParent != [] && Says(run[got].toParent[0], READY)
    ensures run[seen].group == c.pid
    ensures run[sent].child != GONE && run[sent + 1].toChild == run[sent].toChild + [ALLOW]
  {
    hide NoisyRun, Received;
    sent := ParentPassed(c, run, e, SEND_ALLOW);
    seen := ParentPassed(c, run, sent, SEE_GROUP);
    got := ParentPassed(c, run, seen, RECEIVE_READY);
    ReceivedSays(run[got].toParent[0], READY);
  }

  // ---------- the handshake can succeed ----------

  lemma {:induction false} StagesSucceed(c: Config, n: nat)
    requires Inherited(c) && c.capability != POLICY_FD
    ensures Stage(c, n).Some? && (n >= 8 ==> Verified(Stage(c, n).value))
  {
    var f5, f6, f7 := Stages(c);
    if n > 8 {
      StageFixed(c, n);
    } else if 4 < n < 8 {
      StageInstalls(c, 4, c.fds);
      StageInstalls(c, 5, f5);
      StageInstalls(c, 6, f6);
    }
  }

  lemma ChildMoves(c: Config, s: System) returns (t: System)
    requires Inherited(c) && c.capability != POLICY_FD
    requires Inv(c, s) && s.child < RUNNING && s.parent < CLOSED && (s.child in {AWAIT, RECEIVE_ALLOW} ==> |s.log| == 6)
    ensures Inv(c, t) && Step(c, s, t) && t.child == s.child + 1 && t.parent == s.parent && |s.log| <= |t.log|
  {
    StagesSucceed(c, s.child);
    StagesSucceed(c, s.child + 1);
    StageInstalls(c, s.child, s.fds);
    hide Stage, Install, Verified, CloseRest, AfterExec, Inherited;
    t := ChildNext(c, s).value;
    ChildKeeps(c, s, t);
  }

  lemma ParentMoves(c: Config, s: System) returns (t: System)
    requires Inv(c, s) && s.parent < SUPERVISE && s.child == AWAIT
    ensures Inv(c, t) && Step(c, s, t) && t.parent == s.parent + 1 && t.child == s.child
  {
    hide Stage;
    t := ParentNext(c, s).value;
    StepKeeps(c, s, t);
  }

  ghost predicate Ends(c: Config, run: seq<System>, child: nat, parent: nat) {
    Run(c, run) && var s := run[|run| - 1]; Inv(c, s) && s.child == child && s.parent == parent
  }

  lemma Extend(c: Config, run: seq<System>, t: System)
    requires Run(c, run) && Step(c, run[|run| - 1], t) && Inv(c, t)
    ensures Ends(c, run + [t], t.child, t.parent)
  {
    hide Step, Inv;
  }

  lemma {:induction false} ChildTo(c: Config, run: seq<System>, child: nat, parent: nat,
                                   n: nat) returns (more: seq<System>)
    requires Inherited(c) && c.capability != POLICY_FD
    requires Ends(c, run, child, parent) && parent < CLOSED && child <= n <= RUNNING &&
             (n > AWAIT ==> |run[|run| - 1].log| >= 6)
    ensures Ends(c, more, n, parent) && more[0] == run[0]
    decreases n - child
  {
    more := run;
    if child < n {
      SixWhileWaiting(c, run[|run| - 1]);
      hide Step, Inv, Inherited;
      var t := ChildMoves(c, run[|run| - 1]);
      Extend(c, run, t);
      more := ChildTo(c, run + [t], child + 1, parent, n);
    }
  }

  lemma SixWhileWaiting(c: Config, s: System)
    requires Inv(c, s)
    ensures s.child in {AWAIT, RECEIVE_ALLOW} ==> |s.log| <= 6
  {
  }

  lemma {:induction false} ParentTo(c: Config, run: seq<System>, parent: nat) returns (more: seq<System>)
    requires Ends(c, run, AWAIT, parent) && parent <= SUPERVISE
    ensures Ends(c, more, AWAIT, SUPERVISE) && more[0] == run[0] && |more[|more| - 1].log| == 6
    decreases SUPERVISE - parent
  {
    more := run;
    if parent < SUPERVISE {
      hide Step, Inv;
      var t := ParentMoves(c, run[|run| - 1]);
      Extend(c, run, t);
      more := ParentTo(c, run + [t], parent + 1);
    }
  }

  /** From every start whose installs pass the check there is a run that ends in the exec. */
  lemma CanExecute(c: Config, start: System) returns (run: seq<System>)
    requires Inherited(c) && c.capability != POLICY_FD && Init(c, start)
    ensures Run(c, run) && run[0] == start && run[|run| - 1].child == RUNNING
  {
    hide Step, Inv;
    run := [start];
    RunKeeps(c, run, 0);
    run := ChildTo(c, run, 0, 0, AWAIT);
    run := ParentTo(c, run, 0);
    run := ChildTo(c, run, AWAIT, SUPERVISE, RUNNING);
  }
}
