/** Shutdown accounting, when no child is forgotten at the end of the main loop and signalling
    a child succeeds: the two counters agree with the unreaped children throughout both wait
    loops, SIGKILL is used exactly when a child outlived the grace loop, and reaches every one
    that did. */
module Shutdown {
  import opened Options
  import opened System
  import opened Machine
  import opened Registry

  /** The programs among the first n that hold a pid. */
  ghost function Held(progs: seq<Prog>, n: nat): nat
    requires n <= |progs|
  {
    if n == 0 then 0 else Held(progs, n - 1) + if progs[n - 1].pid > 0 then 1 else 0
  }

  ghost function PidsHeld(progs: seq<Prog>, n: nat): set<int>
    requires n <= |progs|
  {
    set j | 0 <= j < n && progs[j].pid > 0 :: progs[j].pid
  }

  lemma {:induction false} HeldCounts(s: Sys, n: nat)
    requires Inv(s, true) && n <= |s.progs|
    ensures |PidsHeld(s.progs, n)| == Held(s.progs, n)
  {
    if n > 0 {
      HeldCounts(s, n - 1);
      var pid := s.progs[n - 1].pid;
      var fewer := PidsHeld(s.progs, n - 1);
      assert pid !in fewer || pid <= 0;
      assert PidsHeld(s.progs, n) == if pid > 0 then fewer + {pid} else fewer;
    }
  }

  /** As many programs hold a pid as there are unreaped children. */
  lemma HeldAreChildren(s: Sys)
    requires Inv(s, true)
    ensures Held(s.progs, |s.progs|) == |s.children|
  {
    HeldCounts(s, |s.progs|);
    var pids := PidsHeld(s.progs, |s.progs|);
    forall c | c in s.children ensures c in pids {
      assert s.progs[s.children[c].owner].pid == c;
    }
    assert pids == s.children.Keys;
  }

  lemma {:induction false} HeldStable(p: seq<Prog>, q: seq<Prog>, n: nat)
    requires n <= |p| == |q| && forall j :: 0 <= j < n ==> p[j].pid == q[j].pid
    ensures Held(p, n) == Held(q, n)
  {
    if n > 0 { HeldStable(p, q, n - 1); }
  }

  /** Every child left was sent SIGKILL after the first `from` signals. */
  ghost predicate Killed(s: Sys, from: nat) {
    from <= |s.signals| && forall c :: c in s.children ==> Signal(c, SIG_KILL) in s.signals[from..]
  }

  /** From the SIGKILL phase on. */
  predicate InKillPart(p: Phase) {
    p.Killing? || p.Aftermath? || (p.Ready? && p.killed)
  }

  /** The counters of a wait loop: `kCount` runs below `pCount` only once no child is left. */
  ghost predicate Counted(s: Sys, pCount: int, kCount: int) {
    && pCount == |s.children| == Held(s.progs, |s.progs|)
    && (kCount == pCount || (|s.children| == 0 && kCount <= 0))
  }

  /** `from` is how many signals had been sent when the SIGKILL phase was entered. */
  ghost predicate Accounts(m: State, from: nat) {
    var s := m.sys;
    match m.phase
    case Signalling(i, count) =>
      i <= |s.progs| && count == Held(s.progs, i)
    case Grace(i, tries, p, k) => Counted(s, p, k)
    case Killing(i, count) =>
      && i <= |s.progs| && count == Held(s.progs, i) && |s.children| > 0 && from <= |s.signals|
      && forall j :: 0 <= j < i && s.progs[j].pid > 0 ==> Signal(s.progs[j].pid, SIG_KILL) in s.signals[from..]
    case Aftermath(tries, p, k) => Counted(s, p, k) && Killed(s, from)
    case Ready(killed) => if killed then Killed(s, from) else |s.children| == 0
    case _ => true
  }

  /** Where the signals of the SIGKILL phase begin, after a step from m to r. */
  function FromAfter(m: State, r: State, from: nat): nat {
    if InKillPart(m.phase) then from else |r.sys.signals|
  }

  /** Reaping one child during shutdown. */
  lemma BuryCounts(s: Sys, c: int, tEnd: int)
    requires Inv(s, true) && c in s.children
    ensures Registered(s, c)
    ensures var r := BuryChild(s, c, s.running[c].value, tEnd);
            Inv(r, true) && |r.children| == |s.children| - 1 == Held(r.progs, |r.progs|)
  {
    InvBury(s, c, tEnd, true);
    var r := BuryChild(s, c, s.running[c].value, tEnd);
    HeldAreChildren(r);
    assert r.children.Keys == s.children.Keys - {c};
  }

  lemma {:induction false} NoneHeld(progs: seq<Prog>, n: nat)
    requires n <= |progs| && forall j :: 0 <= j < n ==> progs[j].pid == 0
    ensures Held(progs, n) == 0
  {
    if n > 0 { NoneHeld(progs, n - 1); }
  }

  lemma NoChildren(s: Sys)
    requires Inv(s, true) && forall c :: c !in s.children
    ensures |s.children| == 0
  {
    HeldAreChildren(s);
    NoneHeld(s.progs, |s.progs|);
  }

  /** What a `waitpid` of the wait loops tells: -1 only when no child is left. */
  lemma WaitTells(s: Sys, pid: int, hint: int)
    requires Inv(s, true) && (pid == 0 || pid in s.children)
    ensures var c := WaitPidResult(s.children, pid, hint);
            && (c > 0 ==> c in s.children)
            && (c < 0 ==> |s.children| == 0)
  {
    var c := WaitPidResult(s.children, pid, hint);
    assert forall x :: Matches(0, x);
    assert Matches(pid, pid);
    if c < 0 {
      NoChildren(s);
    }
  }

  lemma AccountsGrace(m: State, a: Answer, from: nat)
    requires WellFormed(m) && Inv(m.sys, true) && m.phase.Grace? && Accounts(m, from)
    ensures Accounts(Round(m, a), FromAfter(m, Round(m, a), from))
  {
    var Grace(i, tries, p, k) := m.phase;
    if i < |m.sys.progs| {
      var pid := m.sys.progs[i].pid;
      var c := WaitPidResult(m.sys.children, pid, a.hint);
      WaitTells(m.sys, pid, a.hint);
      if c > 0 { BuryCounts(m.sys, c, m.begun); }
    }
  }

  /** One wait after the SIGKILL phase, and the counters it leads to. */
  lemma AftermathCounts(m: State, a: Answer) returns (p: int, k: int)
    requires WellFormed(m) && Inv(m.sys, true) && m.phase.Aftermath? && Counted(m.sys, m.phase.pCount, m.phase.kCount)
    ensures var r := Round(m, a);
            && r.phase == AftermathTest(m.phase.tries, p, k) && Counted(r.sys, p, k)
            && r.sys.signals == m.sys.signals && r.sys.children.Keys <= m.sys.children.Keys
  {
    var c := WaitPidResult(m.sys.children, 0, a.hint);
    WaitTells(m.sys, 0, a.hint);
    p, k := m.phase.pCount, m.phase.kCount;
    if c > 0 {
      BuryCounts(m.sys, c, m.begun);
      p, k := p - 1, k - 1;
    } else if c < 0 {
      k := k - 1;
    }
  }

  lemma AccountsAftermath(m: State, a: Answer, from: nat)
    requires WellFormed(m) && Inv(m.sys, true) && m.phase.Aftermath? && Accounts(m, from)
    ensures Accounts(Round(m, a), FromAfter(m, Round(m, a), from))
  {
    var p, k := AftermathCounts(m, a);
    KilledFewer(m.sys, Round(m, a).sys, from);
  }

  lemma KilledFewer(s: Sys, r: Sys, from: nat)
    requires Killed(s, from) && r.signals == s.signals && r.children.Keys <= s.children.Keys
    ensures Killed(r, from)
  {
  }

  lemma AccountsSignals(m: State, a: Answer, from: nat)
    requires WellFormed(m) && Inv(m.sys, true) && m.phase.Signalling? && Accounts(m, from) && a.killOk
    ensures Accounts(Round(m, a), FromAfter(m, Round(m, a), from))
  {
    HeldAreChildren(m.sys);
    if m.phase.i < |m.sys.progs| {
      HeldStable(m.sys.progs, Round(m, a).sys.progs, m.phase.i + 1);
    }
  }

  lemma OneMoreSignal(signals: seq<Signal>, x: Signal, from: nat)
    requires from <= |signals|
    ensures (signals + [x])[from..] == signals[from..] + [x]
  {
  }

  lemma AccountsKills(m: State, a: Answer, from: nat)
    requires WellFormed(m) && Inv(m.sys, true) && m.phase.Killing? && Accounts(m, from)
    ensures Accounts(Round(m, a), FromAfter(m, Round(m, a), from))
  {
    HeldAreChildren(m.sys);
    if m.phase.i < |m.sys.progs| {
      HeldStable(m.sys.progs, Round(m, a).sys.progs, m.phase.i + 1);
      OneMoreSignal(m.sys.signals, Signal(m.sys.progs[m.phase.i].pid, SIG_KILL), from);
    } else {
      forall c | c in m.sys.children ensures Signal(c, SIG_KILL) in m.sys.signals[from..] {
        assert m.sys.progs[m.sys.children[c].owner].pid == c;
      }
    }
  }

  /** The environment changes no count. */
  lemma AccountsEnvironment(m: State, l: Label, from: nat)
    requires WellFormed(m) && Inv(m.sys, true) && !l.Go? && Accounts(m, from)
    ensures Accounts(Move(m, l), FromAfter(m, Move(m, l), from))
  {
    var r := Move(m, l);
    assert r.sys.progs == m.sys.progs && r.sys.signals == m.sys.signals;
    assert r.sys.children.Keys == m.sys.children.Keys;
  }

  predicate KillSucceeds(l: Label) {
    l.Go? ==> l.answer.killOk
  }

  lemma AccountsMove(m: State, l: Label, from: nat)
    requires WellFormed(m) && Inv(m.sys, true) && KillSucceeds(l) && Accounts(m, from) && m.phase != NullExit
    ensures Accounts(Move(m, l), FromAfter(m, Move(m, l), from))
  {
    if !l.Go? {
      AccountsEnvironment(m, l, from);
    } else {
      match m.phase
      case Signalling(_, _) => AccountsSignals(m, l.answer, from);
      case Grace(_, _, _, _) => AccountsGrace(m, l.answer, from);
      case Killing(_, _) => AccountsKills(m, l.answer, from);
      case Aftermath(_, _, _) => AccountsAftermath(m, l.answer, from);
      case _ =>
    }
  }

  // ------------------------------------------------------------- over a run

  /** How many signals had been sent when the run entered the SIGKILL phase; `from` if it
      began in that phase. */
  ghost function KillFrom(m: State, labels: seq<Label>, from: nat): nat
    requires WellFormed(m)
    decreases |labels|
  {
    if labels == [] then from
    else
      var before := labels[..|labels| - 1];
      FromAfter(Run(m, before), Run(m, labels), KillFrom(m, before, from))
  }

  /** The step that leaves the main loop, with a child forgotten. */
  ghost predicate LeavesForgotten(m: State, l: Label)
    requires WellFormed(m)
  {
    m.phase.Idle? && !m.sys.on && l.Go? && !PidsCurrent(m.sys)
  }

  /** The main loop is left with no child forgotten. */
  ghost predicate StopsClean(m: State, labels: seq<Label>)
    requires WellFormed(m)
  {
    forall n :: 0 <= n < |labels| ==> !LeavesForgotten(Run(m, labels[..n]), labels[n])
  }

  lemma StillClean(m: State, labels: seq<Label>, before: seq<Label>, n: nat)
    requires WellFormed(m) && StopsClean(m, labels) && before <= labels && n < |before|
    ensures !LeavesForgotten(Run(m, before[..n]), before[n])
  {
    assert before[..n] == labels[..n];
  }

  lemma LastClean(m: State, labels: seq<Label>, n: nat)
    requires WellFormed(m) && StopsClean(m, labels) && n < |labels|
    ensures !LeavesForgotten(Run(m, labels[..n]), labels[n])
  {
  }

  lemma StopsCleanBefore(m: State, labels: seq<Label>, before: seq<Label>)
    requires WellFormed(m) && StopsClean(m, labels) && before <= labels
    ensures StopsClean(m, before)
  {
    forall n: nat | n < |before| ensures !LeavesForgotten(Run(m, before[..n]), before[n]) {
      StillClean(m, labels, before, n);
    }
  }

  /** What the shutdown starts from and keeps. */
  ghost predicate InOrder(m: State, from: nat)
    requires WellFormed(m)
  {
    !InMainLoop(m.phase) ==> PidsCurrent(m.sys) && Accounts(m, from)
  }

  lemma InOrderMove(m: State, l: Label, from: nat)
    requires WellFormed(m) && Inv(m.sys, false) && KillSucceeds(l) && InOrder(m, from) && m.phase != NullExit
    requires !LeavesForgotten(m, l)
    ensures InOrder(Move(m, l), FromAfter(m, Move(m, l), from))
  {
    if !InMainLoop(m.phase) {
      InvMove(m, l, true);
      AccountsMove(m, l, from);
    } else if l.Go? {
      InvMove(m, l, false);
    }
  }

  lemma InOrderStep(m: State, l: Label, from: nat)
    requires WellFormed(m) && Inv(m.sys, false) && KillSucceeds(l) && InOrder(m, from) && m.phase != NullExit
    requires !LeavesForgotten(m, l)
    ensures InOrder(Step(m, l), FromAfter(m, Step(m, l), from))
  {
    InOrderMove(m, l, from);
  }

  lemma KillFromNext(m: State, labels: seq<Label>, n: nat)
    requires WellFormed(m) && |labels| == n + 1
    ensures Run(m, labels) == Step(Run(m, labels[..n]), labels[n])
    ensures KillFrom(m, labels, 0) == FromAfter(Run(m, labels[..n]), Run(m, labels), KillFrom(m, labels[..n], 0))
  {
  }

  /** Shutdown theorem. */
  lemma {:induction false} ShutdownAccounts(m: State, labels: seq<Label>)
    requires Initial(m) && StopsClean(m, labels)
    requires forall l :: l in labels ==> KillSucceeds(l)
    ensures InOrder(Run(m, labels), KillFrom(m, labels, 0))
    decreases |labels|
  {
    if labels != [] {
      var before, n := labels[..|labels| - 1], |labels| - 1;
      StopsCleanBefore(m, labels, before);
      LastClean(m, labels, n);
      ShutdownAccounts(m, before);
      InvRun(m, before, false);
      InOrderStep(Run(m, before), labels[n], KillFrom(m, before, 0));
      KillFromNext(m, labels, n);
    }
  }

  lemma LeavingGrace(m: State, a: Answer, from: nat)
    requires WellFormed(m) && Inv(m.sys, true) && Accounts(m, from)
    requires m.phase.Signalling? || m.phase.Grace?
    ensures var r := Round(m, a);
            r.phase.Signalling? || r.phase.Grace? ||
            (r.sys == m.sys && r.phase == if |r.sys.children| > 0 then Killing(0, 0) else Ready(false))
  {
    HeldAreChildren(m.sys);
    InvRound(m, a, true);
    if m.phase.Grace? { AccountsGrace(m, a, from); }
  }

  /** Still in the grace loop or before it, or past it: in the SIGKILL phase if a child is left,
      READY if none is. */
  ghost predicate Decided(r: State) {
    r.phase.Signalling? || r.phase.Grace? ||
    r.phase == if |r.sys.children| > 0 then Killing(0, 0) else Ready(false)
  }

  lemma StepLeavesGrace(m: State, a: Answer, from: nat)
    requires WellFormed(m) && Inv(m.sys, true) && Accounts(m, from)
    requires m.phase.Signalling? || m.phase.Grace?
    ensures Decided(Step(m, Go(a)))
  {
    LeavingGrace(m, a, from);
    StepIsRound(m, a);
  }

  /** A run in which no pid is forgotten stops clean. */
  lemma NeverForgetsStopsClean(m: State, labels: seq<Label>)
    requires Initial(m) && NeverForgets(m, labels)
    ensures StopsClean(m, labels)
  {
    CurrentIffNeverForgets(m, labels);
  }

  // ------------------------------------------------------------- how long

  /** Whether a step begins a sweep of the grace loop, and whether it leads to one more wait after
      the SIGKILL phase. */
  predicate BeginsSweep(l: Label, r: Phase) {
    l.Go? && r.Grace? && r.i == 0
  }

  predicate WaitsAgain(l: Label, r: Phase) {
    l.Go? && r.Aftermath?
  }

  ghost function Sweeps(m: State, labels: seq<Label>): nat
    requires WellFormed(m)
    decreases |labels|
  {
    if labels == [] then 0
    else
      Sweeps(m, labels[..|labels| - 1])
      + if BeginsSweep(labels[|labels| - 1], Run(m, labels).phase) then 1 else 0
  }

  ghost function LastWaits(m: State, labels: seq<Label>): nat
    requires WellFormed(m)
    decreases |labels|
  {
    if labels == [] then 0
    else
      LastWaits(m, labels[..|labels| - 1])
      + if WaitsAgain(labels[|labels| - 1], Run(m, labels).phase) then 1 else 0
  }

  /** The sweeps and waits begun so far. If the accounts are kept the SIGKILL phase means that
      every sweep was made, and a child left at the end that every wait was. */
  ghost predicate Paced(m: State, sweeps: nat, waits: nat, clean: bool) {
    && (sweeps <= 10000 && waits <= 1000)
    && (InMainLoop(m.phase) || m.phase.Signalling? ==> sweeps == 0)
    && (m.phase.Signalling? ==> m.phase.count >= 0)
    && (m.phase.Grace? ==> sweeps + m.phase.tries == 10000)
    && (InMainLoop(m.phase) || m.phase.Signalling? || m.phase.Grace? || m.phase.Killing? ==> waits == 0)
    && (m.phase.Aftermath? ==> waits + m.phase.tries == 1000)
    && (clean && InKillPart(m.phase) ==> sweeps == 10000)
    && (clean && m.phase.Ready? && m.phase.killed && |m.sys.children| > 0 ==> waits == 1000)
  }

  /** The step from m leads to r and keeps the pace. */
  ghost predicate KeepsPace(m: State, a: Answer, sweeps: nat, waits: nat, clean: bool)
    requires WellFormed(m)
  {
    var r := Round(m, a);
    Paced(r, sweeps + (if BeginsSweep(Go(a), r.phase) then 1 else 0),
          waits + (if WaitsAgain(Go(a), r.phase) then 1 else 0), clean)
  }

  lemma PacedBefore(m: State, a: Answer, sweeps: nat, waits: nat, clean: bool)
    requires WellFormed(m) && (InMainLoop(m.phase) || m.phase.Ready?) && Paced(m, sweeps, waits, clean)
    ensures KeepsPace(m, a, sweeps, waits, clean) || Round(m, a).phase == NullExit
  {
  }

  lemma PacedSignalling(m: State, a: Answer, sweeps: nat, waits: nat, clean: bool)
    requires WellFormed(m) && m.phase.Signalling? && Paced(m, sweeps, waits, clean)
    ensures KeepsPace(m, a, sweeps, waits, clean)
  {
  }

  lemma PacedGrace(m: State, a: Answer, sweeps: nat, waits: nat, clean: bool)
    requires WellFormed(m) && m.phase.Grace? && Paced(m, sweeps, waits, clean) && Round(m, a).phase != NullExit
    requires clean ==> m.phase.pCount > 0 ==> m.phase.kCount == m.phase.pCount
    ensures KeepsPace(m, a, sweeps, waits, clean)
  {
  }

  lemma PacedKilling(m: State, a: Answer, sweeps: nat, waits: nat, clean: bool)
    requires WellFormed(m) && m.phase.Killing? && Paced(m, sweeps, waits, clean)
    requires clean ==> m.phase.i >= |m.sys.progs| ==> m.phase.count == |m.sys.children|
    ensures KeepsPace(m, a, sweeps, waits, clean)
  {
  }

  lemma PacedAftermath(m: State, a: Answer, sweeps: nat, waits: nat, clean: bool)
    requires WellFormed(m) && m.phase.Aftermath? && Paced(m, sweeps, waits, clean) && Round(m, a).phase != NullExit
    requires clean && Round(m, a).phase.Ready? && |Round(m, a).sys.children| > 0 ==> m.phase.tries <= 0
    ensures KeepsPace(m, a, sweeps, waits, clean)
  {
  }

  /** The waits after the SIGKILL phase end before their time only when no child is left. */
  lemma AftermathEndsEarly(m: State, a: Answer, from: nat)
    requires WellFormed(m) && Inv(m.sys, true) && m.phase.Aftermath? && Accounts(m, from)
    ensures Round(m, a).phase.Ready? && |Round(m, a).sys.children| > 0 ==> m.phase.tries <= 0
  {
    var p, k := AftermathCounts(m, a);
  }

  /** What the accounts say for the pace. */
  ghost predicate Sound(m: State, from: nat, clean: bool)
    requires WellFormed(m)
  {
    Inv(m.sys, false) && m.phase != NullExit && (clean && !InMainLoop(m.phase) ==> Inv(m.sys, true) && Accounts(m, from))
  }

  lemma PacedRound(m: State, a: Answer, sweeps: nat, waits: nat, clean: bool, from: nat)
    requires WellFormed(m) && Paced(m, sweeps, waits, clean) && Sound(m, from, clean)
    ensures KeepsPace(m, a, sweeps, waits, clean)
  {
    InvRound(m, a, false);
    match m.phase
    case Signalling(_, _) => PacedSignalling(m, a, sweeps, waits, clean);
    case Grace(_, _, _, _) => PacedGrace(m, a, sweeps, waits, clean);
    case Killing(_, _) =>
      if clean { HeldAreChildren(m.sys); }
      PacedKilling(m, a, sweeps, waits, clean);
    case Aftermath(_, _, _) =>
      if clean { AftermathEndsEarly(m, a, from); }
      PacedAftermath(m, a, sweeps, waits, clean);
    case _ => PacedBefore(m, a, sweeps, waits, clean);
  }

  /** The environment keeps no pace. */
  lemma PacedEnvironment(m: State, l: Label, sweeps: nat, waits: nat, clean: bool)
    requires WellFormed(m) && Paced(m, sweeps, waits, clean) && !l.Go?
    ensures Paced(Move(m, l), sweeps, waits, clean)
  {
    assert Move(m, l).sys.children.Keys == m.sys.children.Keys;
  }

  lemma PacedStep(m: State, l: Label, sweeps: nat, waits: nat, clean: bool, from: nat)
    requires WellFormed(m) && Paced(m, sweeps, waits, clean) && Sound(m, from, clean)
    ensures var r := Step(m, l);
            Paced(r, sweeps + (if BeginsSweep(l, r.phase) then 1 else 0),
                  waits + (if WaitsAgain(l, r.phase) then 1 else 0), clean)
  {
    if l.Go? { PacedRound(m, l.answer, sweeps, waits, clean, from); } else { PacedEnvironment(m, l, sweeps, waits, clean); }
  }

  lemma SoundRun(m: State, labels: seq<Label>, clean: bool)
    requires Initial(m)
    requires clean ==> StopsClean(m, labels) && forall l :: l in labels ==> KillSucceeds(l)
    ensures Sound(Run(m, labels), KillFrom(m, labels, 0), clean)
  {
    InvRun(m, labels, false);
    if clean { ShutdownAccounts(m, labels); }
  }

  /** When the grace loop is left (or skipped), SIGKILL follows exactly if a child is left. */
  lemma KillPhaseIffSurvivors(m: State, labels: seq<Label>, a: Answer)
    requires Initial(m) && StopsClean(m, labels)
    requires forall l :: l in labels ==> KillSucceeds(l)
    requires Run(m, labels).phase.Signalling? || Run(m, labels).phase.Grace?
    ensures Decided(Step(Run(m, labels), Go(a)))
  {
    SoundRun(m, labels, true);
    StepLeavesGrace(Run(m, labels), a, KillFrom(m, labels, 0));
  }

  lemma {:induction false} PacedRun(m: State, labels: seq<Label>, clean: bool)
    requires Initial(m)
    requires clean ==> StopsClean(m, labels) && forall l :: l in labels ==> KillSucceeds(l)
    ensures Paced(Run(m, labels), Sweeps(m, labels), LastWaits(m, labels), clean)
    decreases |labels|
  {
    if labels != [] {
      var before := labels[..|labels| - 1];
      if clean { StopsCleanBefore(m, labels, before); }
      PacedRun(m, before, clean);
      SoundRun(m, before, clean);
      PacedStep(Run(m, before), labels[|labels| - 1],
                Sweeps(m, before), LastWaits(m, before), clean, KillFrom(m, before, 0));
    }
  }

  /** Patience theorem: no run makes more than 10000 sweeps of the grace loop or more than 1000
      waits after the SIGKILL phase; and if the main loop is left with no child forgotten and
      signalling children succeeds, SIGKILL is used only after all 10000 sweeps, and a child is
      left at the end only after all 1000 waits. */
  lemma ShutdownIsPatient(m: State, labels: seq<Label>)
    requires Initial(m)
    ensures Sweeps(m, labels) <= 10000 && LastWaits(m, labels) <= 1000
    ensures StopsClean(m, labels) && (forall l :: l in labels ==> KillSucceeds(l)) ==>
              var r := Run(m, labels);
              && (InKillPart(r.phase) ==> Sweeps(m, labels) == 10000)
              && (r.phase.Ready? && |r.sys.children| > 0 ==> LastWaits(m, labels) == 1000)
  {
    PacedRun(m, labels, false);
    if StopsClean(m, labels) && forall l :: l in labels ==> KillSucceeds(l) {
      PacedRun(m, labels, true);
      ShutdownAccounts(m, labels);
    }
  }
}
