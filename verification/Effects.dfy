/** What the steps of any run do that can be seen from outside: whom they signal and when, whom
    they start, what they wait for and what a request queues. */
module Effects {
  import opened Options
  import opened System
  import opened Machine
  import opened Registry
  import opened Conservation
  import opened Runtimes
  import opened UnitHistory

  // ------------------------------------------------------- acting on a unit

  /** From s to r a start of program k was attempted: a program with a pid is left alone, and so
      is one without a log file; a fork gives it a new running child; a program without a home
      or a binary gets an EXIT unit queued. */
  ghost predicate Attempted(s: Sys, r: Sys, k: nat, fate: Fate)
    requires k < |s.progs|
  {
    var p := s.progs[k];
    if p.pid == 0 && fate.Forked? then
      && |r.progs| == |s.progs|
      && var pid := r.progs[k].pid;
      && 0 < pid && pid !in s.children && (0 < fate.hint && fate.hint !in s.children ==> pid == fate.hint)
      && r.children == s.children[pid := Child(k, None)] && Registered(r, pid) && r.running[pid].value == k
      && r.progs == s.progs[k := p.(pid := pid, starts := p.starts + 1, tStart := s.clock, tEnd := 0)]
      && r.events == s.events + [Event(s.clock, EvtStart, k, -1)]
      && |r.sched| == |s.sched|
    else
      && r.progs == s.progs && r.children == s.children && r.events == s.events
      && if p.pid == 0 && !fate.NoLogfile? then
           && |r.sched| == |s.sched| + 1
           && r.sched[|s.sched|] == WorkUnit(s.nextId, Exit, s.clock, Some(k))
         else |r.sched| == |s.sched|
  }

  /** From s to r program k was stopped: a STOP event, and the program's stop signal to the pid
      it holds, if it holds one. */
  ghost predicate Stopped(s: Sys, r: Sys, k: nat, tick: int)
    requires k < |s.progs|
  {
    var p := s.progs[k];
    && r.progs == s.progs && r.children == s.children && |r.sched| == |s.sched|
    && r.events == s.events + [Event(tick, EvtStop, k, -1)]
    && r.signals == s.signals + if p.pid == 0 then [] else [Signal(p.pid, p.conf.stopSig)]
  }

  lemma ServeRunAttempts(s: Sys, i: nat, k: nat, fate: Fate)
    requires Valid(s) && i < |s.sched| && k < |s.progs|
    ensures Attempted(s, ServeRun(s, i, k, fate), k, fate) && ServeRun(s, i, k, fate).signals == s.signals
  {
  }

  lemma ServeEndStops(s: Sys, i: nat, k: nat, tick: int)
    requires Valid(s) && i < |s.sched| && k < |s.progs| && s.progs[k].stopMode == 0
    ensures Stopped(s, ServeEnd(s, i, k, tick), k, tick)
  {
    assert s.progs[k].(stopMode := 0) == s.progs[k];
    assert s.signals + [] == s.signals;
  }

  /** Only a round of the first pass at a due unit is recorded as an act. */
  lemma ActIsVisit(m: State, a: Answer)
    requires WellFormed(m) && Step(m, Go(a)).acts != m.acts
    ensures m.phase.Units? && m.phase.i < |m.sys.sched|
    ensures var u := m.sys.sched[m.phase.i];
            && Timed(u.kind) && u.at <= Tick(m)
            && Step(m, Go(a)).acts == m.acts + [Act(u.id, |m.ticks| - 1)]
            && Step(m, Go(a)).sys == VisitUnit(m.sys, m.phase.i, Tick(m), FateAt(a.fates, 0))
  {
  }

  /** The last act recorded did what its unit, as it was appended, says: the start was attempted
      or the program stopped. */
  ghost predicate ActDone(before: State, after: State, fate: Fate) {
    && |after.acts| == |before.acts| + 1 && after.acts[|before.acts|].id < |before.born| && |before.ticks| > 0
    && var u := before.born[after.acts[|before.acts|].id].unit;
    && u.target.Some? && u.target.value < |before.sys.progs|
    && match u.kind
       case RunProg =>
         Attempted(before.sys, after.sys, u.target.value, fate) && after.sys.signals == before.sys.signals
       case EndProg => Stopped(before.sys, after.sys, u.target.value, Tick(before))
       case _ => false
  }

  lemma VisitActs(m: State, r: State, fate: Fate)
    requires WellFormed(m) && History(m) && Balanced(m.sys, NOBODY) && m.phase.Units? && m.phase.i < |m.sys.sched|
    requires var u := m.sys.sched[m.phase.i];
             && Timed(u.kind) && u.at <= Tick(m)
             && r.acts == m.acts + [Act(u.id, |m.ticks| - 1)]
             && r.sys == VisitUnit(m.sys, m.phase.i, Tick(m), fate)
    ensures ActDone(m, r, fate)
  {
    var i := m.phase.i;
    var u := m.sys.sched[i];
    assert m.born[u.id].unit == u;
    assert Books(m.sys, u.target.value, NOBODY);
    if u.kind.RunProg? {
      ServeRunAttempts(m.sys, i, u.target.value, fate);
    } else {
      ServeEndStops(m.sys, i, u.target.value, Tick(m));
    }
  }

  /** Act theorem: in any run a step recorded as an act on a unit carries the unit out. */
  lemma ActsAreDone(m: State, labels: seq<Label>, a: Answer)
    requires Initial(m) && Step(Run(m, labels), Go(a)).acts != Run(m, labels).acts
    ensures ActDone(Run(m, labels), Step(Run(m, labels), Go(a)), FateAt(a.fates, 0))
  {
    var before := Run(m, labels);
    HistoryRun(m, labels);
    BalancedRun(m, labels);
    ActIsVisit(before, a);
    VisitActs(before, Step(before, Go(a)), FateAt(a.fates, 0));
  }

  // ----------------------------------------------------------------- signals

  /** A signal to the pid a program holds, if it holds one. */
  function To(s: Sys, k: nat, sig: int): seq<Signal>
    requires k < |s.progs|
  {
    if s.progs[k].pid == 0 then [] else [Signal(s.progs[k].pid, sig)]
  }

  /** Program k holds a pid and the time since its last START event is over its limit; a start at
      time 0 never is. */
  ghost predicate Overdue(s: Sys, k: nat)
    requires k < |s.progs|
  {
    var limit, started := s.progs[k].conf.limits.maxRuntime, LastStart(s.events, k);
    && s.progs[k].pid != 0 && limit != -1
    && started.Some? && (if started.value == 0 then 0 else s.clock - started.value) > limit
  }

  /** What a step sends: the stop signal when a due stop unit is met, when a program is overdue
      in the maxruntime pass and when the shutdown begins, and 9 in the SIGKILL phase. */
  ghost function Sent(m: State, l: Label): seq<Signal>
    requires WellFormed(m)
  {
    var s := m.sys;
    if !l.Go? then []
    else match m.phase
      case Units(i) =>
        if i < |s.sched| && s.sched[i].kind.EndProg? && s.sched[i].at <= Tick(m)
        then To(s, s.sched[i].target.value, s.progs[s.sched[i].target.value].conf.stopSig) else []
      case Runtimes(i) => if i < |s.progs| && Overdue(s, i) then To(s, i, s.progs[i].conf.stopSig) else []
      case Signalling(i, _) => if i < |s.progs| then To(s, i, s.progs[i].conf.stopSig) else []
      case Killing(i, _) => if i < |s.progs| then To(s, i, 9) else []
      case _ => []
  }

  /** No signal is sent and the scheduler is not switched. */
  ghost predicate Quietly(s: Sys, r: Sys) {
    r.signals == s.signals && r.on == s.on
  }

  lemma ActionQuietly(s: Sys, k: nat, a: Action, limited: bool, fate: Fate)
    requires Valid(s) && k < |s.progs|
    ensures Quietly(s, ApplyAction(s, k, a, limited, fate))
  {
  }

  lemma {:induction false} ActionsQuietly(s: Sys, k: nat, actions: seq<Action>, n: nat, limited: bool, fates: seq<Fate>)
    requires Valid(s) && k < |s.progs| && n <= |actions|
    ensures Quietly(s, ApplyActions(s, k, actions, n, limited, fates))
  {
    if n > 0 {
      ActionsQuietly(s, k, actions, n - 1, limited, fates);
      ActionQuietly(ApplyActions(s, k, actions, n - 1, limited, fates), k, actions[n - 1], limited, FateAt(fates, n - 1));
    }
  }

  lemma WhatNextQuietly(s: Sys, k: nat, res: int, sig: int, fates: seq<Fate>)
    requires Valid(s) && k < |s.progs|
    ensures Quietly(s, WhatNext(s, k, res, sig, fates))
  {
    var p := s.progs[k];
    var found := GetActions(p.conf, res, sig);
    if p.stopMode != 1 && p.seqIdx == |p.conf.cmds| - 1 && found.Some? {
      var s1 := IncSeqIdx(s, k);
      ActionsQuietly(LogLimits(s1, k), k, found.value, |found.value|, Limited(s1, k), fates);
    }
  }

  lemma ReapQuietly(s: Sys, c: int, tick: int, fates: seq<Fate>)
    requires Valid(s) && c in s.children && s.children[c].status.Some? && Registered(s, c)
    ensures Quietly(s, ReapChild(s, c, tick, fates))
  {
    var k := s.running[c].value;
    var status := s.children[c].status.value;
    WhatNextQuietly(Buried(s, c, tick), k, ExitStatus(status), if Signaled(status) then TermSig(status) else 0, fates);
  }

  lemma OverdueIs(s: Sys, k: nat)
    requires k < |s.progs| && Timekept(s)
    ensures OverRuntime(s.progs[k], s.clock) <==> Overdue(s, k)
  {
  }

  lemma UnitSends(s: Sys, i: nat, tick: int, fate: Fate)
    requires Valid(s) && i < |s.sched|
    ensures var u := s.sched[i];
            VisitUnit(s, i, tick, fate).signals
            == s.signals + if u.kind.EndProg? && u.at <= tick
                           then To(s, u.target.value, s.progs[u.target.value].conf.stopSig) else []
  {
    var u := s.sched[i];
    if u.kind.RunProg? && u.at <= tick { ServeRunAttempts(s, i, u.target.value, fate); }
  }

  lemma VisitSends(m: State, a: Answer)
    requires WellFormed(m) && m.phase.Units?
    ensures Round(m, a).sys.signals == m.sys.signals + Sent(m, Go(a))
  {
    if m.phase.i < |m.sys.sched| { UnitSends(m.sys, m.phase.i, Tick(m), FateAt(a.fates, 0)); }
  }

  lemma ReapRoundQuietly(m: State, a: Answer)
    requires WellFormed(m) && m.phase.Reaping?
    ensures Quietly(m.sys, Round(m, a).sys)
  {
    var c := WaitPidResult(m.sys.children, m.phase.pid, a.hint);
    if c > 0 && Registered(m.sys, c) { ReapQuietly(m.sys, c, Tick(m), a.fates); }
  }

  lemma ElsewhereSends(m: State, a: Answer)
    requires WellFormed(m) && Inv(m.sys, false) && !m.phase.Units? && !m.phase.Runtimes? && !m.phase.Reaping?
    ensures Round(m, a).sys.signals == m.sys.signals + Sent(m, Go(a))
  {
  }

  lemma RoundSends(m: State, a: Answer)
    requires WellFormed(m) && Timekept(m.sys) && Inv(m.sys, false)
    ensures Round(m, a).sys.signals == m.sys.signals + Sent(m, Go(a))
  {
    match m.phase
    case Units(_) => VisitSends(m, a);
    case Runtimes(i) => if i < |m.sys.progs| { OverdueIs(m.sys, i); }
    case Reaping(_, _) => ReapRoundQuietly(m, a);
    case _ => ElsewhereSends(m, a);
  }

  lemma StepSends(m: State, l: Label)
    requires WellFormed(m) && Timekept(m.sys) && Inv(m.sys, false)
    ensures Step(m, l).sys.signals == m.sys.signals + Sent(m, l)
  {
    if l.Go? { RoundSends(m, l.answer); }
  }

  lemma SentToChildren(m: State, l: Label)
    requires WellFormed(m) && Inv(m.sys, false)
    ensures forall x :: x in Sent(m, l) ==> x.pid in m.sys.children
  {
  }

  /** Signal theorem: the signals sent in a step of any run are exactly these, and each goes to
      an unreaped child, never to a pid that has been waited for. */
  lemma SignalsAreSent(m: State, labels: seq<Label>, l: Label)
    requires Initial(m)
    ensures var before := Run(m, labels);
            && Step(before, l).sys.signals == before.sys.signals + Sent(before, l)
            && forall x :: x in Sent(before, l) ==> x.pid in before.sys.children
  {
    var before := Run(m, labels);
    InvRun(m, labels, false);
    TimekeptRun(m, labels);
    StepSends(before, l);
    SentToChildren(before, l);
  }

  /** In the maxruntime pass of any run each program in turn is forgotten and logged if it is
      overdue, and nothing else happens to any. */
  lemma OverdueAreForgotten(m: State, labels: seq<Label>, a: Answer)
    requires Initial(m) && Run(m, labels).phase.Runtimes? && Run(m, labels).phase.i < |m.sys.progs|
    ensures var before, after := Run(m, labels), Step(Run(m, labels), Go(a));
            var i, s := before.phase.i, before.sys;
            && after.phase == Runtimes(i + 1) && after.sys.children == s.children && after.sys.sched == s.sched
            && if Overdue(s, i) then
                 && after.sys.progs == s.progs[i := s.progs[i].(pid := 0)]
                 && after.sys.events == s.events + [Event(Tick(before), EvtLimit, i, 0)]
               else after.sys == s
  {
    TimekeptRun(m, labels);
    OverdueIs(Run(m, labels).sys, Run(m, labels).phase.i);
  }

  // ------------------------------------------------------------------- waits

  /** What a wait gives: a dead child, and if it is for a pid that child; or nothing when no such
      child is dead, and -1 when there is none at all. */
  lemma WaitGives(children: map<int, Child>, pid: int, hint: int)
    requires forall c :: c in children ==> c > 0
    ensures var c := WaitPidResult(children, pid, hint);
            && (c > 0 ==> c in children && children[c].status.Some? && (pid == 0 || pid == c))
            && (c <= 0 ==> forall x :: x in children && (pid == 0 || pid == x) ==> children[x].status.None?)
            && (c < 0 <==> forall x :: x in children ==> pid != 0 && pid != x)
  {
    var c := WaitPidResult(children, pid, hint);
    if c <= 0 {
      forall x | x in children && (pid == 0 || pid == x) ensures children[x].status.None? {
        assert !Zombie(children, pid, x);
      }
    }
  }

  /** The pid that the thread waits for, in a round that waits. */
  function Awaited(m: State): int
    requires m.phase.Grace? ==> m.phase.i < |m.sys.progs|
  {
    match m.phase
    case Reaping(_, pid) => pid
    case Grace(i, _, _, _) => m.sys.progs[i].pid
    case _ => 0
  }

  /** The reap loop goes on with a program until no child it waits for is dead, and then takes
      the next program with the pid that one holds by then. */
  ghost predicate TakesTurns(before: State, after: State)
    requires before.phase.Reaping?
  {
    var Reaping(i, pid) := before.phase;
    var s := before.sys;
    if exists c :: c in s.children && s.children[c].status.Some? && (pid == 0 || pid == c) then
      after.phase == before.phase
    else
      && after.sys == s
      && after.phase == if i + 1 < |s.progs| then Reaping(i + 1, s.progs[i + 1].pid) else Idle
  }

  lemma RoundTakesTurns(m: State, a: Answer)
    requires WellFormed(m) && Inv(m.sys, false) && m.phase.Reaping?
    ensures TakesTurns(m, Round(m, a))
  {
    WaitGives(m.sys.children, m.phase.pid, a.hint);
  }

  lemma ReapsInTurn(m: State, labels: seq<Label>, a: Answer)
    requires Initial(m) && Run(m, labels).phase.Reaping?
    ensures TakesTurns(Run(m, labels), Step(Run(m, labels), Go(a)))
  {
    InvRun(m, labels, false);
    RoundTakesTurns(Run(m, labels), a);
    StepIsRound(Run(m, labels), a);
  }

  /** From s to r child c is gone, nobody is registered for it and its program ended at tEnd. */
  ghost predicate LosesChild(s: Sys, r: Sys, c: int, tEnd: int)
    requires c in s.children && s.children[c].owner < |s.progs|
  {
    var k := s.children[c].owner;
    r == s.(children := s.children - {c}, running := s.running[c := None],
            progs := s.progs[k := s.progs[k].(pid := 0, tEnd := tEnd)])
  }

  lemma BegunKept(m: State, l: Label)
    requires WellFormed(m)
    ensures Step(m, l).begun == m.begun
  {
  }

  lemma {:induction false} BegunStays(m: State, labels: seq<Label>)
    requires WellFormed(m)
    ensures Run(m, labels).begun == m.begun
    decreases |labels|
  {
    if labels != [] {
      BegunStays(m, labels[..|labels| - 1]);
      BegunKept(Run(m, labels[..|labels| - 1]), labels[|labels| - 1]);
    }
  }

  /** A round of the shutdown's wait loops that gets c: with a dead child that is awaited both
      counters fall, with no child to await only the second does; the program's end is the time
      the thread began. */
  ghost predicate WaitsOnce(before: State, after: State, c: int, begun: int)
    requires before.phase.Grace? || before.phase.Aftermath?
  {
    var s := before.sys;
    var p, k := before.phase.pCount - (if c > 0 then 1 else 0), before.phase.kCount - (if c != 0 then 1 else 0);
    && (if c > 0 then
          c in s.children && s.children[c].owner < |s.progs| && LosesChild(s, after.sys, c, begun)
        else after.sys == s)
    && match before.phase
       case Grace(i, tries, _, _) => after.phase == Grace(i + 1, tries, p, k)
       case Aftermath(tries, _, _) => after.phase == if tries > 0 && k > 0 then Aftermath(tries - 1, p, k) else Ready(true)
       case _ => true
  }

  predicate WaitsInShutdown(m: State) {
    m.phase.Aftermath? || (m.phase.Grace? && m.phase.i < |m.sys.progs|)
  }

  lemma RoundWaitsOnce(m: State, a: Answer)
    requires WellFormed(m) && Inv(m.sys, false) && WaitsInShutdown(m)
    ensures WaitsOnce(m, Round(m, a), WaitPidResult(m.sys.children, Awaited(m), a.hint), m.begun)
  {
    WaitGives(m.sys.children, Awaited(m), a.hint);
  }

  lemma ShutdownWaits(m: State, labels: seq<Label>, a: Answer)
    requires Initial(m) && WaitsInShutdown(Run(m, labels))
    ensures var before := Run(m, labels);
            WaitsOnce(before, Step(before, Go(a)), WaitPidResult(before.sys.children, Awaited(before), a.hint), m.begun)
  {
    InvRun(m, labels, false);
    BegunStays(m, labels);
    RoundWaitsOnce(Run(m, labels), a);
    StepIsRound(Run(m, labels), a);
  }

  /** A round that waits for nobody and acts on no unit: the test of the main loop, which reads the
      clock; the signals of the shutdown, of which the successful ones are counted; the end of a
      sweep and the SIGKILL phase, where every program with a pid counts. */
  ghost predicate GoesOn(before: State, after: State, killOk: bool) {
    var s := before.sys;
    var n := |s.progs|;
    match before.phase
    case Idle =>
      if s.on then after.phase == Units(0) && after.ticks == before.ticks + [s.clock]
      else after.phase == Signalling(0, 0) && after.ticks == before.ticks
    case Signalling(i, count) =>
      if i < n then after.phase == Signalling(i + 1, count + if s.progs[i].pid > 0 && killOk then 1 else 0)
      else after.phase == if count > 0 then Grace(0, 9999, count, count) else Ready(false)
    case Grace(i, tries, p, k) =>
      i >= n ==>
        after.phase == if tries > 0 && k > 0 then Grace(0, tries - 1, p, k)
                       else if p > 0 then Killing(0, 0) else Ready(false)
    case Killing(i, count) =>
      if i < n then after.phase == Killing(i + 1, count + if s.progs[i].pid > 0 then 1 else 0)
      else after.phase == if count > 0 then Aftermath(999, count, count) else Ready(true)
    case Ready(_) => after.phase == before.phase && after.sys == s
    case _ => true
  }

  lemma RoundGoesOn(m: State, a: Answer)
    requires WellFormed(m)
    ensures GoesOn(m, Round(m, a), a.killOk)
  {
  }

  lemma RoundsGoOn(m: State, labels: seq<Label>, a: Answer)
    requires WellFormed(m)
    ensures GoesOn(Run(m, labels), Step(Run(m, labels), Go(a)), a.killOk)
  {
    RoundGoesOn(Run(m, labels), a);
    StepIsRound(Run(m, labels), a);
  }

  // ---------------------------------------------------------------- requests

  /** One unit for now, for the first program with the name; nothing when there is none. */
  ghost predicate Queued(s: Sys, r: Sys, cmd: Command) {
    match cmd
    case QuitCmd => r.sched == s.sched + [WorkUnit(s.nextId, Exit, s.clock, None)]
    case _ =>
      if exists j :: 0 <= j < |s.progs| && s.progs[j].conf.name == cmd.name then
        && |r.sched| == |s.sched| + 1 && r.sched[..|s.sched|] == s.sched
        && var u := r.sched[|s.sched|];
        && u.id == s.nextId && u.at == s.clock
        && u.kind == (if cmd.StartCmd? then RunProg else EndProg)
        && u.target.Some? && IsNamed(s.progs, 0, cmd.name, u.target.value)
      else r == s
  }

  lemma ServeQueues(s: Sys, cmd: Command)
    requires Valid(s)
    ensures Queued(s, Serve(s, cmd), cmd)
  {
    if !cmd.QuitCmd? {
      var p := FindProgram(s.progs, cmd.name);
      assert p.Some? ==> IsNamed(s.progs, 0, cmd.name, p.value);
    }
  }

  /** What a request does in any run. */
  lemma RequestsQueue(m: State, labels: seq<Label>, cmd: Command)
    requires Initial(m)
    ensures var before, after := Run(m, labels), Step(Run(m, labels), Request(cmd));
            after.phase == before.phase && Queued(before.sys, after.sys, cmd)
  {
    ServeQueues(Run(m, labels).sys, cmd);
  }
}
