/** Every loop of the `scheduler` function is a run of the state machine, so that what holds
    of every run holds after every turn of the main loop and after the shutdown. */
module LoopRuns {
  import opened Options
  import opened System
  import opened Machine
  import opened Passes
  import opened Loops
  import opened Registry
  import opened Conservation
  import opened Shutdown

  /** r has the given phase and system, and m's clock readings. */
  ghost predicate Now(m: State, r: State, phase: Phase, sys: Sys) {
    r.phase == phase && r.sys == sys && r.ticks == m.ticks && r.begun == m.begun
  }

  /** Where a run ends that goes on from another. */
  lemma NowConcat(m: State, here: seq<Label>, rest: seq<Label>, phase: Phase, sys: Sys)
    requires WellFormed(m)
    requires Run(m, here).ticks == m.ticks && Run(m, here).begun == m.begun
    requires Now(Run(m, here), Run(Run(m, here), rest), phase, sys)
    ensures Now(m, Run(m, here + rest), phase, sys)
  {
    RunConcat(m, here, rest);
  }

  /** Where a run ends that begins with one step. */
  lemma NowThen(m: State, l: Label, rest: seq<Label>, phase: Phase, sys: Sys)
    requires WellFormed(m)
    requires Step(m, l).ticks == m.ticks && Step(m, l).begun == m.begun
    requires Now(Step(m, l), Run(Step(m, l), rest), phase, sys)
    ensures Now(m, Run(m, [l] + rest), phase, sys)
  {
    Then(m, l, rest);
  }

  // ------------------------------------------------------------------ one step

  lemma VisitStep(m: State, i: nat, fate: Fate)
    requires WellFormed(m) && m.phase == Units(i) && i < |m.sys.sched|
    ensures Now(m, Step(m, Go(Answer([fate], 0, true))), Units(i + 1), VisitUnit(m.sys, i, Tick(m), fate))
  {
  }

  lemma EraseStep(m: State, i: nat)
    requires WellFormed(m) && m.phase == Units(i) && i >= |m.sys.sched|
    ensures Now(m, Step(m, Go(NO_ANSWER)), Runtimes(0), Erased(m.sys))
  {
  }

  lemma RuntimeStep(m: State, i: nat)
    requires WellFormed(m) && m.phase == Runtimes(i)
    ensures i < |m.sys.progs| ==> Now(m, Step(m, Go(NO_ANSWER)), Runtimes(i + 1), CheckRuntime(m.sys, i, Tick(m)))
    ensures i >= |m.sys.progs| ==> Now(m, Step(m, Go(NO_ANSWER)), EnterReap(m.sys, 0), m.sys)
  {
  }

  lemma ReapStep(m: State, i: nat, pid: int, a: Answer)
    requires WellFormed(m) && m.phase == Reaping(i, pid)
    ensures var r := Step(m, Go(a));
            var c := WaitPidResult(m.sys.children, pid, a.hint);
            if c <= 0 then Now(m, r, EnterReap(m.sys, i + 1), m.sys)
            else if !Registered(m.sys, c) then Now(m, r, NullExit, LoseChild(m.sys, c))
            else Now(m, r, Reaping(i, pid), ReapChild(m.sys, c, Tick(m), a.fates))
  {
  }

  // ------------------------------------------------------------------ the tick

  lemma {:induction false} FirstPassRun(m: State, i: nat, fates: seq<Fate>) returns (labels: seq<Label>)
    requires WellFormed(m) && m.phase == Units(i) && i <= |m.sys.sched|
    ensures var r := Run(m, labels);
            r.phase.Units? && r.phase.i >= |r.sys.sched| && Now(m, r, r.phase, FirstPass(m.sys, i, Tick(m), fates))
    decreases Work(m.sys.sched, i)
  {
    if i < |m.sys.sched| {
      var fate := FateAt(fates, i);
      var l := Go(Answer([fate], 0, true));
      VisitStep(m, i, fate);
      VisitProgress(m.sys, i, Tick(m), fate);
      VisitElements(m.sys, i, Tick(m), fate);
      var next := Step(m, l);
      var rest := FirstPassRun(next, i + 1, fates);
      Then(m, l, rest);
      assert FirstPass(m.sys, i, Tick(m), fates) == FirstPass(next.sys, i + 1, Tick(next), fates);
      labels := [l] + rest;
    } else {
      labels := [];
    }
  }

  /** One round in front of the rest of the pass. */
  lemma RuntimeRoundRun(m: State, next: State, i: nat, rest: seq<Label>, s: Sys)
    requires WellFormed(m) && m.phase == Runtimes(i) && i < |m.sys.progs| && WellFormed(next)
    requires next == Step(m, Go(NO_ANSWER)) && Now(m, next, Runtimes(i + 1), CheckRuntime(m.sys, i, Tick(m)))
    requires s == RuntimePass(next.sys, i + 1, Tick(next)) && Now(next, Run(next, rest), EnterReap(s, 0), s)
    ensures s == RuntimePass(m.sys, i, Tick(m)) && Now(m, Run(m, [Go(NO_ANSWER)] + rest), EnterReap(s, 0), s)
  {
    Then(m, Go(NO_ANSWER), rest);
  }

  lemma {:induction false} RuntimePassRun(m: State, i: nat) returns (labels: seq<Label>)
    requires WellFormed(m) && m.phase == Runtimes(i) && i <= |m.sys.progs|
    ensures var s := RuntimePass(m.sys, i, Tick(m));
            Now(m, Run(m, labels), EnterReap(s, 0), s)
    decreases |m.sys.progs| - i
  {
    RuntimeStep(m, i);
    if i >= |m.sys.progs| {
      RunOne(m, Go(NO_ANSWER));
      return [Go(NO_ANSWER)];
    }
    var next := Step(m, Go(NO_ANSWER));
    var rest := RuntimePassRun(next, i + 1);
    RuntimeRoundRun(m, next, i, rest, RuntimePass(next.sys, i + 1, Tick(next)));
    labels := [Go(NO_ANSWER)] + rest;
  }

  ghost function AfterReap(r: Reaped, i: nat): Phase {
    if r.ok then EnterReap(r.sys, i) else NullExit
  }

  /** The wait that ends the inner loop. */
  lemma ReapEnd(m: State, i: nat, pid: int, answers: seq<Answer>, calls: nat)
    requires WellFormed(m) && m.phase == Reaping(i, pid)
    requires var c := WaitPidResult(m.sys.children, pid, AnswerAt(answers, calls).hint);
             c <= 0 || !Registered(m.sys, c)
    ensures var r := ReapProgram(m.sys, pid, Tick(m), answers, calls);
            Now(m, Run(m, [Go(AnswerAt(answers, calls))]), AfterReap(r, i + 1), r.sys)
  {
    ReapStep(m, i, pid, AnswerAt(answers, calls));
    RunOne(m, Go(AnswerAt(answers, calls)));
  }

  /** A wait that reaps. */
  lemma ReapMore(m: State, i: nat, pid: int, answers: seq<Answer>, calls: nat)
    requires WellFormed(m) && m.phase == Reaping(i, pid)
    requires var c := WaitPidResult(m.sys.children, pid, AnswerAt(answers, calls).hint);
             c > 0 && Registered(m.sys, c)
    ensures var next := Step(m, Go(AnswerAt(answers, calls)));
            && next.phase == m.phase && next.ticks == m.ticks && next.begun == m.begun
            && |DeadChildren(next.sys.children)| < |DeadChildren(m.sys.children)|
            && ReapProgram(m.sys, pid, Tick(m), answers, calls) == ReapProgram(next.sys, pid, Tick(m), answers, calls + 1)
  {
    var a := AnswerAt(answers, calls);
    ReapStep(m, i, pid, a);
    ReapProgress(m.sys, WaitPidResult(m.sys.children, pid, a.hint), Tick(m), a.fates);
  }

  lemma {:induction false} ReapProgramRun(m: State, i: nat, pid: int, answers: seq<Answer>, calls: nat) returns (labels: seq<Label>)
    requires WellFormed(m) && m.phase == Reaping(i, pid)
    ensures var r := ReapProgram(m.sys, pid, Tick(m), answers, calls);
            Now(m, Run(m, labels), AfterReap(r, i + 1), r.sys)
    decreases |DeadChildren(m.sys.children)|
  {
    var a := AnswerAt(answers, calls);
    var c := WaitPidResult(m.sys.children, pid, a.hint);
    if c <= 0 || !Registered(m.sys, c) {
      ReapEnd(m, i, pid, answers, calls);
      return [Go(a)];
    }
    ReapMore(m, i, pid, answers, calls);
    var next := Step(m, Go(a));
    var rest := ReapProgramRun(next, i, pid, answers, calls + 1);
    var r := ReapProgram(next.sys, pid, Tick(next), answers, calls + 1);
    NowThen(m, Go(a), rest, AfterReap(r, i + 1), r.sys);
    labels := [Go(a)] + rest;
  }

  lemma {:induction false} ReapPassRun(m: State, i: nat, answers: seq<Answer>, calls: nat) returns (labels: seq<Label>)
    requires WellFormed(m) && i <= |m.sys.progs| && m.phase == EnterReap(m.sys, i) && |m.ticks| > 0
    ensures var r := ReapPass(m.sys, i, Tick(m), answers, calls);
            Now(m, Run(m, labels), if r.ok then Idle else NullExit, r.sys)
    decreases |m.sys.progs| - i
  {
    if i < |m.sys.progs| {
      var pid := m.sys.progs[i].pid;
      var here := ReapProgramRun(m, i, pid, answers, calls);
      var r := ReapProgram(m.sys, pid, Tick(m), answers, calls);
      var next := Run(m, here);
      if r.ok {
        assert Tick(next) == Tick(m);
        var rest := ReapPassRun(next, i + 1, answers, r.calls);
        var all := ReapPass(r.sys, i + 1, Tick(m), answers, r.calls);
        NowConcat(m, here, rest, if all.ok then Idle else NullExit, all.sys);
        labels := here + rest;
      } else {
        labels := here;
      }
    } else {
      labels := [];
    }
  }

  /** A turn of the main loop is a run from Idle to Idle. */
  lemma TickRun(m: State, fates: seq<Fate>, answers: seq<Answer>) returns (labels: seq<Label>)
    requires WellFormed(m) && m.phase == Idle && m.sys.on
    ensures var r := TickOnce(m.sys, fates, answers);
            var e := Run(m, labels);
            && e.sys == r.sys && e.begun == m.begun && e.ticks == m.ticks + [m.sys.clock]
            && e.phase == if r.ok then Idle else NullExit
  {
    var l0 := Go(NO_ANSWER);
    RunOne(m, l0);
    var m0 := Step(m, l0);
    assert m0.phase == Units(0) && m0.sys == m.sys && m0.ticks == m.ticks + [m.sys.clock] && m0.begun == m.begun;
    var l1 := FirstPassRun(m0, 0, fates);
    var m1 := Run(m0, l1);
    EraseStep(m1, m1.phase.i);
    RunOne(m1, l0);
    var m2 := Step(m1, l0);
    var l3 := RuntimePassRun(m2, 0);
    var m3 := Run(m2, l3);
    var l4 := ReapPassRun(m3, 0, answers, 0);
    RunConcat(m2, l3, l4);
    RunConcat(m1, [l0], l3 + l4);
    RunConcat(m0, l1, [l0] + (l3 + l4));
    RunConcat(m, [l0], l1 + ([l0] + (l3 + l4)));
    labels := [l0] + (l1 + ([l0] + (l3 + l4)));
  }

  // -------------------------------------------------------------- the shutdown

  lemma SignalStep(m: State, i: nat, count: int, a: Answer)
    requires WellFormed(m) && m.phase == Signalling(i, count) && i < |m.sys.progs|
    ensures var up := m.sys.progs[i].pid > 0;
            Now(m, Step(m, Go(a)),
                Signalling(i + 1, if up && a.killOk then count + 1 else count),
                if up then SendSignal(m.sys, i, m.sys.progs[i].conf.stopSig) else m.sys)
  {
  }

  lemma KillStep(m: State, i: nat, count: int)
    requires WellFormed(m) && m.phase == Killing(i, count) && i < |m.sys.progs|
    ensures var up := m.sys.progs[i].pid > 0;
            Now(m, Step(m, Go(NO_ANSWER)),
                Killing(i + 1, if up then count + 1 else count),
                if up then SendSignal(m.sys, i, SIG_KILL) else m.sys)
  {
  }

  ghost predicate KillsSucceed(labels: seq<Label>) {
    forall l :: l in labels ==> KillSucceeds(l)
  }

  ghost predicate AnswersOk(answers: seq<Answer>) {
    forall a :: a in answers ==> a.killOk
  }

  function SignalLabels(answers: seq<Answer>, i: nat, n: nat): (labels: seq<Label>)
    ensures AnswersOk(answers) ==> KillsSucceed(labels)
    decreases n - i
  {
    [Go(AnswerAt(answers, i))] + if i < n then SignalLabels(answers, i + 1, n) else []
  }

  lemma {:induction false} SignalLoopRun(m: State, i: nat, count: int, answers: seq<Answer>)
    requires WellFormed(m) && m.phase == Signalling(i, count) && i <= |m.sys.progs|
    ensures var r := SignalLoop(m.sys, i, count, answers);
            Now(m, Run(m, SignalLabels(answers, i, |m.sys.progs|)), GraceTest(GRACE_TRIES, r.count, r.count), r.sys)
    decreases |m.sys.progs| - i
  {
    var l := Go(AnswerAt(answers, i));
    if i < |m.sys.progs| {
      SignalStep(m, i, count, AnswerAt(answers, i));
      var next := Step(m, l);
      SignalLoopRun(next, i + 1, next.phase.count, answers);
      Then(m, l, SignalLabels(answers, i + 1, |m.sys.progs|));
    } else {
      assert [l] + [] == [l];
      RunOne(m, l);
    }
  }

  lemma {:induction false} KillLoopRun(m: State, i: nat, count: int) returns (labels: seq<Label>)
    requires WellFormed(m) && m.phase == Killing(i, count) && i <= |m.sys.progs|
    ensures var r := KillLoop(m.sys, i, count);
            Now(m, Run(m, labels), AftermathTest(KILL_TRIES, r.count, r.count), r.sys)
    ensures KillsSucceed(labels)
    decreases |m.sys.progs| - i
  {
    var l := Go(NO_ANSWER);
    if i < |m.sys.progs| {
      KillStep(m, i, count);
      var rest := KillLoopRun(Step(m, l), i + 1, Step(m, l).phase.count);
      Then(m, l, rest);
      labels := [l] + rest;
    } else {
      RunOne(m, l);
      labels := [l];
    }
  }

  lemma EnvironmentStep(m: State, l: Label)
    requires WellFormed(m) && !l.Go?
    ensures Now(m, Step(m, l), m.phase, HappenOne(m.sys, l))
  {
  }

  lemma {:induction false} HappenRun(m: State, happened: seq<Label>) returns (labels: seq<Label>)
    requires WellFormed(m)
    ensures Now(m, Run(m, labels), m.phase, Happen(m.sys, happened)) && KillsSucceed(labels)
    decreases |happened|
  {
    if happened == [] {
      labels := [];
    } else if happened[0].Go? {
      labels := HappenRun(m, happened[1..]);
    } else {
      EnvironmentStep(m, happened[0]);
      var rest := HappenRun(Step(m, happened[0]), happened[1..]);
      Then(m, happened[0], rest);
      labels := [happened[0]] + rest;
    }
  }

  /** A wait signals nobody, so that part of the answer does not matter. */
  function Waiting(a: Answer): Label {
    Go(a.(killOk := true))
  }

  lemma GraceStep(m: State, i: nat, tries: int, p: int, k: int, a: Answer)
    requires WellFormed(m) && m.phase == Grace(i, tries, p, k) && i < |m.sys.progs|
    ensures var r := WaitOnce(m.sys, m.sys.progs[i].pid, m.begun, p, k, Happening([], a), 0);
            Now(m, Step(m, Waiting(a)), if r.ok then Grace(i + 1, tries, r.pCount, r.kCount) else NullExit, r.sys)
  {
  }

  lemma AftermathStep(m: State, tries: int, p: int, k: int, a: Answer)
    requires WellFormed(m) && m.phase == Aftermath(tries, p, k)
    ensures var r := WaitOnce(m.sys, 0, m.begun, p, k, Happening([], a), 0);
            Now(m, Step(m, Waiting(a)), if r.ok then AftermathTest(tries, r.pCount, r.kCount) else NullExit, r.sys)
  {
  }

  lemma HappenPids(s: Sys, happened: seq<Label>)
    requires Valid(s)
    ensures Happen(s, happened).progs == s.progs
    decreases |happened|
  {
    if happened != [] { HappenPids(HappenOne(s, happened[0]), happened[1..]); }
  }

  lemma WaitAgrees(s: Sys, pid: int, begun: int, p: int, k: int, h: Happening, calls: nat)
    requires Valid(s)
    ensures var r, q := WaitOnce(s, pid, begun, p, k, h, calls), WaitOnce(Happen(s, h.before), pid, begun, p, k, Happening([], h.answer), 0);
            q.sys == r.sys && q.pCount == r.pCount && q.kCount == r.kCount && q.ok == r.ok
  {
    WaitSplit(s, pid, begun, p, k, h, calls);
  }

  lemma GraceOnceRun(m: State, i: nat, tries: int, p: int, k: int, h: Happening, calls: nat) returns (labels: seq<Label>)
    requires WellFormed(m) && m.phase == Grace(i, tries, p, k) && i < |m.sys.progs|
    ensures var r := WaitOnce(m.sys, m.sys.progs[i].pid, m.begun, p, k, h, calls);
            Now(m, Run(m, labels), if r.ok then Grace(i + 1, tries, r.pCount, r.kCount) else NullExit, r.sys)
    ensures KillsSucceed(labels)
  {
    var before := HappenRun(m, h.before);
    var m1 := Run(m, before);
    HappenPids(m.sys, h.before);
    WaitAgrees(m.sys, m.sys.progs[i].pid, m.begun, p, k, h, calls);
    GraceStep(m1, i, tries, p, k, h.answer);
    RunOne(m1, Waiting(h.answer));
    RunConcat(m, before, [Waiting(h.answer)]);
    labels := before + [Waiting(h.answer)];
  }

  lemma GraceEndStep(m: State, i: nat, tries: int, p: int, k: int)
    requires WellFormed(m) && m.phase == Grace(i, tries, p, k) && i >= |m.sys.progs|
    ensures Now(m, Run(m, [Go(NO_ANSWER)]), GraceTest(tries, p, k), m.sys)
  {
    RunOne(m, Go(NO_ANSWER));
  }

  /** The sweep from program i on, given what the first wait and the rest of the sweep did. */
  lemma GraceSweepJoin(m: State, i: nat, tries: int, p: int, k: int, script: seq<Happening>, calls: nat,
                       one: seq<Label>, rest: seq<Label>)
    requires WellFormed(m) && m.phase == Grace(i, tries, p, k) && i < |m.sys.progs|
    requires var r := WaitOnce(m.sys, m.sys.progs[i].pid, m.begun, p, k, HappeningAt(script, calls), calls);
             var all := GraceSweep(r.sys, i + 1, m.begun, r.pCount, r.kCount, script, r.calls);
             && r.ok
             && Now(m, Run(m, one), Grace(i + 1, tries, r.pCount, r.kCount), r.sys)
             && Now(Run(m, one), Run(Run(m, one), rest), if all.ok then GraceTest(tries, all.pCount, all.kCount) else NullExit, all.sys)
    ensures var all := GraceSweep(m.sys, i, m.begun, p, k, script, calls);
            Now(m, Run(m, one + rest), if all.ok then GraceTest(tries, all.pCount, all.kCount) else NullExit, all.sys)
  {
    RunConcat(m, one, rest);
  }

  lemma {:induction false} GraceSweepRun(m: State, i: nat, tries: int, p: int, k: int, script: seq<Happening>, calls: nat)
    returns (labels: seq<Label>)
    requires WellFormed(m) && m.phase == Grace(i, tries, p, k) && i <= |m.sys.progs|
    ensures var r := GraceSweep(m.sys, i, m.begun, p, k, script, calls);
            Now(m, Run(m, labels), if r.ok then GraceTest(tries, r.pCount, r.kCount) else NullExit, r.sys)
    ensures KillsSucceed(labels)
    decreases |m.sys.progs| - i
  {
    if i >= |m.sys.progs| {
      GraceEndStep(m, i, tries, p, k);
      return [Go(NO_ANSWER)];
    }
    labels := GraceOnceRun(m, i, tries, p, k, HappeningAt(script, calls), calls);
    var r := WaitOnce(m.sys, m.sys.progs[i].pid, m.begun, p, k, HappeningAt(script, calls), calls);
    if r.ok {
      var rest := GraceSweepRun(Run(m, labels), i + 1, tries, r.pCount, r.kCount, script, r.calls);
      GraceSweepJoin(m, i, tries, p, k, script, calls, labels, rest);
      labels := labels + rest;
    }
  }

  lemma {:induction false} GraceLoopRun(m: State, tries: nat, p: int, k: int, script: seq<Happening>, calls: nat)
    returns (labels: seq<Label>)
    requires WellFormed(m) && m.phase == GraceTest(tries, p, k)
    ensures var r := GraceLoop(m.sys, tries, m.begun, p, k, script, calls);
            Now(m, Run(m, labels), if !r.ok then NullExit else if r.pCount > 0 then Killing(0, 0) else Ready(false), r.sys)
    ensures KillsSucceed(labels)
    decreases tries
  {
    labels := [];
    if tries > 0 && k > 0 {
      labels := GraceSweepRun(m, 0, tries - 1, p, k, script, calls);
      var r := GraceSweep(m.sys, 0, m.begun, p, k, script, calls);
      if r.ok {
        var rest := GraceLoopRun(Run(m, labels), tries - 1, r.pCount, r.kCount, script, r.calls);
        RunConcat(m, labels, rest);
        labels := labels + rest;
      }
    }
  }

  lemma {:induction false} AftermathLoopRun(m: State, tries: nat, p: int, k: int, script: seq<Happening>, calls: nat)
    returns (labels: seq<Label>)
    requires WellFormed(m) && m.phase == AftermathTest(tries, p, k)
    ensures var r := AftermathLoop(m.sys, tries, m.begun, p, k, script, calls);
            Now(m, Run(m, labels), if r.ok then Ready(true) else NullExit, r.sys)
    ensures KillsSucceed(labels)
    decreases tries
  {
    labels := [];
    if tries > 0 && k > 0 {
      var h := HappeningAt(script, calls);
      var before := HappenRun(m, h.before);
      var m1 := Run(m, before);
      WaitAgrees(m.sys, 0, m.begun, p, k, h, calls);
      AftermathStep(m1, tries - 1, p, k, h.answer);
      var r := WaitOnce(m.sys, 0, m.begun, p, k, h, calls);
      RunOne(m1, Waiting(h.answer));
      RunConcat(m, before, [Waiting(h.answer)]);
      labels := before + [Waiting(h.answer)];
      if r.ok {
        var rest := AftermathLoopRun(Step(m1, Waiting(h.answer)), tries - 1, r.pCount, r.kCount, script, r.calls);
        RunConcat(m, labels, rest);
        labels := labels + rest;
      }
    }
  }

  lemma KillPartRun(m: State, script: seq<Happening>, calls: nat) returns (labels: seq<Label>)
    requires WellFormed(m) && m.phase == Killing(0, 0)
    ensures var killed := KillLoop(m.sys, 0, 0);
            var last := AftermathLoop(killed.sys, KILL_TRIES, m.begun, killed.count, killed.count, script, calls);
            Now(m, Run(m, labels), if last.ok then Ready(true) else NullExit, last.sys)
    ensures KillsSucceed(labels)
  {
    var l3 := KillLoopRun(m, 0, 0);
    var killed := KillLoop(m.sys, 0, 0);
    var l4 := AftermathLoopRun(Run(m, l3), KILL_TRIES, killed.count, killed.count, script, calls);
    RunConcat(m, l3, l4);
    labels := l3 + l4;
  }

  lemma StopStep(m: State)
    requires WellFormed(m) && m.phase == Idle && !m.sys.on
    ensures Now(m, Run(m, [Go(NO_ANSWER)]), Signalling(0, 0), m.sys)
  {
    RunOne(m, Go(NO_ANSWER));
  }

  lemma GracePartRun(m: State, answers: seq<Answer>, script: seq<Happening>) returns (labels: seq<Label>)
    requires WellFormed(m) && m.phase == Signalling(0, 0)
    ensures var r := Graced(m.sys, m.begun, answers, script);
            Now(m, Run(m, labels), if !r.ok then NullExit else if r.pCount > 0 then Killing(0, 0) else Ready(false), r.sys)
    ensures AnswersOk(answers) ==> KillsSucceed(labels)
  {
    var l1 := SignalLabels(answers, 0, |m.sys.progs|);
    SignalLoopRun(m, 0, 0, answers);
    var sent := SignalLoop(m.sys, 0, 0, answers);
    var l2 := GraceLoopRun(Run(m, l1), GRACE_TRIES, sent.count, sent.count, script, 0);
    RunConcat(m, l1, l2);
    labels := l1 + l2;
  }

  /** The code after the main loop is a run from Idle to the end. */
  lemma ShutDownRun(m: State, answers: seq<Answer>, script: seq<Happening>) returns (labels: seq<Label>)
    requires WellFormed(m) && m.phase == Idle && !m.sys.on
    ensures var r := ShutDown(m.sys, m.begun, answers, script);
            Now(m, Run(m, labels), if r.ok then Ready(r.killed) else NullExit, r.sys)
    ensures AnswersOk(answers) ==> KillsSucceed(labels)
  {
    StopStep(m);
    labels := [Go(NO_ANSWER)];
    var part := GracePartRun(Run(m, labels), answers, script);
    RunConcat(m, labels, part);
    labels := labels + part;
    var waited := Graced(m.sys, m.begun, answers, script);
    if waited.ok && waited.pCount > 0 {
      var rest := KillPartRun(Run(m, labels), script, waited.calls);
      RunConcat(m, labels, rest);
      labels := labels + rest;
    }
  }

  // ------------------------------------------------- what follows for the loops

  /** The main loop's state at its test, after some run. */
  ghost predicate Reachable(s: Sys, begun: int) {
    exists m: State, labels: seq<Label> :: Leads(m, labels, s, begun)
  }

  ghost predicate Leads(m: State, labels: seq<Label>, s: Sys, begun: int) {
    && Initial(m)
    && Run(m, labels).begun == begun && Run(m, labels).phase == Idle && Run(m, labels).sys == s
  }

  /** A scheduler that has done nothing yet. */
  ghost predicate Fresh(s: Sys) {
    && Valid(s) && s.on
    && s.running == map[] && s.children == map[] && s.events == []
    && (forall k :: 0 <= k < |s.progs| ==>
          var p := s.progs[k];
          p.pid == 0 && p.starts == 0 && p.seqIdx == 0 && p.stopMode == 0)
    && |s.sched| == s.nextId
    && (forall i :: 0 <= i < |s.sched| ==> s.sched[i].id == i)
  }

  lemma FreshIsReachable(s: Sys, begun: int)
    requires Fresh(s)
    ensures Reachable(s, begun)
  {
    var born := seq(|s.sched|, i requires 0 <= i < |s.sched| => Birth(s.sched[i], 0));
    var m := State(Idle, s, begun, [], born, []);
    assert Leads(m, [], s, begun);
  }

  /** What every run keeps holds whenever the main loop is at its test. */
  lemma ReachableIsSound(s: Sys, begun: int)
    requires Reachable(s, begun)
    ensures Inv(s, false) && Balanced(s, NOBODY)
    ensures NoRuntimeLimits(s) ==> PidsCurrent(s)
  {
    var m, labels :| Leads(m, labels, s, begun);
    InvRun(m, labels, false);
    BalancedRun(m, labels);
    if NoRuntimeLimits(s) {
      NoLimitsNeverForget(m, labels);
      InvRun(m, labels, true);
    }
  }

  /** No turn of the main loop takes the "NULL Program?!" exit. */
  lemma TickReachable(s: Sys, begun: int, fates: seq<Fate>, answers: seq<Answer>)
    requires Valid(s) && Reachable(s, begun) && s.on
    ensures TickOnce(s, fates, answers).ok && Reachable(TickOnce(s, fates, answers).sys, begun)
  {
    var m, labels :| Leads(m, labels, s, begun);
    var more := TickRun(Run(m, labels), fates, answers);
    RunConcat(m, labels, more);
    RegistryHolds(m, labels + more);
    assert Leads(m, labels + more, TickOnce(s, fates, answers).sys, begun);
  }

  lemma HappenReachable(s: Sys, begun: int, happened: seq<Label>)
    requires Valid(s) && Reachable(s, begun)
    ensures Reachable(Happen(s, happened), begun)
  {
    var m, labels :| Leads(m, labels, s, begun);
    var more := HappenRun(Run(m, labels), happened);
    RunConcat(m, labels, more);
    assert Leads(m, labels + more, Happen(s, happened), begun);
  }

  /** The accounts are kept from here on, and once in the SIGKILL phase so is `from`. */
  lemma {:induction false} AccountsOn(m: State, labels: seq<Label>, from: nat)
    requires WellFormed(m) && Inv(m.sys, true) && Accounts(m, from) && m.phase != NullExit && KillsSucceed(labels)
    requires !InMainLoop(m.phase)
    ensures var r := Run(m, labels);
            && Accounts(r, KillFrom(m, labels, from)) && Inv(r.sys, true) && r.phase != NullExit && !InMainLoop(r.phase)
            && (InKillPart(m.phase) ==> InKillPart(r.phase) && KillFrom(m, labels, from) == from)
    decreases |labels|
  {
    if labels != [] {
      var before, l := labels[..|labels| - 1], labels[|labels| - 1];
      AccountsOn(m, before, from);
      AccountsStep(Run(m, before), l, KillFrom(m, before, from));
    }
  }

  lemma AccountsStep(m: State, l: Label, from: nat)
    requires WellFormed(m) && Inv(m.sys, true) && Accounts(m, from) && m.phase != NullExit && KillSucceeds(l)
    requires !InMainLoop(m.phase)
    ensures var r := Step(m, l);
            && Accounts(r, FromAfter(m, r, from)) && Inv(r.sys, true) && r.phase != NullExit && !InMainLoop(r.phase)
            && (InKillPart(m.phase) ==> InKillPart(r.phase))
  {
    AccountsMove(m, l, from);
    InvMove(m, l, true);
    if InMainLoop(Move(m, l).phase) { MainLoopNeverReentered(m, l); }
    StaysInKillPart(m, l);
  }

  /** No step leads out of the SIGKILL phase but the "NULL Program?!" exit. */
  lemma StaysInKillPart(m: State, l: Label)
    requires WellFormed(m)
    ensures InKillPart(m.phase) ==> InKillPart(Move(m, l).phase) || Move(m, l).phase == NullExit
  {
  }

  ghost predicate EndsClean(r: Ending) {
    if r.killed then Killed(r.sys, r.from) else |r.sys.children| == 0
  }

  /** The shutdown, from a state in which no child is forgotten, leaves no child, or used
      SIGKILL and then sent it to every child that is left. */
  lemma ShutDownEndsClean(m: State, answers: seq<Answer>, script: seq<Happening>)
    requires WellFormed(m) && Inv(m.sys, true) && m.phase == Idle && !m.sys.on && AnswersOk(answers)
    ensures EndsClean(ShutDown(m.sys, m.begun, answers, script))
  {
    StopStep(m);
    var m0 := Run(m, [Go(NO_ANSWER)]);
    var labels := GracePartRun(m0, answers, script);
    AccountsOn(m0, labels, 0);
    var waited := Graced(m.sys, m.begun, answers, script);
    if waited.ok && waited.pCount > 0 {
      var r := Run(m0, labels);
      var rest := KillPartRun(r, script, waited.calls);
      AccountsOn(r, rest, |r.sys.signals|);
    }
  }

  /** The code after the main loop, run on what the main loop left: it never takes the
      "NULL Program?!" exit; and unless a child is forgotten or a kill fails it either left no
      child, or used SIGKILL and then sent it to every child that is left. */
  lemma ShutDownSound(s: Sys, begun: int, answers: seq<Answer>, script: seq<Happening>)
    requires Valid(s) && Reachable(s, begun) && !s.on
    ensures var r := ShutDown(s, begun, answers, script);
            r.ok && (PidsCurrent(s) && AnswersOk(answers) ==> EndsClean(r))
  {
    var m, labels :| Leads(m, labels, s, begun);
    var e := Run(m, labels);
    var more := ShutDownRun(e, answers, script);
    RunConcat(m, labels, more);
    RegistryHolds(m, labels + more);
    if PidsCurrent(s) && AnswersOk(answers) {
      InvRun(m, labels, false);
      ShutDownEndsClean(e, answers, script);
    }
  }

  lemma {:induction false} MainLoopReachable(s: Sys, begun: int, turns: seq<Turn>, i: nat)
    requires Valid(s) && i <= |turns|
    ensures var r := MainLoop(s, turns, i);
            Reachable(s, begun) ==> r.ok && Reachable(r.sys, begun) && ChildrenRegistered(r.sys) && Balanced(r.sys, NOBODY)
    decreases |turns| - i
  {
    if Reachable(s, begun) {
      if s.on && i < |turns| {
        var r := TickOnce(s, turns[i].fates, turns[i].answers);
        TickReachable(s, begun, turns[i].fates, turns[i].answers);
        HappenReachable(r.sys, begun, turns[i].pause);
        MainLoopReachable(Happen(r.sys, turns[i].pause), begun, turns, i + 1);
      } else {
        ReachableIsSound(s, begun);
      }
    }
  }

  lemma ShutDownReachable(s: Sys, begun: int, answers: seq<Answer>, script: seq<Happening>)
    requires Valid(s) && !s.on
    ensures var r := ShutDown(s, begun, answers, script);
            Reachable(s, begun) ==>
              r.ok && (PidsCurrent(s) && AnswersOk(answers) ==> EndsClean(r))
  {
    if Reachable(s, begun) {
      ShutDownSound(s, begun, answers, script);
    }
  }
}
