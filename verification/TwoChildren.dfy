/** What a maxruntime limit can lead to: a run in which one program has two children. */
module TwoChildren {
  import opened Options
  import opened System
  import opened Machine
  import opened Registry

  const CONF := Settings("p", ["sleep 100"], 15, Limits(-1, -1, 5), map[], map[])

  function Asked(name: string): Label {
    Request(StartCmd(name))
  }

  function OneRound(fate: Fate): Label {
    Go(Answer([fate], 0, true))
  }

  /** At second 1, one program that may run for 5 seconds, with one start in the schedule. */
  const BEGIN: State :=
    var u := WorkUnit(0, RunProg, 1, Some(0));
    State(Idle, Sys(1, [Prog(CONF, 0, 0, 0, 0, 0, 0)], [u], 1, map[], [], true, map[], []), 1, [], [Birth(u, 0)], [])

  const IDLY: Label := OneRound(NoLogfile)

  /** The start forks child 7, and 99 seconds pass. */
  const WAITED: seq<Label> := [IDLY, OneRound(Forked(7))] + [ClockIs(100), IDLY]

  /** After the round that forgets child 7 a second start forks child 8. */
  const RESTARTED: seq<Label> := [IDLY, IDLY] + ([Asked("p")] + [IDLY, OneRound(Forked(8))])

  /** The parts of a state that the run is about. */
  ghost predicate At(m: State, phase: Phase, clock: int, pid: int, children: map<int, Child>, sched: seq<WorkUnit>) {
    && WellFormed(m)
    && m.phase == phase && m.sys.on && m.sys.clock == clock
    && m.sys.children == children && m.sys.sched == sched
    && |m.sys.progs| == 1
    && m.sys.progs[0].conf == CONF && m.sys.progs[0].pid == pid
    && (pid != 0 ==> m.sys.progs[0].tStart == 1 && m.sys.progs[0].tEnd == 0)
  }

  const FIRST: map<int, Child> := map[7 := Child(0, None)]

  /** Children 7 and 8 both live, and both are program 0's. */
  ghost predicate TwoLive(s: Sys) {
    |s.progs| == 1 && s.progs[0].pid == 8 && s.children == map[7 := Child(0, None), 8 := Child(0, None)]
  }

  lemma Begins()
    ensures Initial(BEGIN) && At(BEGIN, Idle, 1, 0, map[], [WorkUnit(0, RunProg, 1, Some(0))])
  {
  }

  // ------------------------------------------------------------- the steps

  lemma Tested(m: State, clock: int, pid: int, children: map<int, Child>, sched: seq<WorkUnit>)
    requires At(m, Idle, clock, pid, children, sched)
    ensures var r := Step(m, IDLY);
            At(r, Units(0), clock, pid, children, sched) && |r.ticks| > 0 && Tick(r) == clock
  {
  }

  lemma StartsFirst(m: State, u: WorkUnit)
    requires At(m, Units(0), 1, 0, map[], [u]) && u.kind.RunProg? && u.at == 1 && u.target == Some(0)
    requires |m.ticks| > 0 && Tick(m) == 1
    ensures At(Step(m, OneRound(Forked(7))), Units(1), 1, 7, FIRST, [u.(kind := NotInit)])
  {
  }

  lemma StartsSecond(m: State, u: WorkUnit)
    requires At(m, Units(0), 100, 0, FIRST, [u]) && u.kind.RunProg? && u.at == 100 && u.target == Some(0)
    requires |m.ticks| > 0 && Tick(m) == 100
    ensures TwoLive(Step(m, OneRound(Forked(8))).sys)
  {
  }

  lemma TimePasses(m: State, u: WorkUnit)
    requires At(m, Units(1), 1, 7, FIRST, [u])
    ensures At(Step(m, ClockIs(100)), Units(1), 100, 7, FIRST, [u])
  {
  }

  lemma Erases(m: State, u: WorkUnit)
    requires At(m, Units(1), 100, 7, FIRST, [u]) && u.kind.NotInit?
    ensures At(Step(m, IDLY), Runtimes(0), 100, 7, FIRST, [])
  {
    assert [u][..0] == [] && Compact([]) == [];
    assert Compact([u]) == [];
  }

  lemma Forgotten(m: State)
    requires At(m, Runtimes(0), 100, 7, FIRST, [])
    ensures Forgets(m, IDLY)
    ensures At(Step(m, IDLY), Runtimes(1), 100, 0, FIRST, [])
  {
  }

  lemma TurnsToReaping(m: State)
    requires At(m, Runtimes(1), 100, 0, FIRST, [])
    ensures At(Step(m, IDLY), Reaping(0, 0), 100, 0, FIRST, [])
  {
  }

  /** A wait for any child finds the forgotten one running. */
  lemma NoneDead(m: State)
    requires At(m, Reaping(0, 0), 100, 0, FIRST, [])
    ensures At(Step(m, IDLY), Idle, 100, 0, FIRST, [])
  {
    assert 7 in FIRST && Matches(0, 7);
    assert WaitPidResult(FIRST, 0, 0) == 0;
  }

  lemma Requested(m: State)
    requires At(m, Idle, 100, 0, FIRST, [])
    ensures At(Step(m, Asked("p")), Idle, 100, 0, FIRST, [WorkUnit(m.sys.nextId, RunProg, 100, Some(0))])
  {
    assert FindProgram(m.sys.progs, "p") == Some(0);
  }

  // --------------------------------------------------------------- the run

  lemma Waited()
    ensures WellFormed(BEGIN) && At(Run(BEGIN, WAITED), Runtimes(0), 100, 7, FIRST, [])
  {
    Begins();
    var u := WorkUnit(0, RunProg, 1, Some(0));
    Tested(BEGIN, 1, 0, map[], [u]);
    StartsFirst(Step(BEGIN, IDLY), u);
    RunTwo(BEGIN, IDLY, OneRound(Forked(7)));
    WaitsTooLong(Run(BEGIN, [IDLY, OneRound(Forked(7))]));
    RunConcat(BEGIN, [IDLY, OneRound(Forked(7))], [ClockIs(100), IDLY]);
  }

  lemma WaitsTooLong(m: State)
    requires At(m, Units(1), 1, 7, FIRST, [WorkUnit(0, NotInit, 1, Some(0))])
    ensures At(Run(m, [ClockIs(100), IDLY]), Runtimes(0), 100, 7, FIRST, [])
  {
    var u := WorkUnit(0, NotInit, 1, Some(0));
    TimePasses(m, u);
    Erases(Step(m, ClockIs(100)), u);
    RunTwo(m, ClockIs(100), IDLY);
  }

  lemma GoesOn(m: State)
    requires At(m, Runtimes(1), 100, 0, FIRST, [])
    ensures At(Run(m, [IDLY, IDLY]), Idle, 100, 0, FIRST, [])
  {
    TurnsToReaping(m);
    NoneDead(Step(m, IDLY));
    RunTwo(m, IDLY, IDLY);
  }

  lemma ForksAgain(m: State, u: WorkUnit)
    requires At(m, Idle, 100, 0, FIRST, [u]) && u.kind.RunProg? && u.at == 100 && u.target == Some(0)
    ensures TwoLive(Run(m, [IDLY, OneRound(Forked(8))]).sys)
  {
    Tested(m, 100, 0, FIRST, [u]);
    StartsSecond(Step(m, IDLY), u);
    RunTwo(m, IDLY, OneRound(Forked(8)));
  }

  lemma IsRequested(m: State)
    requires At(m, Idle, 100, 0, FIRST, [])
    ensures TwoLive(Run(m, [Asked("p")] + [IDLY, OneRound(Forked(8))]).sys)
  {
    Requested(m);
    ForksAgain(Step(m, Asked("p")), WorkUnit(m.sys.nextId, RunProg, 100, Some(0)));
    Then(m, Asked("p"), [IDLY, OneRound(Forked(8))]);
  }

  lemma Restarted(m: State)
    requires At(m, Runtimes(1), 100, 0, FIRST, [])
    ensures TwoLive(Run(m, RESTARTED).sys)
  {
    GoesOn(m);
    IsRequested(Run(m, [IDLY, IDLY]));
    RunConcat(m, [IDLY, IDLY], [Asked("p")] + [IDLY, OneRound(Forked(8))]);
  }

  /** The failing run. */
  lemma TwoChildrenOfOne()
    ensures Initial(BEGIN) && Forgets(Run(BEGIN, WAITED), IDLY)
    ensures TwoLive(Run(BEGIN, WAITED + ([IDLY] + RESTARTED)).sys)
  {
    Begins();
    Waited();
    var m := Run(BEGIN, WAITED);
    Forgotten(m);
    Restarted(Step(m, IDLY));
    Then(m, IDLY, RESTARTED);
    RunConcat(BEGIN, WAITED, [IDLY] + RESTARTED);
  }
}
