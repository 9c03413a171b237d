/** The restart bound is met: for any number of commands and any restart limit there is a run in
    which the program is started exactly as often as the bound allows. */
module BoundMet {
  import opened Options
  import opened System
  import opened Machine
  import opened Arith
  import opened Registry
  import opened Conservation
  import opened RestartBound

  /** A program that starts itself again, by no name, whenever a sequence ends with result 0. */
  function Conf(cmds: seq<string>, limit: nat): Settings {
    Settings("p", cmds, 15, Limits(limit, -1, -1), map[0 := [Action(Exec, 0, "")]], map[])
  }

  function Begin(cmds: seq<string>, limit: nat): State {
    var u := WorkUnit(0, RunProg, 1, Some(0));
    var p := Prog(Conf(cmds, limit), 0, 0, 0, 0, 0, 0);
    State(Idle, Sys(1, [p], [u], 1, map[], [], true, map[], []), 1, [], [Birth(u, 0)], [])
  }

  const ROUND: Label := Go(Answer([Forked(1)], 0, true))
  const ENDS: Label := Dies(1, 0)

  const ALIVE: map<int, Child> := map[1 := Child(0, None)]
  const DEAD: map<int, Child> := map[1 := Child(0, Some(0))]

  /** The parts of a state that the run is about: the program has been started j times. */
  ghost predicate At(m: State, cmds: seq<string>, limit: nat, phase: Phase, j: nat,
                     children: map<int, Child>, sched: seq<WorkUnit>)
  {
    && WellFormed(m)
    && m.phase == phase && m.sys.on && m.sys.clock == 1
    && m.sys.children == children && m.sys.sched == sched
    && (1 in children ==> Registered(m.sys, 1) && m.sys.running[1].value == 0)
    && |m.sys.progs| == 1 && cmds != []
    && var p := m.sys.progs[0];
    && p.conf == Conf(cmds, limit) && p.starts == j && p.stopMode == 0
    && (|m.ticks| > 0 ==> Tick(m) == 1)
    && if children == map[] then p.pid == 0 && p.seqIdx == j % |cmds|
       else p.pid == 1 && j > 0 && p.seqIdx == (j - 1) % |cmds|
  }

  /** A unit that starts the program now. */
  predicate Starting(u: WorkUnit) {
    u.kind.RunProg? && u.at == 1 && u.target == Some(0)
  }

  // ----------------------------------------------------------- single rounds

  lemma Tested(m: State, cmds: seq<string>, limit: nat, j: nat, children: map<int, Child>, sched: seq<WorkUnit>)
    requires At(m, cmds, limit, Idle, j, children, sched)
    ensures At(Step(m, ROUND), cmds, limit, Units(0), j, children, sched) && |Step(m, ROUND).ticks| > 0
  {
  }

  lemma UnitStarts(m: State, cmds: seq<string>, limit: nat, j: nat, u: WorkUnit)
    requires At(m, cmds, limit, Units(0), j, map[], [u]) && Starting(u)
    ensures At(Step(m, ROUND), cmds, limit, Units(1), j + 1, ALIVE, [u.(kind := NotInit)])
  {
  }

  lemma Erases(m: State, cmds: seq<string>, limit: nat, j: nat, children: map<int, Child>, sched: seq<WorkUnit>)
    requires At(m, cmds, limit, Units(|sched|), j, children, sched)
    requires sched == [] || (|sched| == 1 && sched[0].kind.NotInit?)
    ensures At(Step(m, ROUND), cmds, limit, Runtimes(0), j, children, [])
  {
    assert sched != [] ==> sched[..0] == [];
    assert Compact([]) == [];
    assert Compact(sched) == [];
  }

  lemma Checks(m: State, cmds: seq<string>, limit: nat, j: nat, children: map<int, Child>)
    requires At(m, cmds, limit, Runtimes(0), j, children, [])
    ensures At(Step(m, ROUND), cmds, limit, Runtimes(1), j, children, [])
  {
  }

  lemma TurnsToReaping(m: State, cmds: seq<string>, limit: nat, j: nat, children: map<int, Child>)
    requires At(m, cmds, limit, Runtimes(1), j, children, []) && 1 in children
    ensures At(Step(m, ROUND), cmds, limit, Reaping(0, 1), j, children, [])
  {
  }

  /** The wait that finds the child alive, or none. */
  lemma WaitsInVain(m: State, cmds: seq<string>, limit: nat, j: nat, children: map<int, Child>, sched: seq<WorkUnit>)
    requires At(m, cmds, limit, Reaping(0, 1), j, children, sched) && (children == ALIVE || children == map[])
    ensures At(Step(m, ROUND), cmds, limit, Idle, j, children, sched)
  {
    assert forall x :: !Zombie(children, 1, x);
    assert WaitPidResult(children, 1, 0) <= 0;
  }

  lemma ChildEnds(m: State, cmds: seq<string>, limit: nat, j: nat)
    requires At(m, cmds, limit, Idle, j, ALIVE, [])
    ensures At(Step(m, ENDS), cmds, limit, Idle, j, DEAD, [])
  {
  }

  /** The death in the log, and the next command of the sequence. */
  lemma Reaps(m: State, cmds: seq<string>, limit: nat, j: nat)
    requires At(m, cmds, limit, Reaping(0, 1), j, DEAD, [])
    ensures var s1 := LogDeath(BuryChild(m.sys, 1, 0, 1), 0, 0, 1);
            var p := s1.progs[0];
            && Step(m, ROUND).phase == Reaping(0, 1) && Step(m, ROUND).ticks == m.ticks
            && Step(m, ROUND).sys == WhatNext(s1, 0, 0, 0, [Forked(1)])
            && p == m.sys.progs[0].(pid := 0, tEnd := 1) && s1.children == map[]
            && s1.sched == [] && s1.on && s1.clock == 1 && s1.nextId == m.sys.nextId
  {
    assert Zombie(DEAD, 1, 1);
    var c := WaitPidResult(DEAD, 1, 0);
    assert c == 1;
    assert DEAD - {1} == map[];
  }

  /** The sequence goes on. */
  lemma NextOrdered(m: State, cmds: seq<string>, limit: nat, j: nat)
    requires At(m, cmds, limit, Reaping(0, 1), j, DEAD, []) && j % |cmds| != 0
    ensures At(Step(m, ROUND), cmds, limit, Reaping(0, 1), j, map[], [WorkUnit(m.sys.nextId, RunProg, 1, Some(0))])
  {
    Reaps(m, cmds, limit, j);
    NextMod(j, |cmds|);
    Wraps((j - 1) % |cmds|, |cmds|);
  }

  lemma ActsOnce(s: Sys, actions: seq<Action>)
    requires Valid(s) && |s.progs| == 1 && s.progs[0].conf.name == "p" && actions == [Action(Exec, 0, "")]
    ensures ApplyActions(s, 0, actions, 1, false, [Forked(1)]) == StartProgram(s, 0, Forked(1))
  {
    TargetIsNamed(s.progs, 0, "", 0);
    assert ApplyActions(s, 0, actions, 0, false, [Forked(1)]) == s;
  }

  lemma ListStarts(s: Sys, cmds: seq<string>, limit: nat)
    requires Valid(s) && |s.progs| == 1 && s.progs[0].conf == Conf(cmds, limit) && s.progs[0].starts <= limit
    ensures SequenceEnd(s, 0, 0, 0, [Forked(1)]) == StartProgram(s, 0, Forked(1))
  {
    var actions := [Action(Exec, 0, "")];
    assert GetActions(s.progs[0].conf, 0, 0) == Some(actions);
    assert LogLimits(s, 0) == s && !Limited(s, 0);
    ActsOnce(s, actions);
  }

  lemma Forks(s: Sys, cmds: seq<string>, limit: nat)
    requires Valid(s) && |s.progs| == 1 && s.progs[0].pid == 0 && s.children == map[] && s.clock == 1
    ensures var r := StartProgram(s, 0, Forked(1));
            && r.children == ALIVE && r.sched == s.sched && r.on == s.on && r.clock == 1
            && Registered(r, 1) && r.running[1].value == 0
            && r.progs == [s.progs[0].(pid := 1, starts := s.progs[0].starts + 1, tStart := 1, tEnd := 0)]
  {
  }

  /** The sequence has ended and the limit is not reached: the program starts itself. */
  lemma StartsItself(m: State, cmds: seq<string>, limit: nat, j: nat)
    requires At(m, cmds, limit, Reaping(0, 1), j, DEAD, []) && j % |cmds| == 0 && j <= limit
    ensures At(Step(m, ROUND), cmds, limit, Reaping(0, 1), j + 1, ALIVE, [])
  {
    Reaps(m, cmds, limit, j);
    var s0 := LogDeath(BuryChild(m.sys, 1, 0, 1), 0, 0, 1);
    LastCommand(s0, cmds, limit, j);
    Forks(IncSeqIdx(s0, 0), cmds, limit);
  }

  lemma LastCommand(s: Sys, cmds: seq<string>, limit: nat, j: nat)
    requires Valid(s) && |s.progs| == 1 && cmds != [] && s.progs[0].conf == Conf(cmds, limit) && s.progs[0].stopMode == 0
    requires s.progs[0].starts == j <= limit && j > 0 && j % |cmds| == 0 && s.progs[0].seqIdx == (j - 1) % |cmds|
    ensures WhatNext(s, 0, 0, 0, [Forked(1)]) == StartProgram(IncSeqIdx(s, 0), 0, Forked(1))
    ensures IncSeqIdx(s, 0).progs[0].seqIdx == 0
  {
    NextMod(j, |cmds|);
    Wraps((j - 1) % |cmds|, |cmds|);
    ListStarts(IncSeqIdx(s, 0), cmds, limit);
  }

  // --------------------------------------------------------------- the run

  const TWO: seq<Label> := [ROUND, ROUND]

  lemma ReachesReaping(m: State, cmds: seq<string>, limit: nat, j: nat, children: map<int, Child>)
    requires At(m, cmds, limit, Idle, j, children, []) && 1 in children
    ensures At(Run(m, TWO + TWO), cmds, limit, Reaping(0, 1), j, children, [])
  {
    RunTwo(m, ROUND, ROUND);
    Tested(m, cmds, limit, j, children, []);
    Erases(Step(m, ROUND), cmds, limit, j, children, []);
    var r := Run(m, TWO);
    RunTwo(r, ROUND, ROUND);
    Checks(r, cmds, limit, j, children);
    TurnsToReaping(Step(r, ROUND), cmds, limit, j, children);
    RunConcat(m, TWO, TWO);
  }

  /** A pending start is served, and the turn ends. */
  lemma StartServed(m: State, cmds: seq<string>, limit: nat, j: nat, u: WorkUnit)
    requires At(m, cmds, limit, Idle, j, map[], [u]) && Starting(u)
    ensures At(Run(m, TWO + (TWO + TWO)), cmds, limit, Idle, j + 1, ALIVE, [])
  {
    RunTwo(m, ROUND, ROUND);
    Tested(m, cmds, limit, j, map[], [u]);
    UnitStarts(Step(m, ROUND), cmds, limit, j, u);
    var r := Run(m, TWO);
    TurnEnds(r, cmds, limit, j + 1, u.(kind := NotInit));
    RunConcat(m, TWO, TWO + TWO);
  }

  lemma TurnEnds(m: State, cmds: seq<string>, limit: nat, j: nat, u: WorkUnit)
    requires At(m, cmds, limit, Units(1), j, ALIVE, [u]) && u.kind.NotInit?
    ensures At(Run(m, TWO + TWO), cmds, limit, Idle, j, ALIVE, [])
  {
    RunTwo(m, ROUND, ROUND);
    Erases(m, cmds, limit, j, ALIVE, [u]);
    Checks(Step(m, ROUND), cmds, limit, j, ALIVE);
    var r := Run(m, TWO);
    RunTwo(r, ROUND, ROUND);
    TurnsToReaping(r, cmds, limit, j, ALIVE);
    WaitsInVain(Step(r, ROUND), cmds, limit, j, ALIVE, []);
    RunConcat(m, TWO, TWO);
  }

  const DIES: seq<Label> := [ENDS] + (TWO + TWO)

  lemma Dead(m: State, cmds: seq<string>, limit: nat, j: nat)
    requires At(m, cmds, limit, Idle, j, ALIVE, [])
    ensures At(Run(m, DIES), cmds, limit, Reaping(0, 1), j, DEAD, [])
  {
    ChildEnds(m, cmds, limit, j);
    ReachesReaping(Step(m, ENDS), cmds, limit, j, DEAD);
    Then(m, ENDS, TWO + TWO);
  }

  /** The socket thread has no part in it. */
  ghost predicate Unasked(labels: seq<Label>) {
    forall l :: l in labels ==> !l.Request?
  }

  lemma Restarted(m: State, cmds: seq<string>, limit: nat, j: nat)
    requires At(m, cmds, limit, Reaping(0, 1), j, DEAD, []) && j % |cmds| == 0 && j <= limit
    ensures At(Run(m, TWO), cmds, limit, Idle, j + 1, ALIVE, [])
  {
    RunTwo(m, ROUND, ROUND);
    StartsItself(m, cmds, limit, j);
    WaitsInVain(Step(m, ROUND), cmds, limit, j + 1, ALIVE, []);
  }

  lemma Continued(m: State, cmds: seq<string>, limit: nat, j: nat)
    requires At(m, cmds, limit, Reaping(0, 1), j, DEAD, []) && j % |cmds| != 0
    ensures At(Run(m, TWO + (TWO + (TWO + TWO))), cmds, limit, Idle, j + 1, ALIVE, [])
  {
    var u := WorkUnit(m.sys.nextId, RunProg, 1, Some(0));
    RunTwo(m, ROUND, ROUND);
    NextOrdered(m, cmds, limit, j);
    WaitsInVain(Step(m, ROUND), cmds, limit, j, map[], [u]);
    StartServed(Run(m, TWO), cmds, limit, j, u);
    RunConcat(m, TWO, TWO + (TWO + TWO));
  }

  lemma NobodyAsks()
    ensures Unasked(DIES) && Unasked(TWO) && Unasked(TWO + (TWO + (TWO + TWO)))
  {
  }

  lemma UnaskedJoin(a: seq<Label>, b: seq<Label>)
    requires Unasked(a) && Unasked(b)
    ensures Unasked(a + b)
  {
  }

  /** The child ends with result 0 and the program is started once more. */
  lemma OneMore(m: State, cmds: seq<string>, limit: nat, j: nat) returns (labels: seq<Label>)
    requires At(m, cmds, limit, Idle, j, ALIVE, []) && (j % |cmds| != 0 || j <= limit)
    ensures Unasked(labels) && At(Run(m, labels), cmds, limit, Idle, j + 1, ALIVE, [])
  {
    NobodyAsks();
    Dead(m, cmds, limit, j);
    var more: seq<Label>;
    if j % |cmds| == 0 {
      more := TWO;
      Restarted(Run(m, DIES), cmds, limit, j);
    } else {
      more := TWO + (TWO + (TWO + TWO));
      Continued(Run(m, DIES), cmds, limit, j);
    }
    labels := Joined(m, DIES, more, cmds, limit, j + 1);
  }

  lemma Joined(m: State, a: seq<Label>, b: seq<Label>, cmds: seq<string>, limit: nat, j: nat) returns (labels: seq<Label>)
    requires WellFormed(m) && Unasked(a) && Unasked(b) && At(Run(Run(m, a), b), cmds, limit, Idle, j, ALIVE, [])
    ensures Unasked(labels) && At(Run(m, labels), cmds, limit, Idle, j, ALIVE, [])
  {
    RunConcat(m, a, b);
    UnaskedJoin(a, b);
    labels := a + b;
  }

  /** Below the bound there is always a reason to start once more. */
  lemma BelowBound(n: nat, limit: nat, j: nat)
    requires n > 0 && j < Bound(n, limit)
    ensures j % n != 0 || j <= limit
  {
    if j % n == 0 {
      var q, l := j / n, limit / n;
      assert j == n * q && limit == n * l + limit % n;
      Distrib(n, l + 1, q);
      MulBound(n, l + 1 - q);
      Distrib(n, l, q);
      if q > l { MulBound(n, l - q); }
    }
  }

  lemma {:induction false} Started(cmds: seq<string>, limit: nat, j: nat) returns (labels: seq<Label>)
    requires cmds != [] && 0 < j <= Bound(|cmds|, limit)
    ensures WellFormed(Begin(cmds, limit)) && Unasked(labels)
    ensures At(Run(Begin(cmds, limit), labels), cmds, limit, Idle, j, ALIVE, [])
  {
    var m := Begin(cmds, limit);
    if j == 1 {
      labels := TWO + (TWO + TWO);
      StartServed(m, cmds, limit, 0, m.sys.sched[0]);
    } else {
      var before := Started(cmds, limit, j - 1);
      BelowBound(|cmds|, limit, j - 1);
      var more := OneMore(Run(m, before), cmds, limit, j - 1);
      labels := Joined(m, before, more, cmds, limit, j);
    }
  }

  lemma StartedOften(cmds: seq<string>, limit: nat, j: nat) returns (labels: seq<Label>)
    requires cmds != [] && 0 < j <= Bound(|cmds|, limit)
    ensures WellFormed(Begin(cmds, limit)) && Unasked(labels)
    ensures Run(Begin(cmds, limit), labels).sys.progs[0].starts == j
  {
    labels := Started(cmds, limit, j);
  }

  lemma BeginsAlone(cmds: seq<string>, limit: nat)
    requires cmds != []
    ensures Initial(Begin(cmds, limit)) && SelfRestarting(Begin(cmds, limit), 0)
  {
    var m := Begin(cmds, limit);
    assert m.sys.sched[..0] == [];
    forall j, res, sig | 0 <= j < 1 && GetActions(m.sys.progs[j].conf, res, sig).Some?
      ensures var actions := GetActions(m.sys.progs[j].conf, res, sig).value;
              Starters(m.sys.progs, j, actions, |actions|, 0) <= 1
    {
      assert Starters(m.sys.progs, 0, [Action(Exec, 0, "")], 0, 0) == 0;
    }
  }

  lemma UnaskedLeavesAlone(labels: seq<Label>, progs: seq<Prog>)
    requires Unasked(labels)
    ensures forall l :: l in labels ==> LeavesAlone(l, progs, 0)
  {
  }

  /** Whatever the commands and the limit, the bound of `StartsBounded` is the least one. */
  lemma BoundIsMet(cmds: seq<string>, limit: nat) returns (m: State, labels: seq<Label>)
    requires cmds != []
    ensures Initial(m) && SelfRestarting(m, 0) && forall l :: l in labels ==> LeavesAlone(l, m.sys.progs, 0)
    ensures m.sys.progs[0].conf.cmds == cmds && m.sys.progs[0].conf.limits.starts == limit
    ensures Run(m, labels).sys.progs[0].starts == |cmds| * (limit / |cmds| + 1)
  {
    BoundFacts(|cmds|, limit, 0);
    labels := StartedOften(cmds, limit, Bound(|cmds|, limit));
    m := Begin(cmds, limit);
    UnaskedLeavesAlone(labels, m.sys.progs);
    BeginsAlone(cmds, limit);
  }
}
