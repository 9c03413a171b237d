/** What switches the scheduler off: meeting an EXIT unit, at the first walk that can meet it,
    and nothing else. */
module SwitchOff {
  import opened Options
  import opened System
  import opened Machine
  import opened UnitHistory
  import opened Effects

  ghost predicate Pending(m: State, id: nat)
    requires id < |m.born|
  {
    m.born[id].unit in m.sys.sched
  }

  /** The scheduler is on as long as every EXIT unit appended is pending, and none pending has
      been passed by a walk. */
  ghost predicate Watched(m: State)
    requires Numbered(m)
  {
    && (m.sys.on <==> forall id :: 0 <= id < |m.born| && m.born[id].unit.kind.Exit? ==> Pending(m, id))
    && forall i :: 0 <= i < |m.sys.sched| && m.sys.sched[i].kind.Exit? ==> Walks(m, i) <= m.born[m.sys.sched[i].id].from
  }

  lemma StillPending(m: State, r: State, id: nat)
    requires History(m) && Appends(m, r) && Numbered(r) && id < |m.born|
    ensures id < |r.born| && r.born[id] == m.born[id] && (Pending(r, id) <==> Pending(m, id))
  {
    AppendsIndex(m, r);
    if Pending(m, id) {
      var i :| 0 <= i < |m.sys.sched| && m.sys.sched[i] == m.born[id].unit;
      assert r.sys.sched[i] == r.born[id].unit;
    }
    if Pending(r, id) {
      var i :| 0 <= i < |r.sys.sched| && r.sys.sched[i] == r.born[id].unit;
      assert i < |m.sys.sched|;
      assert m.sys.sched[i] == m.born[id].unit;
    }
  }

  lemma BornPending(m: State, r: State, id: nat)
    requires History(m) && Appends(m, r) && Numbered(r) && |m.born| <= id < |r.born|
    ensures Pending(r, id)
  {
    AppendsIndex(m, r);
    assert r.born[id].unit == r.sys.sched[|m.sys.sched| + (id - |m.born|)];
  }

  lemma AppendsWalks(m: State, r: State)
    requires History(m) && Watched(m) && Appends(m, r) && Numbered(r)
    ensures forall i :: 0 <= i < |r.sys.sched| && r.sys.sched[i].kind.Exit? ==> Walks(r, i) <= r.born[r.sys.sched[i].id].from
  {
    AppendsIndex(m, r);
    forall i | 0 <= i < |r.sys.sched| && r.sys.sched[i].kind.Exit?
      ensures Walks(r, i) <= r.born[r.sys.sched[i].id].from
    {
      if i < |m.sys.sched| {
        assert Walks(m, i) <= m.born[m.sys.sched[i].id].from;
      } else {
        AppendsUnit(m, r, i);
      }
    }
  }

  lemma WatchedAppends(m: State, r: State)
    requires History(m) && Watched(m) && Appends(m, r) && Numbered(r) && r.sys.on == m.sys.on
    ensures Watched(r)
  {
    AppendsIndex(m, r);
    forall id: nat | id < |r.born| ensures id < |m.born| ==> r.born[id] == m.born[id] && (Pending(r, id) <==> Pending(m, id))
                                   ensures id >= |m.born| ==> Pending(r, id)
    {
      if id < |m.born| { StillPending(m, r, id); } else { BornPending(m, r, id); }
    }
    AppendsWalks(m, r);
  }

  /** The state in which a visit has used its unit up, before it appends. */
  ghost predicate PassesBy(m: State, r: State) {
    && m.phase.Units? && m.phase.i < |m.sys.sched| && |m.ticks| > 0
    && r.sys == Spent(m.sys, m.phase.i, Tick(m)).(on := m.sys.on && !m.sys.sched[m.phase.i].kind.Exit?)
    && r.phase == Units(m.phase.i + 1) && r.ticks == m.ticks && r.born == m.born
  }

  lemma PassedPending(m: State, r: State, id: nat)
    requires History(m) && PassesBy(m, r) && id < |m.born| && m.born[id].unit.kind.Exit?
    ensures Pending(r, id) <==> Pending(m, id) && id != m.sys.sched[m.phase.i].id
  {
    var w := m.phase.i;
    var u := m.sys.sched[w];
    OneUsedUp(m.sys.sched, w);
    if Pending(r, id) {
      var j :| 0 <= j < |r.sys.sched| && r.sys.sched[j] == m.born[id].unit;
      assert j != w;
    }
    if Pending(m, id) && id != u.id {
      var j :| 0 <= j < |m.sys.sched| && m.sys.sched[j] == m.born[id].unit;
      assert r.sys.sched[j] == m.born[id].unit;
    }
  }

  lemma WatchedPasses(m: State, r: State)
    requires History(m) && Watched(m) && PassesBy(m, r) && Numbered(r)
    ensures Watched(r)
  {
    var w := m.phase.i;
    var u := m.sys.sched[w];
    OneUsedUp(m.sys.sched, w);
    forall id: nat | id < |m.born| && m.born[id].unit.kind.Exit?
      ensures Pending(r, id) <==> Pending(m, id) && id != u.id
    {
      PassedPending(m, r, id);
    }
    if u.kind.Exit? {
      assert m.born[u.id].unit == u;
    } else {
      forall id: nat | id < |m.born| && m.born[id].unit.kind.Exit? && Pending(m, id) ensures id != u.id {
        var j :| 0 <= j < |m.sys.sched| && m.sys.sched[j] == m.born[id].unit;
      }
    }
  }

  lemma WatchedCompacts(m: State, r: State)
    requires History(m) && Watched(m) && m.phase == Units(|m.sys.sched|) && Numbered(r)
    requires r == m.(phase := Runtimes(0), sys := m.sys.(sched := Compact(m.sys.sched)))
    ensures Watched(r)
  {
    CompactKeeps(m.sys.sched);
    forall i | 0 <= i < |r.sys.sched| && r.sys.sched[i].kind.Exit?
      ensures Walks(r, i) <= r.born[r.sys.sched[i].id].from
    {
      assert r.sys.sched[i] in m.sys.sched;
      var j :| 0 <= j < |m.sys.sched| && m.sys.sched[j] == r.sys.sched[i];
      assert Walks(m, j) == |m.ticks|;
    }
    forall id: nat | id < |m.born| && m.born[id].unit.kind.Exit? ensures Pending(r, id) <==> Pending(m, id) {
    }
  }

  // -------------------------------------------------------------- every step

  lemma VisitSwitches(s: Sys, i: nat, tick: int, fate: Fate)
    requires Valid(s) && i < |s.sched|
    ensures VisitUnit(s, i, tick, fate).on == (s.on && !s.sched[i].kind.Exit?)
  {
    var u := s.sched[i];
    if u.kind.RunProg? && u.at <= tick { RunSwitchesNothing(s, i, u.target.value, fate); }
  }

  lemma RunSwitchesNothing(s: Sys, i: nat, k: nat, fate: Fate)
    requires Valid(s) && i < |s.sched| && k < |s.progs|
    ensures ServeRun(s, i, k, fate).on == s.on
  {
  }

  lemma RoundSwitchesNothing(m: State, a: Answer)
    requires WellFormed(m) && !m.phase.Units?
    ensures Round(m, a).sys.on == m.sys.on
  {
    if m.phase.Reaping? { ReapRoundQuietly(m, a); }
  }

  lemma WatchedVisitRound(m: State, a: Answer)
    requires WellFormed(m) && History(m) && Watched(m) && m.phase.Units? && m.phase.i < |m.sys.sched|
    requires History(Step(m, Go(a)))
    ensures Watched(Step(m, Go(a)))
  {
    var i := m.phase.i;
    var u := m.sys.sched[i];
    var acts := if Due(u, Tick(m)) then m.acts + [Act(u.id, |m.ticks| - 1)] else m.acts;
    var mid := m.(phase := Units(i + 1), sys := Spent(m.sys, i, Tick(m)), acts := acts);
    HistoryVisits(m, mid);
    VisitAppends(m, a, mid);
    VisitSwitches(m.sys, i, Tick(m), FateAt(a.fates, 0));
    var off := mid.(sys := mid.sys.(on := m.sys.on && !u.kind.Exit?));
    assert Numbered(off) && History(off) by { SameHistory(mid, off); }
    WatchedPasses(m, off);
    VisitStepIs(m, a, VisitUnit(m.sys, i, Tick(m), FateAt(a.fates, 0)));
    WatchedAppends(off, Step(m, Go(a)));
  }

  /** Whether the scheduler is on is no part of the history. */
  lemma SameHistory(m: State, r: State)
    requires History(m) && r == m.(sys := m.sys.(on := r.sys.on))
    ensures History(r)
  {
    assert forall id :: Acted(r, id) <==> Acted(m, id);
    assert forall i :: Walks(r, i) == Walks(m, i);
  }

  lemma WatchedCompactRound(m: State, a: Answer)
    requires WellFormed(m) && History(m) && Watched(m) && m.phase.Units? && m.phase.i >= |m.sys.sched|
    requires History(Step(m, Go(a)))
    ensures Watched(Step(m, Go(a)))
  {
    var r := m.(phase := Runtimes(0), sys := m.sys.(sched := Compact(m.sys.sched)));
    CompactShorter(m.sys.sched);
    assert Appended(m.sys.sched, r.sys.sched) == [];
    assert m.born + [] == m.born;
    WatchedCompacts(m, r);
  }

  lemma WatchedLoopTest(m: State, a: Answer)
    requires WellFormed(m) && History(m) && Watched(m) && m.phase.Idle?
    ensures Watched(Step(m, Go(a)))
  {
    var r := Step(m, Go(a));
    assert Appended(m.sys.sched, m.sys.sched) == [];
    assert m.born + [] == m.born;
    forall id: nat | id < |m.born| ensures Pending(r, id) <==> Pending(m, id) { }
    assert forall i :: Walks(r, i) <= Walks(m, i);
  }

  lemma WatchedOtherStep(m: State, l: Label)
    requires WellFormed(m) && History(m) && Watched(m) && History(Step(m, l))
    requires l.Go? ==> !m.phase.Idle? && !m.phase.Units?
    ensures Watched(Step(m, l))
  {
    if l.Go? {
      GrowsRound(m, l.answer);
      RoundSwitchesNothing(m, l.answer);
    } else {
      EnvironmentGrows(m, l);
    }
    WatchedAppends(m, Step(m, l));
  }

  lemma WatchedStep(m: State, l: Label)
    requires WellFormed(m) && History(m) && Watched(m)
    ensures History(Step(m, l)) && Watched(Step(m, l))
  {
    HistoryStep(m, l);
    if l.Go? && m.phase.Idle? {
      WatchedLoopTest(m, l.answer);
    } else if l.Go? && m.phase.Units? {
      if m.phase.i < |m.sys.sched| {
        WatchedVisitRound(m, l.answer);
      } else {
        WatchedCompactRound(m, l.answer);
      }
    } else {
      WatchedOtherStep(m, l);
    }
  }

  lemma {:induction false} WatchedRun(m: State, labels: seq<Label>)
    requires Initial(m)
    ensures History(Run(m, labels)) && Watched(Run(m, labels))
    decreases |labels|
  {
    HistoryRun(m, labels);
    if labels == [] {
      assert forall id: nat :: id < |m.born| ==> m.born[id].unit == m.sys.sched[id];
    } else {
      WatchedRun(m, labels[..|labels| - 1]);
      WatchedStep(Run(m, labels[..|labels| - 1]), labels[|labels| - 1]);
    }
  }

  /** Switch theorem: in every reachable state the scheduler is off if and only if some EXIT unit
      that was ever appended is no longer pending; and one that is pending is still to be passed
      by the first walk that could meet it. */
  lemma OffIffExitMet(m: State, labels: seq<Label>)
    requires Initial(m)
    ensures var r := Run(m, labels);
            && (!r.sys.on <==>
                  exists id :: 0 <= id < |r.born| && r.born[id].unit.kind.Exit? && r.born[id].unit !in r.sys.sched)
            && forall id :: 0 <= id < |r.born| && r.born[id].unit.kind.Exit? && r.born[id].unit in r.sys.sched ==>
                 (if r.phase.Units? then |r.ticks| - 1 else |r.ticks|) <= r.born[id].from
  {
    WatchedRun(m, labels);
    var r := Run(m, labels);
    forall id | 0 <= id < |r.born| && r.born[id].unit.kind.Exit? && r.born[id].unit in r.sys.sched
      ensures (if r.phase.Units? then |r.ticks| - 1 else |r.ticks|) <= r.born[id].from
    {
      var i :| 0 <= i < |r.sys.sched| && r.sys.sched[i] == r.born[id].unit;
      assert Walks(r, i) <= r.born[id].from;
    }
    assert forall id :: 0 <= id < |r.born| ==> (Pending(r, id) <==> r.born[id].unit in r.sys.sched);
  }
}
