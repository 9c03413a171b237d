/** Work units over whole runs: every unit to start or stop a program that was ever appended
    is either still pending or was acted on exactly once, at the first tick whose clock had
    reached its time. */
module UnitHistory {
  import opened Options
  import opened System
  import opened Machine

  // -------------------------------------------------- how operations append

  /** r's schedule is s's with freshly numbered units at its end. */
  ghost predicate Grows(s: Sys, r: Sys) {
    && |s.sched| <= |r.sched|
    && r.sched[..|s.sched|] == s.sched
    && r.nextId == s.nextId + (|r.sched| - |s.sched|)
    && forall i :: |s.sched| <= i < |r.sched| ==> r.sched[i].id == s.nextId + (i - |s.sched|)
  }

  lemma GrowsTransitive(s: Sys, t: Sys, r: Sys)
    requires Grows(s, t) && Grows(t, r)
    ensures Grows(s, r)
  {
    assert r.sched[..|s.sched|] == r.sched[..|t.sched|][..|s.sched|];
    forall i | |s.sched| <= i < |r.sched| ensures r.sched[i].id == s.nextId + (i - |s.sched|) {
      if i < |t.sched| { assert r.sched[i] == r.sched[..|t.sched|][i]; }
    }
  }

  lemma GrowsAction(s: Sys, k: nat, a: Action, limited: bool, fate: Fate)
    requires Valid(s) && k < |s.progs|
    ensures Grows(s, ApplyAction(s, k, a, limited, fate))
  {
    var t := Target(s.progs, k, a.prog);
    match a.kind
    case Exec =>
      if t == k && a.after == 0 { GrowsStart(s, k, fate); }
      GrowsUnit(s, RunProg, s.clock + a.after, Some(t));
    case Kill => GrowsUnit(s, EndProg, s.clock + a.after, Some(t));
    case ExitAll => GrowsUnit(s, Exit, s.clock, Some(t));
  }

  lemma GrowsUnit(s: Sys, kind: WorkType, at: int, target: Option<nat>)
    ensures Grows(s, AddUnit(s, kind, at, target))
  {
  }

  lemma GrowsStart(s: Sys, k: nat, fate: Fate)
    requires Valid(s) && k < |s.progs|
    ensures Grows(s, StartProgram(s, k, fate))
  {
    GrowsUnit(s, Exit, s.clock, Some(k));
  }

  lemma {:induction false} GrowsActions(s: Sys, k: nat, actions: seq<Action>, n: nat, limited: bool, fates: seq<Fate>)
    requires Valid(s) && k < |s.progs| && n <= |actions|
    ensures Grows(s, ApplyActions(s, k, actions, n, limited, fates))
  {
    if n > 0 {
      var t := ApplyActions(s, k, actions, n - 1, limited, fates);
      GrowsActions(s, k, actions, n - 1, limited, fates);
      GrowsAction(t, k, actions[n - 1], limited, FateAt(fates, n - 1));
      GrowsTransitive(s, t, ApplyActions(s, k, actions, n, limited, fates));
    }
  }

  lemma GrowsWhatNext(s: Sys, k: nat, res: int, sig: int, fates: seq<Fate>)
    requires Valid(s) && k < |s.progs|
    ensures Grows(s, WhatNext(s, k, res, sig, fates))
  {
    var p := s.progs[k];
    if p.stopMode != 1 && p.seqIdx == |p.conf.cmds| - 1 {
      GrowsSequenceEnd(IncSeqIdx(s, k), k, res, sig, fates);
    } else {
      GrowsUnit(IncSeqIdx(s, k), RunProg, s.clock, Some(k));
    }
  }

  lemma GrowsSequenceEnd(s: Sys, k: nat, res: int, sig: int, fates: seq<Fate>)
    requires Valid(s) && k < |s.progs|
    ensures Grows(s, SequenceEnd(s, k, res, sig, fates))
  {
    var al := GetActions(s.progs[k].conf, res, sig);
    if al.Some? {
      GrowsActions(LogLimits(s, k), k, al.value, |al.value|, Limited(s, k), fates);
    }
  }

  /** The units that a visit uses up. */
  predicate Used(u: WorkUnit, tick: int) {
    u.kind.Exit? || u.kind.NoStart? || Due(u, tick)
  }

  ghost function Spent(s: Sys, i: nat, tick: int): Sys
    requires i < |s.sched|
  {
    if Used(s.sched[i], tick) then s.(sched := s.sched[i := s.sched[i].(kind := NotInit)]) else s
  }

  lemma GrowsServeRun(s: Sys, i: nat, k: nat, fate: Fate)
    requires Valid(s) && i < |s.sched| && k < |s.progs|
    ensures Grows(s.(sched := s.sched[i := s.sched[i].(kind := NotInit)]), ServeRun(s, i, k, fate))
  {
  }

  lemma GrowsVisit(s: Sys, i: nat, tick: int, fate: Fate)
    requires Valid(s) && i < |s.sched|
    ensures Grows(Spent(s, i, tick), VisitUnit(s, i, tick, fate))
  {
    var u := s.sched[i];
    match u.kind
    case RunProg => if u.at <= tick { GrowsServeRun(s, i, u.target.value, fate); }
    case EndProg =>
      if u.at <= tick { ServeEndShape(s, i, u.target.value, tick); }
    case _ =>
  }

  lemma ServeEndShape(s: Sys, i: nat, k: nat, tick: int)
    requires Valid(s) && i < |s.sched| && k < |s.progs|
    ensures ServeEnd(s, i, k, tick).sched == s.sched[i := s.sched[i].(kind := NotInit)]
    ensures ServeEnd(s, i, k, tick).nextId == s.nextId
  {
  }

  // ---------------------------------------------------------- the invariant

  ghost predicate Acted(m: State, id: nat) {
    exists a :: 0 <= a < |m.acts| && m.acts[a].id == id
  }

  /** The walks that have passed position i: all but the one still on its way to it. */
  ghost function Walks(m: State, i: nat): int {
    if m.phase.Units? && m.phase.i <= i then |m.ticks| - 1 else |m.ticks|
  }

  ghost predicate Numbered(m: State) {
    && |m.born| == m.sys.nextId
    && (forall id :: 0 <= id < |m.born| ==> m.born[id].unit.id == id)
    && (forall i, j :: 0 <= i < j < |m.sys.sched| ==> m.sys.sched[i].id < m.sys.sched[j].id)
    && (forall i :: 0 <= i < |m.sys.sched| ==> m.sys.sched[i].id < m.sys.nextId)
    && (m.phase.Units? ==> m.phase.i <= |m.sys.sched| && |m.ticks| > 0)
    && (forall id :: 0 <= id < |m.born| ==> m.born[id].from <= FirstWalk(m))
  }

  /** A unit in the schedule is as it was born, or used up. */
  ghost predicate Unchanged(m: State)
    requires Numbered(m)
  {
    forall i :: 0 <= i < |m.sys.sched| ==>
      m.sys.sched[i].kind.NotInit? || m.sys.sched[i] == m.born[m.sys.sched[i].id].unit
  }

  /** Tick t is the first from `b.from` on whose clock has reached the unit's time. */
  ghost predicate FirstDue(b: Birth, ticks: seq<int>, t: nat) {
    && b.from <= t < |ticks|
    && b.unit.at <= ticks[t]
    && NeverDue(b, ticks, t)
  }

  ghost predicate NeverDue(b: Birth, ticks: seq<int>, t: int) {
    forall j :: b.from <= j < t && j < |ticks| ==> ticks[j] < b.unit.at
  }

  ghost predicate ActsSound(m: State)
    requires Numbered(m)
  {
    && (forall a, b :: 0 <= a < b < |m.acts| ==> m.acts[a].id != m.acts[b].id)
    && (forall a :: 0 <= a < |m.acts| ==>
          && m.acts[a].id < m.sys.nextId
          && Timed(m.born[m.acts[a].id].unit.kind)
          && FirstDue(m.born[m.acts[a].id], m.ticks, m.acts[a].tick))
  }

  ghost predicate PendingSound(m: State)
    requires Numbered(m)
  {
    && (forall i :: 0 <= i < |m.sys.sched| && Timed(m.sys.sched[i].kind) ==>
          && !Acted(m, m.sys.sched[i].id)
          && NeverDue(m.born[m.sys.sched[i].id], m.ticks, Walks(m, i)))
    && (forall id :: 0 <= id < |m.born| && Timed(m.born[id].unit.kind) ==>
          Acted(m, id) || m.born[id].unit in m.sys.sched)
  }

  ghost predicate History(m: State) {
    && Numbered(m)
    && Unchanged(m)
    && ActsSound(m)
    && PendingSound(m)
  }

  // ------------------------------------------------------------ preservation

  /** r differs from m in what the schedule gained and what was recorded of it. */
  ghost predicate Appends(m: State, r: State) {
    && Grows(m.sys, r.sys)
    && r.ticks == m.ticks && r.acts == m.acts
    && (r.phase == m.phase || (!m.phase.Units? && !r.phase.Units?))
    && r.born == m.born + Births(m, Appended(m.sys.sched, r.sys.sched))
  }

  lemma AppendsIndex(m: State, r: State)
    requires Numbered(m) && Appends(m, r)
    ensures |r.born| == r.sys.nextId
    ensures forall i :: 0 <= i < |m.sys.sched| ==> r.sys.sched[i] == m.sys.sched[i]
    ensures forall i :: |m.sys.sched| <= i < |r.sys.sched| ==> r.sys.sched[i].id == |m.born| + (i - |m.sys.sched|)
    ensures forall id :: 0 <= id < |m.born| ==> r.born[id] == m.born[id]
    ensures forall id :: |m.born| <= id < |r.born| ==>
              r.born[id] == Birth(r.sys.sched[|m.sys.sched| + (id - |m.born|)], FirstWalk(m))
  {
    var n := |m.sys.sched|;
    assert forall i :: 0 <= i < n ==> r.sys.sched[i] == r.sys.sched[..n][i];
  }

  lemma AppendsBorn(m: State, r: State)
    requires Numbered(m) && Appends(m, r)
    ensures forall id :: 0 <= id < |r.born| ==> r.born[id].unit.id == id && r.born[id].from <= FirstWalk(r)
  {
    AppendsIndex(m, r);
    assert FirstWalk(r) == FirstWalk(m);
    forall id | |m.born| <= id < |r.born| ensures r.born[id].unit.id == id {
      var i := |m.sys.sched| + (id - |m.born|);
      assert r.sys.sched[i].id == id;
    }
  }

  lemma AppendsSorted(m: State, r: State)
    requires Numbered(m) && Appends(m, r)
    ensures forall i, j :: 0 <= i < j < |r.sys.sched| ==> r.sys.sched[i].id < r.sys.sched[j].id
    ensures forall i :: 0 <= i < |r.sys.sched| ==> r.sys.sched[i].id < r.sys.nextId
  {
    AppendsIndex(m, r);
  }

  /** An appended unit's identity is its place in the history. */
  lemma AppendsUnit(m: State, r: State, i: nat)
    requires Numbered(m) && Appends(m, r) && |m.sys.sched| <= i < |r.sys.sched|
    ensures var id := r.sys.sched[i].id;
            |m.born| <= id < |r.born| && r.born[id] == Birth(r.sys.sched[i], FirstWalk(m))
  {
    AppendsIndex(m, r);
    var id := r.sys.sched[i].id;
    assert r.born[id] == Birth(r.sys.sched[|m.sys.sched| + (id - |m.born|)], FirstWalk(m));
  }

  lemma AppendsUnits(m: State, r: State)
    requires Numbered(m) && Appends(m, r)
    ensures Numbered(r)
    ensures forall i :: |m.sys.sched| <= i < |r.sys.sched| ==>
              r.sys.sched[i].id >= |m.born| && r.born[r.sys.sched[i].id] == Birth(r.sys.sched[i], FirstWalk(m))
  {
    AppendsIndex(m, r);
    AppendsBorn(m, r);
    AppendsSorted(m, r);
    forall i | |m.sys.sched| <= i < |r.sys.sched|
      ensures r.sys.sched[i].id >= |m.born| && r.born[r.sys.sched[i].id] == Birth(r.sys.sched[i], FirstWalk(m))
    {
      AppendsUnit(m, r, i);
    }
  }

  lemma AppendsPending(m: State, r: State)
    requires History(m) && Appends(m, r) && Numbered(r)
    ensures PendingSound(r)
  {
    AppendsIndex(m, r);
    AppendsUnits(m, r);
    assert forall id :: Acted(r, id) <==> Acted(m, id);
    forall i | 0 <= i < |r.sys.sched| && Timed(r.sys.sched[i].kind)
      ensures !Acted(r, r.sys.sched[i].id)
      ensures NeverDue(r.born[r.sys.sched[i].id], r.ticks, Walks(r, i))
    {
      if i < |m.sys.sched| { assert Walks(r, i) == Walks(m, i); }
    }
    forall id | 0 <= id < |r.born| && Timed(r.born[id].unit.kind)
      ensures Acted(r, id) || r.born[id].unit in r.sys.sched
    {
      if id < |m.born| && !Acted(m, id) {
        assert m.born[id].unit in m.sys.sched;
        var i :| 0 <= i < |m.sys.sched| && m.sys.sched[i] == m.born[id].unit;
        assert r.sys.sched[i] == r.born[id].unit;
      }
    }
  }

  lemma HistoryGrows(m: State, r: State)
    requires History(m) && Appends(m, r)
    ensures History(r)
  {
    AppendsIndex(m, r);
    AppendsUnits(m, r);
    AppendsPending(m, r);
  }

  /** The walk uses up the unit at its position or passes it by. */
  ghost predicate Visits(m: State, r: State) {
    && m.phase.Units? && m.phase.i < |m.sys.sched| && |m.ticks| > 0
    && var u := m.sys.sched[m.phase.i];
    && r.sys == Spent(m.sys, m.phase.i, Tick(m))
    && r.phase == Units(m.phase.i + 1)
    && r.acts == (if Due(u, Tick(m)) then m.acts + [Act(u.id, |m.ticks| - 1)] else m.acts)
    && r.ticks == m.ticks && r.born == m.born
  }

  lemma VisitsUnits(m: State, r: State)
    requires History(m) && Visits(m, r)
    ensures Numbered(r) && Unchanged(r)
    ensures forall j :: 0 <= j < |m.sys.sched| && j != m.phase.i ==> r.sys.sched[j] == m.sys.sched[j]
  {
    OneUsedUp(m.sys.sched, m.phase.i);
  }

  lemma OneUsedUp(sched: seq<WorkUnit>, i: nat)
    requires i < |sched|
    ensures var r := sched[i := sched[i].(kind := NotInit)];
            && (forall j :: 0 <= j < |sched| ==> r[j].id == sched[j].id)
            && (forall j :: 0 <= j < |sched| && j != i ==> r[j] == sched[j])
            && r[i].kind.NotInit?
  {
  }

  lemma VisitsActs(m: State, r: State)
    requires History(m) && Visits(m, r) && Numbered(r)
    ensures ActsSound(r)
    ensures forall id :: Acted(r, id) <==>
              Acted(m, id) || (id == m.sys.sched[m.phase.i].id && Due(m.sys.sched[m.phase.i], Tick(m)))
  {
    var u := m.sys.sched[m.phase.i];
    assert forall a :: 0 <= a < |m.acts| ==> r.acts[a] == m.acts[a];
    if Due(u, Tick(m)) {
      assert r.acts[|m.acts|].id == u.id;
      assert m.born[u.id].unit == u;
      assert NeverDue(m.born[u.id], m.ticks, Walks(m, m.phase.i));
      assert FirstDue(m.born[u.id], m.ticks, |m.ticks| - 1);
      assert forall a :: 0 <= a < |m.acts| ==> m.acts[a].id != u.id;
    }
    assert forall id :: Acted(m, id) ==> Acted(r, id);
  }

  lemma VisitsPending(m: State, r: State)
    requires History(m) && Visits(m, r) && Numbered(r)
    requires forall id :: Acted(r, id) <==>
              Acted(m, id) || (id == m.sys.sched[m.phase.i].id && Due(m.sys.sched[m.phase.i], Tick(m)))
    ensures PendingSound(r)
  {
    VisitsUnits(m, r);
    var w := m.phase.i;
    forall i | 0 <= i < |r.sys.sched| && Timed(r.sys.sched[i].kind)
      ensures !Acted(r, r.sys.sched[i].id)
      ensures NeverDue(r.born[r.sys.sched[i].id], r.ticks, Walks(r, i))
    {
      assert r.sys.sched[i] == m.sys.sched[i];
      assert NeverDue(m.born[m.sys.sched[i].id], m.ticks, Walks(m, i));
    }
    forall id | 0 <= id < |r.born| && Timed(r.born[id].unit.kind)
      ensures Acted(r, id) || r.born[id].unit in r.sys.sched
    {
      if !Acted(r, id) {
        var j :| 0 <= j < |m.sys.sched| && m.sys.sched[j] == m.born[id].unit;
        assert r.sys.sched[j] == m.sys.sched[j];
      }
    }
  }

  lemma HistoryVisits(m: State, r: State)
    requires History(m) && Visits(m, r)
    ensures History(r)
  {
    VisitsUnits(m, r);
    VisitsActs(m, r);
    VisitsPending(m, r);
  }

  lemma {:induction false} CompactKeeps(sched: seq<WorkUnit>)
    ensures forall u :: u in Compact(sched) <==> u in sched && !u.kind.NotInit?
  {
    if sched != [] {
      var init, last := sched[..|sched| - 1], sched[|sched| - 1];
      CompactKeeps(init);
      assert sched == init + [last];
    }
  }

  lemma {:induction false} CompactSorted(sched: seq<WorkUnit>)
    requires forall i, j :: 0 <= i < j < |sched| ==> sched[i].id < sched[j].id
    ensures forall i, j :: 0 <= i < j < |Compact(sched)| ==> Compact(sched)[i].id < Compact(sched)[j].id
  {
    if sched != [] {
      var init, last := sched[..|sched| - 1], sched[|sched| - 1];
      CompactSorted(init);
      CompactKeeps(init);
      forall i | 0 <= i < |Compact(init)| ensures Compact(init)[i].id < last.id {
        assert Compact(init)[i] in init;
      }
    }
  }

  lemma HistoryCompacts(m: State, r: State)
    requires History(m) && m.phase == Units(|m.sys.sched|)
    requires r == m.(phase := Runtimes(0), sys := m.sys.(sched := Compact(m.sys.sched)))
    ensures History(r)
  {
    CompactKeeps(m.sys.sched);
    CompactSorted(m.sys.sched);
    assert forall i :: 0 <= i < |r.sys.sched| ==> r.sys.sched[i] in r.sys.sched && r.sys.sched[i] in m.sys.sched;
    assert forall id :: Acted(r, id) <==> Acted(m, id);
    forall i | 0 <= i < |r.sys.sched| && Timed(r.sys.sched[i].kind)
      ensures !Acted(r, r.sys.sched[i].id)
      ensures NeverDue(r.born[r.sys.sched[i].id], r.ticks, Walks(r, i))
    {
      var j :| 0 <= j < |m.sys.sched| && m.sys.sched[j] == r.sys.sched[i];
      assert Walks(m, j) == |m.ticks|;
    }
  }

  lemma HistoryTicks(m: State, now: int)
    requires History(m) && m.phase == Idle
    ensures History(m.(phase := Units(0), ticks := m.ticks + [now]))
  {
    var r := m.(phase := Units(0), ticks := m.ticks + [now]);
    assert forall id :: Acted(r, id) <==> Acted(m, id);
    forall a | 0 <= a < |r.acts| ensures FirstDue(r.born[r.acts[a].id], r.ticks, r.acts[a].tick) {
      assert FirstDue(m.born[m.acts[a].id], m.ticks, m.acts[a].tick);
    }
  }

  lemma GrowsReap(s: Sys, c: int, tick: int, fates: seq<Fate>)
    requires Valid(s) && c in s.children && s.children[c].status.Some? && Registered(s, c)
    ensures Grows(s, ReapChild(s, c, tick, fates))
  {
    var k := s.running[c].value;
    var status := s.children[c].status.value;
    var s1 := LogDeath(BuryChild(s, c, k, tick), k, status, tick);
    GrowsWhatNext(s1, k, ExitStatus(status), if Signaled(status) then TermSig(status) else 0, fates);
  }

  /** Rounds other than those of the first pass and the outer loop's test. */
  lemma GrowsRound(m: State, a: Answer)
    requires WellFormed(m) && !m.phase.Idle? && !m.phase.Units?
    ensures Grows(m.sys, Round(m, a).sys)
    ensures !Round(m, a).phase.Units? && Round(m, a).ticks == m.ticks && Round(m, a).acts == m.acts
    ensures Round(m, a).born == m.born
  {
    match m.phase
    case Reaping(i, pid) =>
      var c := WaitPidResult(m.sys.children, pid, a.hint);
      if c > 0 && Registered(m.sys, c) {
        GrowsReap(m.sys, c, Tick(m), a.fates);
      }
    case _ =>
  }

  lemma HistoryVisitRound(m: State, a: Answer)
    requires WellFormed(m) && History(m) && m.phase.Units? && m.phase.i < |m.sys.sched|
    ensures History(Step(m, Go(a)))
  {
    var i := m.phase.i;
    var u := m.sys.sched[i];
    var mid := m.(phase := Units(i + 1), sys := Spent(m.sys, i, Tick(m)),
      acts := if Due(u, Tick(m)) then m.acts + [Act(u.id, |m.ticks| - 1)] else m.acts);
    HistoryVisits(m, mid);
    VisitAppends(m, a, mid);
    HistoryGrows(mid, Step(m, Go(a)));
  }

  /** A round of the first pass is using the unit up and then appending. */
  lemma VisitAppends(m: State, a: Answer, mid: State)
    requires WellFormed(m) && m.phase.Units? && m.phase.i < |m.sys.sched| && Visits(m, mid)
    ensures Appends(mid, Step(m, Go(a)))
  {
    var s := VisitUnit(m.sys, m.phase.i, Tick(m), FateAt(a.fates, 0));
    GrowsVisit(m.sys, m.phase.i, Tick(m), FateAt(a.fates, 0));
    VisitStepIs(m, a, s);
    SameBirths(m, mid, Appended(m.sys.sched, s.sched));
    assert |mid.sys.sched| == |m.sys.sched|;
  }

  lemma VisitStepIs(m: State, a: Answer, s: Sys)
    requires WellFormed(m) && m.phase.Units? && m.phase.i < |m.sys.sched|
    requires s == VisitUnit(m.sys, m.phase.i, Tick(m), FateAt(a.fates, 0))
    ensures var r := Step(m, Go(a));
            var u := m.sys.sched[m.phase.i];
            && r.sys == s && r.phase == Units(m.phase.i + 1) && r.ticks == m.ticks
            && r.acts == (if Due(u, Tick(m)) then m.acts + [Act(u.id, |m.ticks| - 1)] else m.acts)
            && r.born == m.born + Births(m, Appended(m.sys.sched, s.sched))
  {
  }

  lemma SameBirths(m: State, mid: State, units: seq<WorkUnit>)
    requires FirstWalk(mid) == FirstWalk(m)
    ensures Births(mid, units) == Births(m, units)
  {
  }

  lemma HistoryCompactRound(m: State, a: Answer)
    requires WellFormed(m) && History(m) && m.phase.Units? && m.phase.i >= |m.sys.sched|
    ensures History(Step(m, Go(a)))
  {
    var r := m.(phase := Runtimes(0), sys := m.sys.(sched := Compact(m.sys.sched)));
    CompactShorter(m.sys.sched);
    assert Appended(m.sys.sched, r.sys.sched) == [];
    assert m.born + [] == m.born;
    HistoryCompacts(m, r);
  }

  lemma HistoryLoopTest(m: State, a: Answer)
    requires WellFormed(m) && History(m) && m.phase.Idle?
    ensures History(Step(m, Go(a)))
  {
    var r := Step(m, Go(a));
    assert Appended(m.sys.sched, m.sys.sched) == [];
    assert m.born + [] == m.born;
    if m.sys.on { HistoryTicks(m, m.sys.clock); } else { HistoryGrows(m, r); }
  }

  lemma HistoryStep(m: State, l: Label)
    requires WellFormed(m) && History(m)
    ensures History(Step(m, l))
  {
    if !l.Go? {
      HistoryEnvironment(m, l);
    } else if m.phase.Idle? {
      HistoryLoopTest(m, l.answer);
    } else if m.phase.Units? {
      if m.phase.i < |m.sys.sched| {
        HistoryVisitRound(m, l.answer);
      } else {
        HistoryCompactRound(m, l.answer);
      }
    } else {
      HistoryOtherRound(m, l.answer);
    }
  }

  lemma HistoryEnvironment(m: State, l: Label)
    requires WellFormed(m) && History(m) && !l.Go?
    ensures History(Step(m, l))
  {
    EnvironmentGrows(m, l);
    HistoryGrows(m, Step(m, l));
  }

  lemma EnvironmentGrows(m: State, l: Label)
    requires WellFormed(m) && !l.Go?
    ensures var r := Move(m, l);
            Grows(m.sys, r.sys) && r.phase == m.phase && r.ticks == m.ticks && r.acts == m.acts && r.born == m.born
  {
    if l.Request? { GrowsServe(m.sys, l.cmd); }
  }

  lemma GrowsServe(s: Sys, cmd: Command)
    requires Valid(s)
    ensures Grows(s, Serve(s, cmd))
  {
    match cmd
    case StartCmd(name) => GrowsUnit(s, RunProg, s.clock, FindProgram(s.progs, name));
    case StopCmd(name) => GrowsUnit(s, EndProg, s.clock, FindProgram(s.progs, name));
    case QuitCmd => GrowsUnit(s, Exit, s.clock, None);
  }

  lemma HistoryOtherRound(m: State, a: Answer)
    requires WellFormed(m) && History(m) && !m.phase.Idle? && !m.phase.Units?
    ensures History(Step(m, Go(a)))
  {
    GrowsRound(m, a);
    HistoryGrows(m, Step(m, Go(a)));
  }

  lemma CompactShorter(sched: seq<WorkUnit>)
    ensures |Compact(sched)| <= |sched|
  {
  }

  lemma {:induction false} HistoryRun(m: State, labels: seq<Label>)
    requires Initial(m)
    ensures History(Run(m, labels))
    decreases |labels|
  {
    if labels == [] {
      assert forall i :: 0 <= i < |m.sys.sched| ==> m.sys.sched[i] in m.sys.sched;
    } else {
      HistoryRun(m, labels[..|labels| - 1]);
      HistoryStep(Run(m, labels[..|labels| - 1]), labels[|labels| - 1]);
    }
  }

  /** Work-unit theorem. `from` is the first tick that could meet the unit. */
  lemma ServedOnceOnTime(m: State, labels: seq<Label>, id: nat)
    requires Initial(m) && id < |Run(m, labels).born| && Timed(Run(m, labels).born[id].unit.kind)
    ensures var r := Run(m, labels);
            var b := r.born[id];
            && (b.unit in r.sys.sched <==> !Acted(r, id))
            && (forall x, y :: 0 <= x < |r.acts| && 0 <= y < |r.acts| && r.acts[x].id == id && r.acts[y].id == id ==> x == y)
            && (forall x, y :: 0 <= x < |r.sys.sched| && 0 <= y < |r.sys.sched| && r.sys.sched[x].id == id && r.sys.sched[y].id == id ==> x == y)
            && (forall x :: 0 <= x < |r.acts| && r.acts[x].id == id ==> FirstDue(b, r.ticks, r.acts[x].tick))
            && (b.unit in r.sys.sched ==> NeverDue(b, r.ticks, if r.phase.Units? then |r.ticks| - 1 else |r.ticks|))
  {
    HistoryRun(m, labels);
    var r := Run(m, labels);
    var b := r.born[id];
    if b.unit in r.sys.sched {
      var i :| 0 <= i < |r.sys.sched| && r.sys.sched[i] == b.unit;
      assert NeverDue(b, r.ticks, Walks(r, i));
    }
  }
}
