/** The two passes over the schedule: the first ends although it may append to what it
    walks, and together they filter the schedule. */
module Passes {
  import opened Options
  import opened System
  import opened UnitHistory

  /** The units that survive a tick: those not yet due, and WAIT_PID units. */
  predicate Survives(u: WorkUnit, tick: int) {
    u.kind.WaitPid? || (Timed(u.kind) && u.at > tick)
  }

  function Survivors(sched: seq<WorkUnit>, tick: int): seq<WorkUnit> {
    if sched == [] then []
    else
      var rest := Survivors(sched[..|sched| - 1], tick);
      if Survives(sched[|sched| - 1], tick) then rest + [sched[|sched| - 1]] else rest
  }

  /** A visit uses the unit up or not, and may append one EXIT unit, for a program that a due
      unit failed to start. */
  lemma VisitShape(s: Sys, i: nat, tick: int, fate: Fate)
    requires Valid(s) && i < |s.sched|
    ensures var r := VisitUnit(s, i, tick, fate).sched;
            var spent := Spent(s, i, tick).sched;
            r == spent ||
            (s.sched[i].kind.RunProg? && |r| == |spent| + 1 && r[..|spent|] == spent && r[|spent|].kind.Exit?)
  {
    var u := s.sched[i];
    match u.kind
    case RunProg => if u.at <= tick { ServeRunShape(s, i, u.target.value, fate); }
    case EndProg => if u.at <= tick { ServeEndShape(s, i, u.target.value, tick); }
    case _ =>
  }

  lemma ServeRunShape(s: Sys, i: nat, k: nat, fate: Fate)
    requires Valid(s) && i < |s.sched| && k < |s.progs|
    ensures var r := ServeRun(s, i, k, fate).sched;
            var spent := s.sched[i := s.sched[i].(kind := NotInit)];
            r == spent || (|r| == |spent| + 1 && r[..|spent|] == spent && r[|spent|].kind.Exit?)
  {
    var r := ServeRun(s, i, k, fate).sched;
    var spent := s.sched[i := s.sched[i].(kind := NotInit)];
    if |r| == |spent| + 1 { assert r[..|spent|] == spent; } else { assert r == spent; }
  }

  // ------------------------------------------------------------- termination

  /** How much the walk has left to do from position i: 2 for a unit that may append. */
  function Work(sched: seq<WorkUnit>, i: nat): nat
    decreases |sched| - i
  {
    if i >= |sched| then 0 else (if sched[i].kind.RunProg? then 2 else 1) + Work(sched, i + 1)
  }

  lemma {:induction false} WorkOfSuffix(a: seq<WorkUnit>, b: seq<WorkUnit>, i: nat)
    requires |b| <= |a| <= |b| + 1 && i <= |b|
    requires forall j :: i <= j < |b| ==> a[j] == b[j]
    requires |a| == |b| + 1 ==> !a[|b|].kind.RunProg?
    ensures Work(a, i) == Work(b, i) + (|a| - |b|)
    decreases |b| - i
  {
    if i < |b| { WorkOfSuffix(a, b, i + 1); }
    else if |a| > |b| { assert Work(a, i + 1) == 0; }
  }

  /** Every visit leaves less work, whatever it appends. */
  lemma VisitProgress(s: Sys, i: nat, tick: int, fate: Fate)
    requires Valid(s) && i < |s.sched|
    ensures Work(VisitUnit(s, i, tick, fate).sched, i + 1) < Work(s.sched, i)
  {
    var r := VisitUnit(s, i, tick, fate).sched;
    VisitShape(s, i, tick, fate);
    var spent := Spent(s, i, tick).sched;
    assert forall j :: i + 1 <= j < |s.sched| ==> r[j] == r[..|spent|][j] == s.sched[j];
    WorkOfSuffix(r, s.sched, i + 1);
  }

  // --------------------------------------------------------------- filtering

  function Min(a: int, b: int): int {
    if a < b then a else b
  }

  /** The walk over `orig` has reached position n and the schedule is now `cur`. */
  ghost predicate Walked(orig: seq<WorkUnit>, cur: seq<WorkUnit>, n: nat, tick: int) {
    && |orig| <= |cur| && n <= |cur|
    && Compact(cur[..n]) == Survivors(orig[..Min(n, |orig|)], tick)
    && forall i :: n <= i < |cur| ==> if i < |orig| then cur[i] == orig[i] else cur[i].kind.Exit?
  }

  /** A visit changes nothing but its own position and what it appends. */
  lemma VisitElements(s: Sys, n: nat, tick: int, fate: Fate)
    requires Valid(s) && n < |s.sched|
    ensures var r := VisitUnit(s, n, tick, fate).sched;
            && |s.sched| <= |r|
            && r[..n] == s.sched[..n]
            && r[n] == (if Used(s.sched[n], tick) then s.sched[n].(kind := NotInit) else s.sched[n])
            && (forall j :: n < j < |s.sched| ==> r[j] == s.sched[j])
            && (forall j :: |s.sched| <= j < |r| ==> r[j].kind.Exit?)
  {
    VisitShape(s, n, tick, fate);
    ElementsOf(s.sched, Spent(s, n, tick).sched, VisitUnit(s, n, tick, fate).sched, n, tick);
  }

  lemma ElementsOf(sched: seq<WorkUnit>, spent: seq<WorkUnit>, r: seq<WorkUnit>, n: nat, tick: int)
    requires n < |sched|
    requires spent == if Used(sched[n], tick) then sched[n := sched[n].(kind := NotInit)] else sched
    requires r == spent || (|r| == |spent| + 1 && r[..|spent|] == spent && r[|spent|].kind.Exit?)
    ensures |sched| <= |r| && r[..n] == sched[..n]
    ensures r[n] == if Used(sched[n], tick) then sched[n].(kind := NotInit) else sched[n]
    ensures forall j :: n < j < |sched| ==> r[j] == sched[j]
    ensures forall j :: |sched| <= j < |r| ==> r[j].kind.Exit?
  {
    assert forall j :: 0 <= j < |spent| ==> r[j] == r[..|spent|][j] == spent[j];
  }

  lemma WalkedStep(orig: seq<WorkUnit>, s: Sys, n: nat, tick: int, fate: Fate)
    requires Valid(s) && n < |s.sched| && Walked(orig, s.sched, n, tick)
    ensures Walked(orig, VisitUnit(s, n, tick, fate).sched, n + 1, tick)
  {
    VisitElements(s, n, tick, fate);
    WalkedOne(orig, s.sched, VisitUnit(s, n, tick, fate).sched, n, tick);
  }

  lemma WalkedOne(orig: seq<WorkUnit>, cur: seq<WorkUnit>, r: seq<WorkUnit>, n: nat, tick: int)
    requires n < |cur| <= |r| && Walked(orig, cur, n, tick)
    requires r[..n] == cur[..n]
    requires r[n] == if Used(cur[n], tick) then cur[n].(kind := NotInit) else cur[n]
    requires forall j :: n < j < |cur| ==> r[j] == cur[j]
    requires forall j :: |cur| <= j < |r| ==> r[j].kind.Exit?
    ensures Walked(orig, r, n + 1, tick)
  {
    assert r[..n + 1] == r[..n] + [r[n]];
    assert r[..n + 1][..n] == r[..n];
    if n < |orig| {
      assert orig[..n + 1] == orig[..n] + [orig[n]];
      assert orig[..n + 1][..n] == orig[..n];
    }
  }

  /** Tick theorem: once walked to its end, the compacted schedule is the filter of the old. */
  lemma WalkedFilters(orig: seq<WorkUnit>, cur: seq<WorkUnit>, tick: int)
    requires Walked(orig, cur, |cur|, tick)
    ensures Compact(cur) == Survivors(orig, tick)
  {
    assert cur[..|cur|] == cur && orig[..|orig|] == orig;
  }

  /** What the filter is: the survivors, all of them, in their order. */
  lemma {:induction false} SurvivorsAre(a: seq<WorkUnit>, b: seq<WorkUnit>, tick: int)
    ensures forall u :: u in Survivors(b, tick) <==> u in b && Survives(u, tick)
    ensures Survivors(a + b, tick) == Survivors(a, tick) + Survivors(b, tick)
  {
    if b == [] {
      assert a + b == a;
    } else {
      var init, last := b[..|b| - 1], b[|b| - 1];
      SurvivorsAre(a, init, tick);
      assert b == init + [last];
      assert (a + b)[..|a + b| - 1] == a + init;
    }
  }
}
