/** What `what_next` makes of an action list, said without running it: at the end of a
    sequence the appended units are the actions' orders, in action order. */
module Translation {
  import opened Options
  import opened System
  import opened UnitHistory
  import opened RestartBound

  /** Whom an order is for: the program whose exit it was, or whoever goes by a name. */
  datatype Whom = Itself | Called(name: string)

  /** What a unit says, apart from its identity. */
  datatype Order = Order(kind: WorkType, at: int, whom: Whom)

  /** The unit is the order of program k: for k itself, for the first program with the name
      or, when there is none, again for k. */
  predicate Means(progs: seq<Prog>, k: nat, u: WorkUnit, o: Order) {
    && u.kind == o.kind && u.at == o.at && u.target.Some?
    && match o.whom
       case Itself => u.target.value == k
       case Called(name) => IsNamed(progs, k, name, u.target.value)
  }

  /** A start of the program itself without delay: it is run on the spot. */
  predicate Direct(progs: seq<Prog>, k: nat, a: Action) {
    Starter(progs, k, a, k) && a.after == 0
  }

  predicate CannotStart(fate: Fate) {
    fate.NoHome? || fate.NoBinary?
  }

  /** The orders of one action; `fails` says that a direct start found nothing to run. */
  function OrdersOf(progs: seq<Prog>, k: nat, clock: int, a: Action, fails: bool): seq<Order> {
    if Direct(progs, k, a) then
      if fails then [Order(Exit, clock, Itself)] else []
    else match a.kind
      case Exec => [Order(RunProg, clock + a.after, Called(a.prog))]
      case Kill => if IsNamed(progs, k, a.prog, k) then [] else [Order(EndProg, clock + a.after, Called(a.prog))]
      case ExitAll => [Order(Exit, clock, Called(a.prog))]
  }

  /** Whether one of the first n actions put program k to work. */
  function StartedBy(progs: seq<Prog>, k: nat, actions: seq<Action>, fates: seq<Fate>, n: nat): bool
    requires n <= |actions|
  {
    exists i :: 0 <= i < n && Direct(progs, k, actions[i]) && FateAt(fates, i).Forked?
  }

  /** The orders of the first n actions of an idle program k. */
  function Orders(progs: seq<Prog>, k: nat, clock: int, actions: seq<Action>, fates: seq<Fate>, n: nat): seq<Order>
    requires n <= |actions|
  {
    if n == 0 then []
    else
      Orders(progs, k, clock, actions, fates, n - 1)
      + OrdersOf(progs, k, clock, actions[n - 1],
                 CannotStart(FateAt(fates, n - 1)) && !StartedBy(progs, k, actions, fates, n - 1))
  }

  /** The list without the program's starts of itself. */
  function WithoutSelfStarts(progs: seq<Prog>, k: nat, actions: seq<Action>, n: nat): seq<Action>
    requires n <= |actions|
  {
    if n == 0 then []
    else
      WithoutSelfStarts(progs, k, actions, n - 1)
      + if Starter(progs, k, actions[n - 1], k) then [] else [actions[n - 1]]
  }

  /** r is s with units appended that mean the orders of program k. */
  ghost predicate Delivers(s: Sys, r: Sys, k: nat, orders: seq<Order>) {
    && Grows(s, r)
    && |r.sched| == |s.sched| + |orders|
    && forall i :: 0 <= i < |orders| ==> Means(s.progs, k, r.sched[|s.sched| + i], orders[i])
  }

  /** From s to r no program but k changed, and k only if it was put to work, which is all
      that was logged. */
  ghost predicate Works(s: Sys, r: Sys, k: nat, started: bool)
    requires k < |s.progs|
  {
    && |r.progs| == |s.progs|
    && (forall j :: 0 <= j < |s.progs| && j != k ==> r.progs[j] == s.progs[j])
    && r.progs[k].conf == s.progs[k].conf
    && r.progs[k].starts == s.progs[k].starts + (if started then 1 else 0)
    && (r.progs[k].pid != 0 <==> s.progs[k].pid != 0 || started)
    && r.clock == s.clock && r.on == s.on && r.signals == s.signals
    && r.events == s.events + (if started then [Event(s.clock, EvtStart, k, -1)] else [])
  }

  /** From s to r the first n actions of idle program k have been translated. */
  ghost predicate TranslatesFirst(s: Sys, r: Sys, k: nat, actions: seq<Action>, n: nat, fates: seq<Fate>)
    requires k < |s.progs| && n <= |actions|
  {
    && Delivers(s, r, k, Orders(s.progs, k, s.clock, actions, fates, n))
    && Works(s, r, k, StartedBy(s.progs, k, actions, fates, n))
  }

  lemma StartTranslates(s: Sys, k: nat, fate: Fate)
    requires Valid(s) && k < |s.progs|
    ensures var r := StartProgram(s, k, fate);
            var idle := s.progs[k].pid == 0;
            && Delivers(s, r, k, if CannotStart(fate) && idle then [Order(Exit, s.clock, Itself)] else [])
            && Works(s, r, k, fate.Forked? && idle)
  {
  }

  lemma UnitTranslates(s: Sys, kind: WorkType, at: int, t: nat, k: nat, whom: Whom)
    requires k < |s.progs| && if whom.Itself? then t == k else IsNamed(s.progs, k, whom.name, t)
    ensures var r := AddUnit(s, kind, at, Some(t));
            Delivers(s, r, k, [Order(kind, at, whom)]) && Works(s, r, k, false)
  {
  }

  lemma ActionTranslates(s: Sys, k: nat, a: Action, fate: Fate)
    requires Valid(s) && k < |s.progs|
    ensures var r := ApplyAction(s, k, a, false, fate);
            var idle := s.progs[k].pid == 0;
            && Delivers(s, r, k, OrdersOf(s.progs, k, s.clock, a, CannotStart(fate) && idle))
            && Works(s, r, k, Direct(s.progs, k, a) && fate.Forked? && idle)
  {
    if Direct(s.progs, k, a) {
      StartTranslates(s, k, fate);
    } else {
      QueuedTranslates(s, k, a, fate, CannotStart(fate) && s.progs[k].pid == 0);
    }
  }

  lemma QueuedTranslates(s: Sys, k: nat, a: Action, fate: Fate, fails: bool)
    requires Valid(s) && k < |s.progs| && !Direct(s.progs, k, a)
    ensures var r := ApplyAction(s, k, a, false, fate);
            Delivers(s, r, k, OrdersOf(s.progs, k, s.clock, a, fails)) && Works(s, r, k, false)
  {
    var t := Target(s.progs, k, a.prog);
    match a.kind
    case Exec => UnitTranslates(s, RunProg, s.clock + a.after, t, k, Called(a.prog));
    case Kill => StopTranslates(s, k, a, fate, fails);
    case ExitAll => UnitTranslates(s, Exit, s.clock, t, k, Called(a.prog));
  }

  lemma StopTranslates(s: Sys, k: nat, a: Action, fate: Fate, fails: bool)
    requires Valid(s) && k < |s.progs| && a.kind.Kill?
    ensures var r := ApplyAction(s, k, a, false, fate);
            Delivers(s, r, k, OrdersOf(s.progs, k, s.clock, a, fails)) && Works(s, r, k, false)
  {
    var t := Target(s.progs, k, a.prog);
    if t != k { UnitTranslates(s, EndProg, s.clock + a.after, t, k, Called(a.prog)); }
  }

  lemma OrdersStable(p: seq<Prog>, q: seq<Prog>, k: nat, clock: int, a: Action, fails: bool)
    requires SameConf(p, q)
    ensures Direct(p, k, a) == Direct(q, k, a)
    ensures OrdersOf(p, k, clock, a, fails) == OrdersOf(q, k, clock, a, fails)
  {
    StarterStable(p, q, k, a, k);
    IsNamedStable(p, q, k, a.prog, k);
  }

  lemma MeansStable(p: seq<Prog>, q: seq<Prog>, k: nat, u: WorkUnit, o: Order)
    requires SameConf(p, q)
    ensures Means(p, k, u, o) == Means(q, k, u, o)
  {
    if u.target.Some? && o.whom.Called? { IsNamedStable(p, q, k, o.whom.name, u.target.value); }
  }

  lemma DeliversJoin(s: Sys, t: Sys, r: Sys, k: nat, a: seq<Order>, b: seq<Order>)
    requires Delivers(s, t, k, a) && Delivers(t, r, k, b) && SameConf(s.progs, t.progs)
    ensures Delivers(s, r, k, a + b)
  {
    GrowsTransitive(s, t, r);
    forall i | 0 <= i < |a + b| ensures Means(s.progs, k, r.sched[|s.sched| + i], (a + b)[i]) {
      if i < |a| {
        assert r.sched[..|t.sched|][|s.sched| + i] == t.sched[|s.sched| + i];
      } else {
        assert Means(t.progs, k, r.sched[|t.sched| + (i - |a|)], b[i - |a|]);
        MeansStable(s.progs, t.progs, k, r.sched[|s.sched| + i], b[i - |a|]);
      }
    }
  }

  lemma StartedStep(progs: seq<Prog>, k: nat, actions: seq<Action>, fates: seq<Fate>, n: nat)
    requires 0 < n <= |actions|
    ensures StartedBy(progs, k, actions, fates, n) <==>
              || StartedBy(progs, k, actions, fates, n - 1)
              || (Direct(progs, k, actions[n - 1]) && FateAt(fates, n - 1).Forked?)
  {
  }

  /** Translation theorem, within the limits. */
  lemma {:induction false} ActionsAreOrders(s: Sys, k: nat, actions: seq<Action>, n: nat, fates: seq<Fate>)
    requires Valid(s) && k < |s.progs| && s.progs[k].pid == 0 && n <= |actions|
    ensures TranslatesFirst(s, ApplyActions(s, k, actions, n, false, fates), k, actions, n, fates)
  {
    if n > 0 {
      var t := ApplyActions(s, k, actions, n - 1, false, fates);
      ActionsAreOrders(s, k, actions, n - 1, fates);
      ActionIsOrders(s, t, k, actions, n, fates);
    }
  }

  lemma ActionIsOrders(s: Sys, t: Sys, k: nat, actions: seq<Action>, n: nat, fates: seq<Fate>)
    requires Valid(s) && Valid(t) && k < |s.progs| && s.progs[k].pid == 0 && 0 < n <= |actions| && SameTable(s, t)
    requires TranslatesFirst(s, t, k, actions, n - 1, fates)
    ensures TranslatesFirst(s, ApplyAction(t, k, actions[n - 1], false, FateAt(fates, n - 1)), k, actions, n, fates)
  {
    var a, fate := actions[n - 1], FateAt(fates, n - 1);
    var fails := CannotStart(fate) && t.progs[k].pid == 0;
    ActionTranslates(t, k, a, fate);
    OrdersStable(s.progs, t.progs, k, s.clock, a, fails);
    DeliversJoin(s, t, ApplyAction(t, k, a, false, fate), k,
      Orders(s.progs, k, s.clock, actions, fates, n - 1), OrdersOf(s.progs, k, s.clock, a, fails));
    StartedStep(s.progs, k, actions, fates, n);
  }

  lemma {:induction false} ActionsPrefix(s: Sys, k: nat, a: seq<Action>, c: seq<Action>, n: nat, fates: seq<Fate>, t: Sys)
    requires Valid(s) && k < |s.progs| && n <= |a| && n <= |c|
    requires forall i :: 0 <= i < n ==> a[i] == c[i]
    requires t == ApplyActions(s, k, a, n, false, fates)
    ensures t == ApplyActions(s, k, c, n, false, fates)
  {
    if n > 0 {
      var u := ApplyActions(s, k, a, n - 1, false, fates);
      ActionsPrefix(s, k, a, c, n - 1, fates, u);
      LastAction(s, k, a, n, fates, u);
      LastAction(s, k, c, n, fates, u);
    }
  }

  lemma LastAction(s: Sys, k: nat, a: seq<Action>, n: nat, fates: seq<Fate>, t: Sys)
    requires Valid(s) && k < |s.progs| && 0 < n <= |a|
    requires t == ApplyActions(s, k, a, n - 1, false, fates)
    ensures Valid(t) && k < |t.progs|
    ensures ApplyActions(s, k, a, n, false, fates) == ApplyAction(t, k, a[n - 1], false, FateAt(fates, n - 1))
  {
  }

  lemma ActionsSnoc(s: Sys, k: nat, init: seq<Action>, a: Action, fates: seq<Fate>)
    requires Valid(s) && k < |s.progs|
    ensures ApplyActions(s, k, init + [a], |init| + 1, false, fates)
         == ApplyAction(ApplyActions(s, k, init, |init|, false, fates), k, a, false, FateAt(fates, |init|))
  {
    ActionsPrefix(s, k, init, init + [a], |init|, fates, ApplyActions(s, k, init, |init|, false, fates));
  }

  /** Under a reached limit a start of the program itself is dropped, anything else is not. */
  lemma LimitedAction(s: Sys, k: nat, a: Action, fate: Fate, anyFate: Fate)
    requires Valid(s) && k < |s.progs|
    ensures ApplyAction(s, k, a, true, fate)
         == if Starter(s.progs, k, a, k) then s else ApplyAction(s, k, a, false, anyFate)
  {
  }

  lemma LimitRemovesNext(s: Sys, k: nat, actions: seq<Action>, n: nat, rest: seq<Action>, fates: seq<Fate>, anyFates: seq<Fate>)
    requires Valid(s) && k < |s.progs| && 0 < n <= |actions|
    requires ApplyActions(s, k, actions, n - 1, true, fates) == ApplyActions(s, k, rest, |rest|, false, anyFates)
    ensures Starter(s.progs, k, actions[n - 1], k) ==>
              ApplyActions(s, k, actions, n, true, fates) == ApplyActions(s, k, rest, |rest|, false, anyFates)
    ensures !Starter(s.progs, k, actions[n - 1], k) ==>
              ApplyActions(s, k, actions, n, true, fates) == ApplyActions(s, k, rest + [actions[n - 1]], |rest| + 1, false, anyFates)
  {
    var a := actions[n - 1];
    var t := ApplyActions(s, k, actions, n - 1, true, fates);
    StarterStable(s.progs, t.progs, k, a, k);
    LimitedAction(t, k, a, FateAt(fates, n - 1), FateAt(anyFates, |rest|));
    ActionsSnoc(s, k, rest, a, anyFates);
  }

  /** A reached limit removes exactly the program's starts of itself from the list. */
  lemma {:induction false} LimitRemovesSelfStarts(s: Sys, k: nat, actions: seq<Action>, n: nat, rest: seq<Action>, fates: seq<Fate>, anyFates: seq<Fate>)
    requires Valid(s) && k < |s.progs| && n <= |actions|
    requires rest == WithoutSelfStarts(s.progs, k, actions, n)
    ensures ApplyActions(s, k, actions, n, true, fates) == ApplyActions(s, k, rest, |rest|, false, anyFates)
    decreases n
  {
    if n > 0 {
      var before := WithoutSelfStarts(s.progs, k, actions, n - 1);
      LimitRemovesSelfStarts(s, k, actions, n - 1, before, fates, anyFates);
      LimitRemovesNext(s, k, actions, n, before, fates, anyFates);
      assert before + [] == before;
    }
  }

  /** The list `what_next` goes by. */
  function EffectiveActions(s: Sys, k: nat, actions: seq<Action>): seq<Action>
    requires k < |s.progs|
  {
    if Limited(s, k) then WithoutSelfStarts(s.progs, k, actions, |actions|) else actions
  }

  /** From s to r program k carried out the actions as orders. */
  ghost predicate Translates(s: Sys, r: Sys, k: nat, actions: seq<Action>, fates: seq<Fate>)
    requires k < |s.progs|
  {
    TranslatesFirst(s, r, k, actions, |actions|, fates)
  }

  lemma LimitedListTranslates(s: Sys, k: nat, found: seq<Action>, limited: bool, fates: seq<Fate>)
    requires Valid(s) && k < |s.progs| && s.progs[k].pid == 0
    ensures var actions := if limited then WithoutSelfStarts(s.progs, k, found, |found|) else found;
            Translates(s, ApplyActions(s, k, found, |found|, limited, fates), k, actions, fates)
  {
    var actions := if limited then WithoutSelfStarts(s.progs, k, found, |found|) else found;
    if limited {
      LimitRemovesSelfStarts(s, k, found, |found|, actions, fates, fates);
    }
    ActionsAreOrders(s, k, actions, |actions|, fates);
  }

  /** The events that note the limits met: one for each. */
  function LimitsNoted(s: Sys, k: nat): seq<Event>
    requires k < |s.progs|
  {
    var note := [Event(s.clock, EvtLimit, k, 0)];
    (if MinRuntimeMissed(s.progs[k], s.clock) then note else []) + (if StartsUsedUp(s.progs[k]) then note else [])
  }

  lemma LimitsAreNoted(s: Sys, k: nat)
    requires Valid(s) && k < |s.progs|
    ensures LogLimits(s, k) == s.(events := s.events + LimitsNoted(s, k))
  {
    assert s.events + [] == s.events;
    var note := [Event(s.clock, EvtLimit, k, 0)];
    assert (s.events + note) + note == s.events + (note + note);
  }

  /** What the end of a sequence comes to. */
  lemma SequenceEndTranslates(s: Sys, k: nat, res: int, sig: int, fates: seq<Fate>)
    requires Valid(s) && k < |s.progs| && s.progs[k].pid == 0
    ensures var r := SequenceEnd(s, k, res, sig, fates);
            match GetActions(s.progs[k].conf, res, sig)
            case None => r == s
            case Some(found) =>
              Translates(s.(events := s.events + LimitsNoted(s, k)), r, k, EffectiveActions(s, k, found), fates)
  {
    var found := GetActions(s.progs[k].conf, res, sig);
    if found.Some? {
      LimitsAreNoted(s, k);
      LimitedListTranslates(LogLimits(s, k), k, found.value, Limited(s, k), fates);
    }
  }

  /** `what_next` for a program that has just been reaped: one that was stopped by hand is only
      marked as such no longer; in the middle of a sequence one unit for the next command; at its end the orders of the actions that the exit selects
      and the limits leave. */
  lemma WhatNextTranslates(s: Sys, k: nat, res: int, sig: int, fates: seq<Fate>)
    requires Valid(s) && k < |s.progs| && s.progs[k].pid == 0
    ensures var r := WhatNext(s, k, res, sig, fates);
            var s1 := IncSeqIdx(s, k);
            if s.progs[k].stopMode == 1 then r == s.(progs := s.progs[k := s.progs[k].(stopMode := 0)])
            else if s.progs[k].seqIdx != |s.progs[k].conf.cmds| - 1 then
              Delivers(s1, r, k, [Order(RunProg, s.clock, Itself)]) && Works(s1, r, k, false)
            else match GetActions(s.progs[k].conf, res, sig)
              case None => r == s1
              case Some(found) =>
                Translates(s1.(events := s1.events + LimitsNoted(s1, k)), r, k, EffectiveActions(s1, k, found), fates)
  {
    var s1 := IncSeqIdx(s, k);
    if s.progs[k].stopMode == 1 {
    } else if s.progs[k].seqIdx == |s.progs[k].conf.cmds| - 1 {
      SequenceEndTranslates(s1, k, res, sig, fates);
    } else {
      UnitTranslates(s1, RunProg, s.clock, k, k, Itself);
    }
  }
}
