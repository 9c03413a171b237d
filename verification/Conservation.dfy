/** The books balance: in every main-loop state the START events of a program, its start
    counter, its logged deaths, its unreaped children and its place in the command sequence
    agree, and no program is marked as stopped by hand. */
module Conservation {
  import opened Options
  import opened System
  import opened Machine
  import opened Registry
  import opened Arith

  predicate IsStart(e: Event, k: nat) {
    e.prog == k && e.kind.EvtStart?
  }

  predicate IsDeath(e: Event, k: nat) {
    e.prog == k && (e.kind.EvtEnd? || e.kind.EvtCrash?)
  }

  ghost function Starts(events: seq<Event>, k: nat): nat {
    if events == [] then 0
    else Starts(events[..|events| - 1], k) + if IsStart(events[|events| - 1], k) then 1 else 0
  }

  ghost function Deaths(events: seq<Event>, k: nat): nat {
    if events == [] then 0
    else Deaths(events[..|events| - 1], k) + if IsDeath(events[|events| - 1], k) then 1 else 0
  }

  ghost function ChildrenOf(children: map<int, Child>, k: nat): set<int> {
    set c | c in children && children[c].owner == k
  }

  ghost function Unreaped(children: map<int, Child>, k: nat): nat {
    |ChildrenOf(children, k)|
  }

  /** Program k's books; those of program b are one sequence step behind. */
  ghost predicate Books(s: Sys, k: nat, b: int)
    requires Valid(s) && k < |s.progs|
  {
    var p := s.progs[k];
    var lag := if k == b then 1 else 0;
    && p.stopMode == 0
    && Starts(s.events, k) == p.starts
    && p.starts == Deaths(s.events, k) + Unreaped(s.children, k)
    && Deaths(s.events, k) >= lag
    && p.seqIdx == (Deaths(s.events, k) - lag) % |p.conf.cmds|
  }

  ghost predicate Balanced(s: Sys, b: int) {
    && Valid(s)
    && forall k :: 0 <= k < |s.progs| ==> Books(s, k, b)
  }

  const NOBODY := -1

  lemma Log(events: seq<Event>, e: Event)
    ensures forall k :: Starts(events + [e], k) == Starts(events, k) + if IsStart(e, k) then 1 else 0
    ensures forall k :: Deaths(events + [e], k) == Deaths(events, k) + if IsDeath(e, k) then 1 else 0
  {
    assert (events + [e])[..|events|] == events;
  }

  lemma Adopt(children: map<int, Child>, c: int, owner: nat)
    requires c !in children
    ensures forall k :: Unreaped(children[c := Child(owner, None)], k) == Unreaped(children, k) + if k == owner then 1 else 0
  {
    forall k: nat ensures Unreaped(children[c := Child(owner, None)], k) == Unreaped(children, k) + if k == owner then 1 else 0 {
      AdoptFor(children, c, owner, k);
    }
  }

  lemma AdoptFor(children: map<int, Child>, c: int, owner: nat, k: nat)
    requires c !in children
    ensures Unreaped(children[c := Child(owner, None)], k) == Unreaped(children, k) + if k == owner then 1 else 0
  {
    var mine := ChildrenOf(children, k);
    assert ChildrenOf(children[c := Child(owner, None)], k) == if k == owner then mine + {c} else mine;
  }

  lemma Bury(children: map<int, Child>, c: int)
    requires c in children
    ensures forall k :: Unreaped(children, k) == Unreaped(children - {c}, k) + if k == children[c].owner then 1 else 0
  {
    forall k ensures Unreaped(children, k) == Unreaped(children - {c}, k) + if k == children[c].owner then 1 else 0 {
      var fewer := ChildrenOf(children - {c}, k);
      assert ChildrenOf(children, k) == if k == children[c].owner then fewer + {c} else fewer;
    }
  }

  lemma BalancedStart(s: Sys, k: nat, fate: Fate)
    requires Balanced(s, NOBODY) && k < |s.progs|
    ensures Balanced(StartProgram(s, k, fate), NOBODY)
  {
    if s.progs[k].pid == 0 && fate.Forked? {
      Log(s.events, Event(s.clock, EvtStart, k, -1));
      Adopt(s.children, NewPid(s.children, fate.hint), k);
      var r := StartProgram(s, k, fate);
      forall j | 0 <= j < |r.progs| ensures Books(r, j, NOBODY) { assert Books(s, j, NOBODY); }
    } else {
      BalancedFrame(s, StartProgram(s, k, fate), NOBODY);
    }
  }

  /** Nothing the books speak of differs, except for events of other kinds. */
  ghost predicate BooksAlone(s: Sys, r: Sys) {
    && SameTable(s, r)
    && r.children == s.children
    && (forall k :: 0 <= k < |s.progs| ==>
          && r.progs[k].starts == s.progs[k].starts
          && r.progs[k].seqIdx == s.progs[k].seqIdx
          && (s.progs[k].stopMode == 0 ==> r.progs[k].stopMode == 0))
    && (forall k :: Starts(r.events, k) == Starts(s.events, k))
    && (forall k :: Deaths(r.events, k) == Deaths(s.events, k))
  }

  lemma BalancedFrame(s: Sys, r: Sys, b: int)
    requires Balanced(s, b) && Valid(r) && BooksAlone(s, r)
    ensures Balanced(r, b)
  {
    forall j | 0 <= j < |r.progs| ensures Books(r, j, b) { assert Books(s, j, b); }
  }

  lemma BalancedActions(s: Sys, k: nat, actions: seq<Action>, n: nat, limited: bool, fates: seq<Fate>)
    requires Balanced(s, NOBODY) && k < |s.progs| && n <= |actions|
    ensures Balanced(ApplyActions(s, k, actions, n, limited, fates), NOBODY)
  {
    if n > 0 {
      BalancedActions(s, k, actions, n - 1, limited, fates);
      BalancedAction(ApplyActions(s, k, actions, n - 1, limited, fates), k, actions[n - 1], limited, FateAt(fates, n - 1));
    }
  }

  lemma BalancedAction(s: Sys, k: nat, a: Action, limited: bool, fate: Fate)
    requires Balanced(s, NOBODY) && k < |s.progs|
    ensures Balanced(ApplyAction(s, k, a, limited, fate), NOBODY)
  {
    if a.kind.Exec? && Target(s.progs, k, a.prog) == k && a.after == 0 && !limited {
      BalancedStart(s, k, fate);
    } else {
      BalancedFrame(s, ApplyAction(s, k, a, limited, fate), NOBODY);
    }
  }

  lemma BalancedAdvance(s: Sys, k: nat)
    requires k < |s.progs| && Balanced(s, k)
    ensures Balanced(IncSeqIdx(s, k), NOBODY)
  {
    assert Books(s, k, k);
    NextMod(Deaths(s.events, k), |s.progs[k].conf.cmds|);
    var r := IncSeqIdx(s, k);
    forall j | 0 <= j < |r.progs| ensures Books(r, j, NOBODY) {
      assert Books(s, j, k);
    }
  }

  lemma BalancedLimits(s: Sys, k: nat)
    requires Balanced(s, NOBODY) && k < |s.progs|
    ensures Balanced(LogLimits(s, k), NOBODY)
  {
    var e := Event(s.clock, EvtLimit, k, 0);
    Log(s.events, e);
    Log(s.events + [e], e);
    BalancedFrame(s, LogLimits(s, k), NOBODY);
  }

  lemma BalancedWhatNext(s: Sys, k: nat, res: int, sig: int, fates: seq<Fate>)
    requires k < |s.progs| && Balanced(s, k)
    ensures Balanced(WhatNext(s, k, res, sig, fates), NOBODY)
  {
    BalancedAdvance(s, k);
    var s1 := IncSeqIdx(s, k);
    assert Books(s, k, k);
    if s.progs[k].seqIdx == |s.progs[k].conf.cmds| - 1 {
      var al := GetActions(s.progs[k].conf, res, sig);
      if al.Some? {
        BalancedLimits(s1, k);
        BalancedActions(LogLimits(s1, k), k, al.value, |al.value|, Limited(s1, k), fates);
      }
    } else {
      BalancedFrame(s1, WhatNext(s, k, res, sig, fates), NOBODY);
    }
  }

  lemma BalancedDeath(s: Sys, c: int, tick: int)
    requires Balanced(s, NOBODY) && Inv(s, false) && c in s.children && s.children[c].status.Some?
    ensures var k := s.children[c].owner;
            Balanced(LogDeath(BuryChild(s, c, k, tick), k, s.children[c].status.value, tick), k)
  {
    var k := s.children[c].owner;
    var status := s.children[c].status.value;
    Bury(s.children, c);
    Log(s.events, Event(tick, EvtEnd, k, status));
    Log(s.events, Event(tick, EvtCrash, k, status));
    var r := LogDeath(BuryChild(s, c, k, tick), k, status, tick);
    assert Books(s, k, NOBODY);
    forall j | 0 <= j < |r.progs| ensures Books(r, j, k) {
      assert Books(s, j, NOBODY);
    }
  }

  lemma BalancedReap(s: Sys, c: int, tick: int, fates: seq<Fate>)
    requires Balanced(s, NOBODY) && Inv(s, false) && c in s.children && s.children[c].status.Some?
    ensures Registered(s, c) && Balanced(ReapChild(s, c, tick, fates), NOBODY)
  {
    BalancedDeath(s, c, tick);
    var k := s.children[c].owner;
    var status := s.children[c].status.value;
    BalancedWhatNext(LogDeath(BuryChild(s, c, k, tick), k, status, tick), k, ExitStatus(status),
      if Signaled(status) then TermSig(status) else 0, fates);
  }

  lemma BalancedServeRun(s: Sys, i: nat, k: nat, fate: Fate)
    requires Balanced(s, NOBODY) && i < |s.sched| && k < |s.progs|
    ensures Balanced(ServeRun(s, i, k, fate), NOBODY)
  {
    BalancedStart(s, k, fate);
    BalancedFrame(StartProgram(s, k, fate), ServeRun(s, i, k, fate), NOBODY);
  }

  lemma BalancedServeEnd(s: Sys, i: nat, k: nat, tick: int)
    requires Balanced(s, NOBODY) && i < |s.sched| && k < |s.progs|
    ensures Balanced(ServeEnd(s, i, k, tick), NOBODY)
  {
    Log(s.events, Event(tick, EvtStop, k, -1));
    BalancedFrame(s, ServeEnd(s, i, k, tick), NOBODY);
  }

  lemma BalancedVisit(s: Sys, i: nat, tick: int, fate: Fate)
    requires Balanced(s, NOBODY) && i < |s.sched|
    ensures Balanced(VisitUnit(s, i, tick, fate), NOBODY)
  {
    var u := s.sched[i];
    match u.kind
    case RunProg => if u.at <= tick { BalancedServeRun(s, i, u.target.value, fate); }
    case EndProg => if u.at <= tick { BalancedServeEnd(s, i, u.target.value, tick); }
    case _ => BalancedFrame(s, VisitUnit(s, i, tick, fate), NOBODY);
  }

  lemma BalancedRuntime(s: Sys, k: nat, tick: int)
    requires Balanced(s, NOBODY) && k < |s.progs|
    ensures Balanced(CheckRuntime(s, k, tick), NOBODY)
  {
    Log(s.events, Event(tick, EvtLimit, k, 0));
    BalancedFrame(s, CheckRuntime(s, k, tick), NOBODY);
  }

  lemma BalancedDie(s: Sys, pid: int, status: int)
    requires Balanced(s, NOBODY)
    ensures Balanced(Die(s, pid, status), NOBODY)
  {
    var r := Die(s, pid, status);
    forall k: nat ensures ChildrenOf(r.children, k) == ChildrenOf(s.children, k) {
    }
    forall k | 0 <= k < |r.progs| ensures Books(r, k, NOBODY) { assert Books(s, k, NOBODY); }
  }

  lemma BalancedRound(m: State, a: Answer)
    requires WellFormed(m) && Inv(m.sys, false) && InMainLoop(m.phase) && Balanced(m.sys, NOBODY)
    ensures InMainLoop(Round(m, a).phase) ==> Balanced(Round(m, a).sys, NOBODY)
  {
    match m.phase
    case Units(i) =>
      if i < |m.sys.sched| {
        BalancedVisit(m.sys, i, Tick(m), FateAt(a.fates, 0));
      } else {
        BalancedFrame(m.sys, Round(m, a).sys, NOBODY);
      }
    case Runtimes(i) =>
      if i < |m.sys.progs| {
        BalancedRuntime(m.sys, i, Tick(m));
      }
    case Reaping(i, pid) =>
      var c := WaitPidResult(m.sys.children, pid, a.hint);
      if c > 0 {
        BalancedReap(m.sys, c, Tick(m), a.fates);
      }
    case Idle =>
  }

  lemma BalancedMove(m: State, l: Label)
    requires WellFormed(m) && Inv(m.sys, false) && InMainLoop(m.phase) && Balanced(m.sys, NOBODY)
    ensures InMainLoop(Move(m, l).phase) ==> Balanced(Move(m, l).sys, NOBODY)
  {
    match l
    case Go(a) => BalancedRound(m, a);
    case Dies(pid, status) => BalancedDie(m.sys, pid, status);
    case _ => BalancedFrame(m.sys, Move(m, l).sys, NOBODY);
  }

  lemma MainLoopNeverReentered(m: State, l: Label)
    requires WellFormed(m) && InMainLoop(Move(m, l).phase)
    ensures InMainLoop(m.phase)
  {
  }

  lemma {:induction false} BalancedRun(m: State, labels: seq<Label>)
    requires Initial(m)
    ensures InMainLoop(Run(m, labels).phase) ==> Balanced(Run(m, labels).sys, NOBODY)
    decreases |labels|
  {
    if labels == [] {
      forall k | 0 <= k < |m.sys.progs| ensures Books(m.sys, k, NOBODY) {
        assert ChildrenOf(m.sys.children, k) == {};
      }
    } else {
      var before := Run(m, labels[..|labels| - 1]);
      var l := labels[|labels| - 1];
      BalancedRun(m, labels[..|labels| - 1]);
      InvRun(m, labels[..|labels| - 1], false);
      if InMainLoop(Move(before, l).phase) {
        MainLoopNeverReentered(before, l);
        BalancedMove(before, l);
      }
    }
  }

  /** Conservation theorem. */
  lemma BooksBalance(m: State, labels: seq<Label>, k: nat)
    requires Initial(m) && k < |m.sys.progs| && InMainLoop(Run(m, labels).phase)
    ensures var s := Run(m, labels).sys;
            var p := s.progs[k];
            && p.stopMode == 0
            && Starts(s.events, k) == p.starts
            && p.starts == Deaths(s.events, k) + Unreaped(s.children, k)
            && p.seqIdx == (p.starts - Unreaped(s.children, k)) % |p.conf.cmds|
  {
    BalancedRun(m, labels);
    assert Books(Run(m, labels).sys, k, NOBODY);
  }
}
