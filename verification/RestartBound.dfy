/** The restart limit bounds the starts: a program begun by one work unit and restarted only
    by its own exits never has two runs under way or ordered, and is started at most
    n * (L / n + 1) times, for n commands and a restart limit L. */
module RestartBound {
  import opened Options
  import opened System
  import opened Machine
  import opened Registry
  import opened Conservation
  import opened Arith

  predicate OrdersRun(u: WorkUnit, k: nat) {
    u.kind.RunProg? && u.target == Some(k)
  }

  /** The pending units that start program k. */
  ghost function PendingRuns(sched: seq<WorkUnit>, k: nat): nat {
    if sched == [] then 0
    else PendingRuns(sched[..|sched| - 1], k) + if OrdersRun(sched[|sched| - 1], k) then 1 else 0
  }

  lemma PendingAppend(sched: seq<WorkUnit>, u: WorkUnit, k: nat)
    ensures PendingRuns(sched + [u], k) == PendingRuns(sched, k) + if OrdersRun(u, k) then 1 else 0
  {
    assert (sched + [u])[..|sched|] == sched;
  }

  lemma {:induction false} PendingUpdate(sched: seq<WorkUnit>, i: nat, u: WorkUnit, k: nat)
    requires i < |sched|
    ensures PendingRuns(sched[i := u], k) + (if OrdersRun(sched[i], k) then 1 else 0)
         == PendingRuns(sched, k) + if OrdersRun(u, k) then 1 else 0
  {
    var n := |sched| - 1;
    if i == n {
      assert sched[i := u][..n] == sched[..n];
    } else {
      assert sched[i := u][..n] == sched[..n][i := u];
      PendingUpdate(sched[..n], i, u, k);
    }
  }

  lemma {:induction false} PendingCompact(sched: seq<WorkUnit>, k: nat)
    ensures PendingRuns(Compact(sched), k) == PendingRuns(sched, k)
  {
    if sched != [] {
      PendingCompact(sched[..|sched| - 1], k);
      PendingAppend(Compact(sched[..|sched| - 1]), sched[|sched| - 1], k);
    }
  }

  // -------------------------------------------------------------- who starts k

  /** The action, in a list of program j, is to start program k. */
  predicate Starter(progs: seq<Prog>, j: nat, a: Action, k: nat) {
    a.kind.Exec? && IsNamed(progs, j, a.prog, k)
  }

  lemma StarterIs(progs: seq<Prog>, j: nat, a: Action, k: nat)
    requires j < |progs|
    ensures Starter(progs, j, a, k) <==> a.kind.Exec? && Target(progs, j, a.prog) == k
  {
    TargetIsNamed(progs, j, a.prog, k);
  }

  ghost function Starters(progs: seq<Prog>, j: nat, actions: seq<Action>, n: nat, k: nat): nat
    requires n <= |actions|
  {
    if n == 0 then 0
    else Starters(progs, j, actions, n - 1, k) + if Starter(progs, j, actions[n - 1], k) then 1 else 0
  }

  /** Only program k's own action lists start program k, each at most once. */
  ghost predicate SelfContained(progs: seq<Prog>, k: nat)
  {
    forall j, res, sig :: 0 <= j < |progs| && GetActions(progs[j].conf, res, sig).Some? ==>
      var actions := GetActions(progs[j].conf, res, sig).value;
      Starters(progs, j, actions, |actions|, k) <= if j == k then 1 else 0
  }

  ghost predicate SameConf(p: seq<Prog>, q: seq<Prog>) {
    |p| == |q| && forall j :: 0 <= j < |p| ==> p[j].conf == q[j].conf
  }

  lemma FindStable(p: seq<Prog>, q: seq<Prog>, name: string, from: nat)
    requires SameConf(p, q) && from <= |p|
    ensures FindProgram(p, name, from) == FindProgram(q, name, from)
    decreases |p| - from
  {
    if from < |p| { FindStable(p, q, name, from + 1); }
  }

  lemma IsNamedStable(p: seq<Prog>, q: seq<Prog>, j: nat, name: string, k: nat)
    requires SameConf(p, q)
    ensures IsNamed(p, j, name, k) == IsNamed(q, j, name, k)
  {
    if x :| 0 <= x < |p| && p[x].conf.name == name {
      assert q[x].conf.name == name;
    } else {
      assert forall x :: 0 <= x < |q| ==> q[x].conf == p[x].conf;
    }
  }

  lemma StarterStable(p: seq<Prog>, q: seq<Prog>, j: nat, a: Action, k: nat)
    requires SameConf(p, q)
    ensures Starter(p, j, a, k) == Starter(q, j, a, k)
  {
    IsNamedStable(p, q, j, a.prog, k);
  }

  lemma {:induction false} StartersStable(p: seq<Prog>, q: seq<Prog>, j: nat, actions: seq<Action>, n: nat, k: nat)
    requires SameConf(p, q) && n <= |actions|
    ensures Starters(p, j, actions, n, k) == Starters(q, j, actions, n, k)
  {
    if n > 0 {
      StarterStable(p, q, j, actions[n - 1], k);
      StartersStable(p, q, j, actions, n - 1, k);
    }
  }

  lemma SelfContainedStable(p: seq<Prog>, q: seq<Prog>, k: nat)
    requires SameConf(p, q) && SelfContained(p, k)
    ensures SelfContained(q, k)
  {
    forall j, res, sig | 0 <= j < |q| && GetActions(q[j].conf, res, sig).Some?
      ensures var actions := GetActions(q[j].conf, res, sig).value;
              Starters(q, j, actions, |actions|, k) <= if j == k then 1 else 0
    {
      assert GetActions(p[j].conf, res, sig) == GetActions(q[j].conf, res, sig);
      var actions := GetActions(q[j].conf, res, sig).value;
      StartersStable(p, q, j, actions, |actions|, k);
    }
  }

  // ------------------------------------------------------------- the invariant

  function Bound(n: nat, limit: int): int
    requires n > 0
  {
    n * (limit / n + 1)
  }

  function Cap(p: Prog): int
    requires ValidProg(p)
  {
    Bound(|p.conf.cmds|, p.conf.limits.starts)
  }

  ghost function Live(s: Sys, k: nat): nat {
    Unreaped(s.children, k)
  }

  ghost function Ordered(s: Sys, k: nat): nat {
    PendingRuns(s.sched, k)
  }

  ghost predicate Tame(s: Sys, k: nat)
    requires Valid(s) && k < |s.progs|
  {
    var p := s.progs[k];
    && Live(s, k) + Ordered(s, k) <= 1
    && p.starts <= Cap(p)
    && (Ordered(s, k) == 1 ==> p.starts < Cap(p))
  }

  /** Nothing that the bound on k speaks of differs. */
  ghost predicate Quiet(s: Sys, r: Sys, k: nat)
    requires k < |s.progs|
  {
    && SameTable(s, r)
    && Live(r, k) == Live(s, k)
    && Ordered(r, k) == Ordered(s, k)
    && r.progs[k].starts == s.progs[k].starts
  }

  /** From s to r program k gained as many starts as children, and at most `up` runs. */
  ghost predicate Gains(s: Sys, r: Sys, k: nat, up: nat)
    requires k < |s.progs|
  {
    && k < |r.progs|
    && r.progs[k].starts - s.progs[k].starts == Live(r, k) - Live(s, k)
    && Live(s, k) <= Live(r, k) && Ordered(s, k) <= Ordered(r, k)
    && Live(r, k) + Ordered(r, k) <= Live(s, k) + Ordered(s, k) + up
  }

  lemma StartGains(s: Sys, j: nat, fate: Fate, k: nat)
    requires Valid(s) && j < |s.progs| && k < |s.progs|
    ensures Gains(s, StartProgram(s, j, fate), k, if j == k then 1 else 0)
    ensures Ordered(StartProgram(s, j, fate), k) == Ordered(s, k)
  {
    PendingAppend(s.sched, WorkUnit(s.nextId, Exit, s.clock, Some(j)), k);
    if s.progs[j].pid == 0 && fate.Forked? {
      Adopt(s.children, NewPid(s.children, fate.hint), j);
    }
  }

  lemma UnitGains(s: Sys, kind: WorkType, at: int, t: nat, k: nat)
    requires k < |s.progs|
    ensures Gains(s, AddUnit(s, kind, at, Some(t)), k, if kind.RunProg? && t == k then 1 else 0)
  {
    var u := WorkUnit(s.nextId, kind, at, Some(t));
    var r := AddUnit(s, kind, at, Some(t));
    PendingAppend(s.sched, u, k);
    assert Live(r, k) == Live(s, k);
    assert Ordered(r, k) == Ordered(s, k) + if OrdersRun(u, k) then 1 else 0;
  }

  lemma ActionGains(s: Sys, j: nat, a: Action, limited: bool, fate: Fate, k: nat)
    requires Valid(s) && j < |s.progs| && k < |s.progs|
    ensures Gains(s, ApplyAction(s, j, a, limited, fate), k,
                  if Starter(s.progs, j, a, k) && !(limited && j == k) then 1 else 0)
  {
    var t := Target(s.progs, j, a.prog);
    match a.kind
    case Exec => ExecGains(s, j, a, limited, fate, k);
    case Kill => UnitGains(s, EndProg, s.clock + a.after, t, k);
    case ExitAll => UnitGains(s, Exit, s.clock, t, k);
  }

  lemma ExecGains(s: Sys, j: nat, a: Action, limited: bool, fate: Fate, k: nat)
    requires Valid(s) && j < |s.progs| && k < |s.progs| && a.kind.Exec?
    ensures Gains(s, ApplyAction(s, j, a, limited, fate), k,
                  if Target(s.progs, j, a.prog) == k && !(limited && j == k) then 1 else 0)
  {
    var t := Target(s.progs, j, a.prog);
    if t == j && a.after == 0 {
      if !limited { DirectGains(s, j, a, fate, k); }
    } else {
      UnitGains(s, RunProg, s.clock + a.after, t, k);
    }
  }

  lemma DirectGains(s: Sys, j: nat, a: Action, fate: Fate, k: nat)
    requires Valid(s) && j < |s.progs| && k < |s.progs| && a.kind.Exec?
    requires Target(s.progs, j, a.prog) == j && a.after == 0
    ensures Gains(s, ApplyAction(s, j, a, false, fate), k, if j == k then 1 else 0)
  {
    StartGains(s, j, fate, k);
  }

  lemma {:induction false} ActionsGain(s: Sys, j: nat, actions: seq<Action>, n: nat, limited: bool, fates: seq<Fate>, k: nat)
    requires Valid(s) && j < |s.progs| && k < |s.progs| && n <= |actions|
    ensures Gains(s, ApplyActions(s, j, actions, n, limited, fates), k,
                  if limited && j == k then 0 else Starters(s.progs, j, actions, n, k))
  {
    if n > 0 {
      ActionsGain(s, j, actions, n - 1, limited, fates, k);
      GainsMore(s, ApplyActions(s, j, actions, n - 1, limited, fates), j, actions[n - 1], limited, FateAt(fates, n - 1), k,
                if limited && j == k then 0 else Starters(s.progs, j, actions, n - 1, k));
    }
  }

  lemma GainsMore(s: Sys, t: Sys, j: nat, a: Action, limited: bool, fate: Fate, k: nat, up: nat)
    requires Valid(t) && j < |t.progs| && k < |s.progs| && SameConf(s.progs, t.progs) && Gains(s, t, k, up)
    ensures Gains(s, ApplyAction(t, j, a, limited, fate), k,
                  up + if Starter(s.progs, j, a, k) && !(limited && j == k) then 1 else 0)
  {
    ActionGains(t, j, a, limited, fate, k);
    StarterStable(s.progs, t.progs, j, a, k);
    GainsJoin(s, t, ApplyAction(t, j, a, limited, fate), k, up,
              if Starter(t.progs, j, a, k) && !(limited && j == k) then 1 else 0);
  }

  lemma GainsJoin(s: Sys, t: Sys, r: Sys, k: nat, up: nat, more: nat)
    requires k < |s.progs| && k < |t.progs| && Gains(s, t, k, up) && Gains(t, r, k, more)
    ensures Gains(s, r, k, up + more)
  {
  }

  lemma OnlyLogs(s: Sys, j: nat)
    requires Valid(s) && j < |s.progs|
    ensures var r := LogLimits(s, j); r.progs == s.progs && r.children == s.children && r.sched == s.sched
  {
  }

  lemma SequenceEndGains(s: Sys, j: nat, res: int, sig: int, fates: seq<Fate>, k: nat)
    requires Valid(s) && j < |s.progs| && k < |s.progs| && SelfContained(s.progs, k)
    ensures Gains(s, SequenceEnd(s, j, res, sig, fates), k, if j == k && !Limited(s, k) then 1 else 0)
  {
    var al := GetActions(s.progs[j].conf, res, sig);
    if al.Some? {
      var s1 := LogLimits(s, j);
      OnlyLogs(s, j);
      ActionsGain(s1, j, al.value, |al.value|, Limited(s, j), fates, k);
    }
  }

  lemma BoundFacts(n: nat, limit: int, starts: int)
    requires n > 0 && limit >= 0
    ensures starts % n != 0 ==> starts != Bound(n, limit)
    ensures starts <= limit && starts % n == 0 ==> starts < Bound(n, limit)
    ensures Bound(n, limit) > 0
  {
    var q := limit / n;
    DivMod(Bound(n, limit), n, q + 1, 0);
    assert n * (q + 1) == n * q + n;
    assert limit == n * q + limit % n;
    MulBound(n, q + 1);
  }

  /** What happens to k when it has just been buried and asks what is next. */
  lemma TameSequenceEnd(s: Sys, k: nat, res: int, sig: int, fates: seq<Fate>)
    requires Valid(s) && k < |s.progs| && SelfContained(s.progs, k)
    requires s.progs[k].conf.limits.starts >= 0
    requires Live(s, k) == 0 && Ordered(s, k) == 0
    requires s.progs[k].starts <= Cap(s.progs[k]) && s.progs[k].starts % |s.progs[k].conf.cmds| == 0
    ensures Tame(SequenceEnd(s, k, res, sig, fates), k)
  {
    var p := s.progs[k];
    SequenceEndGains(s, k, res, sig, fates, k);
    BoundFacts(|p.conf.cmds|, p.conf.limits.starts, p.starts);
  }

  /** A sequence ends when the starts are a multiple of its length. */
  lemma EndsWhenEven(s: Sys, k: nat)
    requires k < |s.progs| && Balanced(s, k) && Live(s, k) == 0
    ensures s.progs[k].stopMode != 1
    ensures s.progs[k].seqIdx == |s.progs[k].conf.cmds| - 1 <==> s.progs[k].starts % |s.progs[k].conf.cmds| == 0
  {
    BalancedAdvance(s, k);
    assert Books(IncSeqIdx(s, k), k, NOBODY) && Books(s, k, k);
    Wraps(s.progs[k].seqIdx, |s.progs[k].conf.cmds|);
  }

  lemma TameWhatNext(s: Sys, k: nat, res: int, sig: int, fates: seq<Fate>)
    requires k < |s.progs| && Balanced(s, k) && SelfContained(s.progs, k)
    requires s.progs[k].conf.limits.starts >= 0
    requires Live(s, k) == 0 && Ordered(s, k) == 0
    requires s.progs[k].starts <= Cap(s.progs[k])
    ensures Tame(WhatNext(s, k, res, sig, fates), k)
  {
    EndsWhenEven(s, k);
    var s1 := IncSeqIdx(s, k);
    if s.progs[k].seqIdx == |s.progs[k].conf.cmds| - 1 {
      SelfContainedStable(s.progs, s1.progs, k);
      TameSequenceEnd(s1, k, res, sig, fates);
    } else {
      TameNextCommand(s1, k);
    }
  }

  /** In the middle of a sequence the next command is ordered. */
  lemma TameNextCommand(s: Sys, k: nat)
    requires Valid(s) && k < |s.progs| && Live(s, k) == 0 && Ordered(s, k) == 0
    requires s.progs[k].conf.limits.starts >= 0
    requires s.progs[k].starts <= Cap(s.progs[k]) && s.progs[k].starts % |s.progs[k].conf.cmds| != 0
    ensures Tame(AddUnit(s, RunProg, s.clock, Some(k)), k)
  {
    var p := s.progs[k];
    PendingAppend(s.sched, WorkUnit(s.nextId, RunProg, s.clock, Some(k)), k);
    BoundFacts(|p.conf.cmds|, p.conf.limits.starts, p.starts);
  }

  lemma QuietWhatNext(s: Sys, j: nat, res: int, sig: int, fates: seq<Fate>, k: nat)
    requires Valid(s) && j < |s.progs| && k < |s.progs| && j != k && SelfContained(s.progs, k)
    ensures Quiet(s, WhatNext(s, j, res, sig, fates), k)
  {
    var p := s.progs[j];
    var s1 := IncSeqIdx(s, j);
    if p.stopMode != 1 && p.seqIdx == |p.conf.cmds| - 1 {
      SelfContainedStable(s.progs, s1.progs, k);
      SequenceEndGains(s1, j, res, sig, fates, k);
    } else if p.stopMode != 1 {
      UnitGains(s1, RunProg, s.clock, j, k);
    }
  }

  lemma TameReap(s: Sys, c: int, tick: int, fates: seq<Fate>, k: nat)
    requires Inv(s, false) && Balanced(s, NOBODY) && k < |s.progs| && Tame(s, k)
    requires SelfContained(s.progs, k) && s.progs[k].conf.limits.starts >= 0
    requires c in s.children && s.children[c].status.Some?
    ensures Registered(s, c) && Tame(ReapChild(s, c, tick, fates), k)
  {
    var j := s.children[c].owner;
    var status := s.children[c].status.value;
    var sig := if Signaled(status) then TermSig(status) else 0;
    var s1 := LogDeath(BuryChild(s, c, j, tick), j, status, tick);
    Bury(s.children, c);
    BalancedDeath(s, c, tick);
    SelfContainedStable(s.progs, s1.progs, k);
    if j == k {
      TameWhatNext(s1, k, ExitStatus(status), sig, fates);
    } else {
      QuietWhatNext(s1, j, ExitStatus(status), sig, fates, k);
    }
  }

  lemma TameServeRun(s: Sys, i: nat, j: nat, fate: Fate, k: nat)
    requires Inv(s, false) && k < |s.progs| && Tame(s, k)
    requires i < |s.sched| && s.sched[i].kind.RunProg? && s.sched[i].target == Some(j) && j < |s.progs|
    ensures Tame(ServeRun(s, i, j, fate), k)
  {
    var s1 := StartProgram(s, j, fate);
    StartGains(s, j, fate, k);
    assert s1.sched[i] == s.sched[i];
    PendingUpdate(s1.sched, i, s1.sched[i].(kind := NotInit), k);
    if j == k {
      assert Ordered(s1, k) >= 1;
    }
  }

  lemma TameVisit(s: Sys, i: nat, tick: int, fate: Fate, k: nat)
    requires Inv(s, false) && k < |s.progs| && Tame(s, k) && i < |s.sched|
    ensures Tame(VisitUnit(s, i, tick, fate), k)
  {
    var u := s.sched[i];
    if u.kind.RunProg? {
      if u.at <= tick { TameServeRun(s, i, u.target.value, fate, k); }
    } else {
      QuietVisit(s, i, tick, fate, k);
    }
  }

  lemma QuietVisit(s: Sys, i: nat, tick: int, fate: Fate, k: nat)
    requires Valid(s) && k < |s.progs| && i < |s.sched| && !s.sched[i].kind.RunProg?
    ensures Quiet(s, VisitUnit(s, i, tick, fate), k)
  {
    if Due(s.sched[i], tick) { StopIsQuiet(s, i, s.sched[i].target.value, tick, k); }
    QuietIfSpent(s, VisitUnit(s, i, tick, fate), i, k);
  }

  lemma StopIsQuiet(s: Sys, i: nat, j: nat, tick: int, k: nat)
    requires Valid(s) && i < |s.sched| && j < |s.progs| && k < |s.progs|
    ensures var r := ServeEnd(s, i, j, tick);
            && r.children == s.children && r.progs[k].starts == s.progs[k].starts
            && r.sched == s.sched[i := s.sched[i].(kind := NotInit)]
  {
  }

  lemma QuietIfSpent(s: Sys, r: Sys, i: nat, k: nat)
    requires SameTable(s, r) && k < |s.progs| && i < |s.sched| && !s.sched[i].kind.RunProg?
    requires r.children == s.children && r.progs[k].starts == s.progs[k].starts
    requires r.sched == s.sched || r.sched == s.sched[i := s.sched[i].(kind := NotInit)]
    ensures Quiet(s, r, k)
  {
    PendingUpdate(s.sched, i, s.sched[i].(kind := NotInit), k);
  }

  lemma TameBury(s: Sys, c: int, tEnd: int, k: nat)
    requires Inv(s, false) && k < |s.progs| && Tame(s, k) && c in s.children
    ensures Registered(s, c) && Tame(BuryChild(s, c, s.running[c].value, tEnd), k)
  {
    Bury(s.children, c);
  }

  lemma TameRound(m: State, a: Answer, k: nat)
    requires WellFormed(m) && Inv(m.sys, false) && (InMainLoop(m.phase) ==> Balanced(m.sys, NOBODY))
    requires k < |m.sys.progs| && Tame(m.sys, k)
    requires SelfContained(m.sys.progs, k) && m.sys.progs[k].conf.limits.starts >= 0
    ensures Tame(Round(m, a).sys, k)
  {
    match m.phase
    case Units(i) =>
      if i < |m.sys.sched| {
        TameVisit(m.sys, i, Tick(m), FateAt(a.fates, 0), k);
      } else {
        PendingCompact(m.sys.sched, k);
      }
    case Reaping(i, pid) =>
      var c := WaitPidResult(m.sys.children, pid, a.hint);
      if c > 0 {
        TameReap(m.sys, c, Tick(m), a.fates, k);
      }
    case _ => TameElsewhere(m, a, k);
  }

  lemma TameElsewhere(m: State, a: Answer, k: nat)
    requires WellFormed(m) && Inv(m.sys, false) && k < |m.sys.progs| && Tame(m.sys, k)
    requires !m.phase.Units? && !m.phase.Reaping?
    ensures Tame(Round(m, a).sys, k)
  {
    match m.phase
    case Grace(_, _, _, _) => TameGrace(m, a, k);
    case Aftermath(_, _, _) => TameAftermath(m, a, k);
    case _ =>
  }

  lemma TameAftermath(m: State, a: Answer, k: nat)
    requires WellFormed(m) && Inv(m.sys, false) && k < |m.sys.progs| && Tame(m.sys, k) && m.phase.Aftermath?
    ensures Tame(Round(m, a).sys, k)
  {
    var c := WaitPidResult(m.sys.children, 0, a.hint);
    if c > 0 { TameBury(m.sys, c, m.begun, k); }
  }

  lemma TameGrace(m: State, a: Answer, k: nat)
    requires WellFormed(m) && Inv(m.sys, false) && k < |m.sys.progs| && Tame(m.sys, k) && m.phase.Grace?
    ensures Tame(Round(m, a).sys, k)
  {
    var i := m.phase.i;
    if i < |m.sys.progs| {
      var c := WaitPidResult(m.sys.children, m.sys.progs[i].pid, a.hint);
      if c > 0 { TameBury(m.sys, c, m.begun, k); }
    }
  }

  /** The socket thread does not start k. */
  predicate LeavesAlone(l: Label, progs: seq<Prog>, k: nat) {
    l.Request? && l.cmd.StartCmd? ==> FindProgram(progs, l.cmd.name) != Some(k)
  }

  lemma TameMove(m: State, l: Label, k: nat)
    requires WellFormed(m) && Inv(m.sys, false) && (InMainLoop(m.phase) ==> Balanced(m.sys, NOBODY))
    requires k < |m.sys.progs| && Tame(m.sys, k)
    requires SelfContained(m.sys.progs, k) && m.sys.progs[k].conf.limits.starts >= 0
    requires LeavesAlone(l, m.sys.progs, k)
    ensures Tame(Move(m, l).sys, k)
  {
    match l
    case Go(a) => TameRound(m, a, k);
    case Dies(pid, status) =>
      assert ChildrenOf(Die(m.sys, pid, status).children, k) == ChildrenOf(m.sys.children, k);
    case ClockIs(_) =>
    case Request(cmd) =>
      forall u { PendingAppend(m.sys.sched, u, k); }
  }

  /** One work unit begins k, and only its own exits start it again. */
  ghost predicate SelfRestarting(m: State, k: nat)
    requires WellFormed(m)
  {
    && k < |m.sys.progs|
    && PendingRuns(m.sys.sched, k) <= 1
    && SelfContained(m.sys.progs, k)
    && m.sys.progs[k].conf.limits.starts >= 0
  }

  lemma {:induction false} TameRun(m: State, labels: seq<Label>, k: nat)
    requires Initial(m) && SelfRestarting(m, k)
    requires forall l :: l in labels ==> LeavesAlone(l, m.sys.progs, k)
    ensures Tame(Run(m, labels).sys, k)
    decreases |labels|
  {
    if labels == [] {
      assert ChildrenOf(m.sys.children, k) == {};
      BoundFacts(|m.sys.progs[k].conf.cmds|, m.sys.progs[k].conf.limits.starts, 0);
    } else {
      var before := labels[..|labels| - 1];
      var s := Run(m, before);
      var l := labels[|labels| - 1];
      TameRun(m, before, k);
      InvRun(m, before, false);
      BalancedRun(m, before);
      SelfContainedStable(m.sys.progs, s.sys.progs, k);
      if l.Request? && l.cmd.StartCmd? {
        FindStable(m.sys.progs, s.sys.progs, l.cmd.name, 0);
      }
      assert LeavesAlone(l, m.sys.progs, k);
      TameMove(s, l, k);
    }
  }

  /** Restart theorem. */
  lemma StartsBounded(m: State, labels: seq<Label>, k: nat)
    requires Initial(m) && SelfRestarting(m, k)
    requires forall l :: l in labels ==> LeavesAlone(l, m.sys.progs, k)
    ensures var s := Run(m, labels).sys;
            var n := |m.sys.progs[k].conf.cmds|;
            && Unreaped(s.children, k) + PendingRuns(s.sched, k) <= 1
            && s.progs[k].starts <= Bound(n, m.sys.progs[k].conf.limits.starts)
  {
    TameRun(m, labels, k);
  }
}
