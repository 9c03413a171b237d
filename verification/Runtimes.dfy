/** What the limits measure: the runtime of a program is the time since its last START event,
    and when its actions are looked up the time from that event to the tick that reaped it. */
module Runtimes {
  import opened Options
  import opened System
  import opened Machine
  import opened Conservation

  /** The time of program k's last START event. */
  ghost function LastStart(events: seq<Event>, k: nat): Option<int> {
    if events == [] then None
    else
      var e := events[|events| - 1];
      if IsStart(e, k) then Some(e.time) else LastStart(events[..|events| - 1], k)
  }

  /** A program that was ever started remembers when, and while it has a pid no end. */
  ghost predicate Timekept(s: Sys) {
    forall k :: 0 <= k < |s.progs| ==>
      var p := s.progs[k];
      && LastStart(s.events, k) == (if p.starts == 0 then None else Some(p.tStart))
      && (p.pid != 0 ==> p.starts > 0 && p.tEnd == 0)
  }

  /** From s to r nothing was started. */
  ghost predicate StartsNothing(s: Sys, r: Sys) {
    && |r.progs| == |s.progs|
    && forall k :: 0 <= k < |s.progs| ==>
         var p, q := s.progs[k], r.progs[k];
         && q.starts == p.starts && q.tStart == p.tStart
         && (q.pid != 0 ==> p.pid != 0 && q.tEnd == p.tEnd)
         && LastStart(r.events, k) == LastStart(s.events, k)
  }

  lemma TimekeptFrame(s: Sys, r: Sys)
    requires Timekept(s) && StartsNothing(s, r)
    ensures Timekept(r)
  {
  }

  lemma LastStartAppend(events: seq<Event>, e: Event, k: nat)
    ensures LastStart(events + [e], k) == if IsStart(e, k) then Some(e.time) else LastStart(events, k)
  {
    assert (events + [e])[..|events|] == events;
  }

  lemma Logged(s: Sys, r: Sys, e: Event)
    requires |r.progs| == |s.progs| && r.events == s.events + [e] && e.kind != EvtStart
    ensures forall k :: 0 <= k < |s.progs| ==> LastStart(r.events, k) == LastStart(s.events, k)
  {
    forall k | 0 <= k < |s.progs| ensures LastStart(r.events, k) == LastStart(s.events, k) {
      LastStartAppend(s.events, e, k);
    }
  }

  lemma TimekeptStart(s: Sys, k: nat, fate: Fate)
    requires Valid(s) && k < |s.progs| && Timekept(s)
    ensures Timekept(StartProgram(s, k, fate))
  {
    var r := StartProgram(s, k, fate);
    if r.events != s.events {
      forall j | 0 <= j < |s.progs|
        ensures LastStart(r.events, j) == if j == k then Some(s.clock) else LastStart(s.events, j)
      {
        LastStartAppend(s.events, Event(s.clock, EvtStart, k, -1), j);
      }
    } else {
      TimekeptFrame(s, r);
    }
  }

  lemma TimekeptAction(s: Sys, k: nat, a: Action, limited: bool, fate: Fate)
    requires Valid(s) && k < |s.progs| && Timekept(s)
    ensures Timekept(ApplyAction(s, k, a, limited, fate))
  {
    var r := ApplyAction(s, k, a, limited, fate);
    if a.kind.Exec? && Target(s.progs, k, a.prog) == k && a.after == 0 && !limited {
      TimekeptStart(s, k, fate);
    } else {
      TimekeptFrame(s, r);
    }
  }

  lemma {:induction false} TimekeptActions(s: Sys, k: nat, actions: seq<Action>, n: nat, limited: bool, fates: seq<Fate>)
    requires Valid(s) && k < |s.progs| && n <= |actions| && Timekept(s)
    ensures Timekept(ApplyActions(s, k, actions, n, limited, fates))
  {
    if n > 0 {
      TimekeptActions(s, k, actions, n - 1, limited, fates);
      TimekeptAction(ApplyActions(s, k, actions, n - 1, limited, fates), k, actions[n - 1], limited, FateAt(fates, n - 1));
    }
  }

  lemma TimekeptLimits(s: Sys, k: nat)
    requires Valid(s) && k < |s.progs| && Timekept(s)
    ensures Timekept(LogLimits(s, k))
  {
    var e := Event(s.clock, EvtLimit, k, 0);
    var s1 := if MinRuntimeMissed(s.progs[k], s.clock) then AddEvent(s, s.clock, EvtLimit, k, 0) else s;
    if MinRuntimeMissed(s.progs[k], s.clock) { Logged(s, s1, e); }
    if StartsUsedUp(s.progs[k]) { Logged(s1, AddEvent(s1, s.clock, EvtLimit, k, 0), e); }
    TimekeptFrame(s, LogLimits(s, k));
  }

  lemma TimekeptWhatNext(s: Sys, k: nat, res: int, sig: int, fates: seq<Fate>)
    requires Valid(s) && k < |s.progs| && Timekept(s)
    ensures Timekept(WhatNext(s, k, res, sig, fates))
  {
    var p := s.progs[k];
    var s1 := IncSeqIdx(s, k);
    TimekeptFrame(s, s1);
    if p.stopMode != 1 && p.seqIdx == |p.conf.cmds| - 1 {
      var al := GetActions(s1.progs[k].conf, res, sig);
      if al.Some? {
        TimekeptLimits(s1, k);
        TimekeptActions(LogLimits(s1, k), k, al.value, |al.value|, Limited(s1, k), fates);
      }
    } else {
      TimekeptFrame(s, WhatNext(s, k, res, sig, fates));
    }
  }

  /** The state in which what_next is called. */
  function Buried(s: Sys, c: int, tick: int): (r: Sys)
    requires Valid(s) && c in s.children && s.children[c].status.Some? && Registered(s, c)
    ensures Valid(r)
  {
    var k := s.running[c].value;
    LogDeath(BuryChild(s, c, k, tick), k, s.children[c].status.value, tick)
  }

  lemma TimekeptReap(s: Sys, c: int, tick: int, fates: seq<Fate>)
    requires Valid(s) && c in s.children && s.children[c].status.Some? && Registered(s, c) && Timekept(s)
    ensures Timekept(Buried(s, c, tick)) && Timekept(ReapChild(s, c, tick, fates))
  {
    var k := s.running[c].value;
    var status := s.children[c].status.value;
    var s1 := BuryChild(s, c, k, tick);
    var r := Buried(s, c, tick);
    if r.events != s1.events {
      Logged(s1, r, r.events[|s1.events|]);
    }
    TimekeptFrame(s, r);
    TimekeptWhatNext(r, k, ExitStatus(status), if Signaled(status) then TermSig(status) else 0, fates);
  }

  lemma TimekeptVisit(s: Sys, i: nat, tick: int, fate: Fate)
    requires Valid(s) && i < |s.sched| && Timekept(s)
    ensures Timekept(VisitUnit(s, i, tick, fate))
  {
    var u := s.sched[i];
    var r := VisitUnit(s, i, tick, fate);
    if u.kind.RunProg? && u.at <= tick {
      TimekeptStart(s, u.target.value, fate);
      TimekeptFrame(StartProgram(s, u.target.value, fate), r);
    } else {
      if u.kind.EndProg? && u.at <= tick { Logged(s, r, Event(tick, EvtStop, u.target.value, -1)); }
      TimekeptFrame(s, r);
    }
  }

  lemma TimekeptRuntime(s: Sys, k: nat, tick: int)
    requires Valid(s) && k < |s.progs| && Timekept(s)
    ensures Timekept(CheckRuntime(s, k, tick))
  {
    if OverRuntime(s.progs[k], s.clock) {
      Logged(s, CheckRuntime(s, k, tick), Event(tick, EvtLimit, k, 0));
    }
    TimekeptFrame(s, CheckRuntime(s, k, tick));
  }

  lemma TimekeptRound(m: State, a: Answer)
    requires WellFormed(m) && Timekept(m.sys)
    ensures Timekept(Round(m, a).sys)
  {
    match m.phase
    case Units(i) =>
      if i < |m.sys.sched| { TimekeptVisit(m.sys, i, Tick(m), FateAt(a.fates, 0)); }
    case Runtimes(i) =>
      if i < |m.sys.progs| { TimekeptRuntime(m.sys, i, Tick(m)); }
    case Reaping(i, pid) =>
      var c := WaitPidResult(m.sys.children, pid, a.hint);
      if c > 0 && Registered(m.sys, c) { TimekeptReap(m.sys, c, Tick(m), a.fates); }
    case _ => TimekeptElsewhere(m, a);
  }

  /** In the shutdown an end is recorded only where a pid is given up, and no event is added. */
  ghost predicate OnlyEnds(s: Sys, r: Sys) {
    && |r.progs| == |s.progs| && r.events == s.events
    && forall k :: 0 <= k < |s.progs| ==>
         var p, q := s.progs[k], r.progs[k];
         q.starts == p.starts && q.tStart == p.tStart && (q.pid != 0 ==> q.pid == p.pid && q.tEnd == p.tEnd)
  }

  lemma BuryOnlyEnds(s: Sys, c: int, k: nat, tEnd: int)
    requires Valid(s) && k < |s.progs|
    ensures OnlyEnds(s, BuryChild(s, c, k, tEnd))
  {
  }

  lemma GraceOnlyEnds(m: State, a: Answer)
    requires WellFormed(m) && m.phase.Grace?
    ensures OnlyEnds(m.sys, Round(m, a).sys)
  {
    var i := m.phase.i;
    if i < |m.sys.progs| {
      var c := WaitPidResult(m.sys.children, m.sys.progs[i].pid, a.hint);
      if c > 0 && Registered(m.sys, c) { BuryOnlyEnds(m.sys, c, m.sys.running[c].value, m.begun); }
    }
  }

  lemma AftermathOnlyEnds(m: State, a: Answer)
    requires WellFormed(m) && m.phase.Aftermath?
    ensures OnlyEnds(m.sys, Round(m, a).sys)
  {
    var c := WaitPidResult(m.sys.children, 0, a.hint);
    if c > 0 && Registered(m.sys, c) { BuryOnlyEnds(m.sys, c, m.sys.running[c].value, m.begun); }
  }

  lemma SignalsOnlyEnds(m: State, a: Answer)
    requires WellFormed(m) && (m.phase.Idle? || m.phase.Signalling? || m.phase.Killing? || m.phase.Ready? || m.phase.NullExit?)
    ensures OnlyEnds(m.sys, Round(m, a).sys)
  {
  }

  lemma TimekeptElsewhere(m: State, a: Answer)
    requires WellFormed(m) && Timekept(m.sys) && !m.phase.Units? && !m.phase.Runtimes? && !m.phase.Reaping?
    ensures Timekept(Round(m, a).sys)
  {
    match m.phase
    case Grace(_, _, _, _) => GraceOnlyEnds(m, a);
    case Aftermath(_, _, _) => AftermathOnlyEnds(m, a);
    case _ => SignalsOnlyEnds(m, a);
  }

  lemma TimekeptMove(m: State, l: Label)
    requires WellFormed(m) && Timekept(m.sys)
    ensures Timekept(Move(m, l).sys)
  {
    if l.Go? {
      TimekeptRound(m, l.answer);
    } else {
      TimekeptFrame(m.sys, Move(m, l).sys);
    }
  }

  lemma {:induction false} TimekeptRun(m: State, labels: seq<Label>)
    requires Initial(m)
    ensures Timekept(Run(m, labels).sys)
    decreases |labels|
  {
    if labels != [] {
      var before, l := labels[..|labels| - 1], labels[|labels| - 1];
      TimekeptRun(m, before);
      TimekeptMove(Run(m, before), l);
    }
  }

  /** Runtime theorem: in every reachable state a program that has a pid was started, and is
      over its maxruntime limit exactly if it has one and the clock is further from the last
      START event than that; a start at time 0 is never found to be too long ago. */
  lemma RuntimeIsSinceStart(m: State, labels: seq<Label>, k: nat)
    requires Initial(m) && k < |m.sys.progs| && Run(m, labels).sys.progs[k].pid != 0
    ensures var s := Run(m, labels).sys;
            var limit := m.sys.progs[k].conf.limits.maxRuntime;
            && LastStart(s.events, k).Some?
            && var started := LastStart(s.events, k).value;
               && Runtime(s.progs[k], s.clock) == (if started == 0 then 0 else s.clock - started)
               && (OverRuntime(s.progs[k], s.clock) <==>
                     limit != -1 && (if started == 0 then 0 else s.clock - started) > limit)
  {
    TimekeptRun(m, labels);
  }

  lemma BuriedRuntime(s: Sys, c: int, tick: int, clock: int)
    requires Valid(s) && Timekept(s)
    requires c in s.children && s.children[c].status.Some? && Registered(s, c) && tick != 0
    requires s.progs[s.running[c].value].pid == c != 0
    ensures var p := Buried(s, c, tick).progs[s.running[c].value];
            && LastStart(s.events, s.running[c].value) == Some(p.tStart)
            && Runtime(p, clock) == tick - p.tStart
            && p.conf == s.progs[s.running[c].value].conf
  {
  }

  /** When the child a program's pid names has been reaped the minruntime limit judges the
      time from its last START event to the tick that reaped it, whatever the clock says. */
  lemma MinRuntimeJudgesTheRun(m: State, labels: seq<Label>, c: int, tick: int, clock: int)
    requires Initial(m)
    requires var s := Run(m, labels).sys;
             c in s.children && s.children[c].status.Some? && Registered(s, c) && tick != 0
             && s.progs[s.running[c].value].pid == c != 0
    ensures var s := Run(m, labels).sys;
            var k := s.running[c].value;
            var limit := m.sys.progs[k].conf.limits.minRuntime;
            && LastStart(s.events, k).Some?
            && (MinRuntimeMissed(Buried(s, c, tick).progs[k], clock) <==>
                  limit != -1 && tick - LastStart(s.events, k).value < limit)
  {
    TimekeptRun(m, labels);
    BuriedRuntime(Run(m, labels).sys, c, tick, clock);
  }
}
