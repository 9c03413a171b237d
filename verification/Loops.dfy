/** The loops of the `scheduler` function, each as the tail recursion it is. */
module Loops {
  import opened Options
  import opened System
  import opened Machine
  import opened Passes

  const NO_ANSWER := Answer([], 0, true)

  function AnswerAt(answers: seq<Answer>, i: nat): Answer {
    if i < |answers| then answers[i] else NO_ANSWER
  }

  /** What other threads and processes do before a round, and the answers in the round. */
  datatype Happening = Happening(before: seq<Label>, answer: Answer)

  function HappeningAt(script: seq<Happening>, i: nat): Happening {
    if i < |script| then script[i] else Happening([], NO_ANSWER)
  }

  // ------------------------------------------------------------------ the tick

  /** The first pass from position i on. */
  function FirstPass(s: Sys, i: nat, tick: int, fates: seq<Fate>): (r: Sys)
    requires Valid(s)
    ensures Valid(r) && SameTable(s, r)
    decreases Work(s.sched, i)
  {
    if i < |s.sched| then
      VisitProgress(s, i, tick, FateAt(fates, i));
      FirstPass(VisitUnit(s, i, tick, FateAt(fates, i)), i + 1, tick, fates)
    else s
  }

  lemma {:induction false} FirstPassWalks(was: seq<WorkUnit>, s: Sys, i: nat, tick: int, fates: seq<Fate>)
    requires Valid(s) && i <= |s.sched| && Walked(was, s.sched, i, tick)
    ensures var r := FirstPass(s, i, tick, fates); Walked(was, r.sched, |r.sched|, tick)
    decreases Work(s.sched, i)
  {
    if i < |s.sched| {
      WalkedStep(was, s, i, tick, FateAt(fates, i));
      VisitProgress(s, i, tick, FateAt(fates, i));
      FirstPassWalks(was, VisitUnit(s, i, tick, FateAt(fates, i)), i + 1, tick, fates);
    }
  }

  /** The first pass leaves exactly the survivors once the used units are erased. */
  lemma FirstPassFilters(s: Sys, tick: int, fates: seq<Fate>)
    requires Valid(s)
    ensures Compact(FirstPass(s, 0, tick, fates).sched) == Survivors(s.sched, tick)
  {
    FirstPassWalks(s.sched, s, 0, tick, fates);
    WalkedFilters(s.sched, FirstPass(s, 0, tick, fates).sched, tick);
  }

  function RuntimePass(s: Sys, i: nat, tick: int): (r: Sys)
    requires Valid(s) && i <= |s.progs|
    ensures Valid(r) && SameTable(s, r)
    decreases |s.progs| - i
  {
    if i < |s.progs| then RuntimePass(CheckRuntime(s, i, tick), i + 1, tick) else s
  }

  ghost function DeadChildren(children: map<int, Child>): set<int> {
    set c | c in children && children[c].status.Some?
  }

  lemma DeadAfterStart(s: Sys, k: nat, fate: Fate)
    requires Valid(s) && k < |s.progs|
    ensures DeadChildren(StartProgram(s, k, fate).children) == DeadChildren(s.children)
  {
  }

  lemma DeadAfterAction(s: Sys, k: nat, a: Action, limited: bool, fate: Fate)
    requires Valid(s) && k < |s.progs|
    ensures DeadChildren(ApplyAction(s, k, a, limited, fate).children) == DeadChildren(s.children)
  {
    DeadAfterStart(s, k, fate);
  }

  lemma {:induction false} DeadAfterActions(s: Sys, k: nat, actions: seq<Action>, n: nat, limited: bool, fates: seq<Fate>)
    requires Valid(s) && k < |s.progs| && n <= |actions|
    ensures DeadChildren(ApplyActions(s, k, actions, n, limited, fates).children) == DeadChildren(s.children)
  {
    if n > 0 {
      DeadAfterActions(s, k, actions, n - 1, limited, fates);
      DeadAfterAction(ApplyActions(s, k, actions, n - 1, limited, fates), k, actions[n - 1], limited, FateAt(fates, n - 1));
    }
  }

  lemma DeadAfterWhatNext(s: Sys, k: nat, res: int, sig: int, fates: seq<Fate>)
    requires Valid(s) && k < |s.progs|
    ensures DeadChildren(WhatNext(s, k, res, sig, fates).children) == DeadChildren(s.children)
  {
    var p := s.progs[k];
    if p.stopMode != 1 && p.seqIdx == |p.conf.cmds| - 1 {
      var s1 := IncSeqIdx(s, k);
      var al := GetActions(s1.progs[k].conf, res, sig);
      if al.Some? {
        DeadAfterActions(LogLimits(s1, k), k, al.value, |al.value|, Limited(s1, k), fates);
      }
    }
  }

  /** Reaping ends: a child restarted on the spot is alive, so one dead child less is left. */
  lemma ReapProgress(s: Sys, c: int, tick: int, fates: seq<Fate>)
    requires Valid(s) && c in s.children && s.children[c].status.Some? && Registered(s, c)
    ensures |DeadChildren(ReapChild(s, c, tick, fates).children)| < |DeadChildren(s.children)|
  {
    var k := s.running[c].value;
    var status := s.children[c].status.value;
    var s1 := LogDeath(BuryChild(s, c, k, tick), k, status, tick);
    DeadAfterWhatNext(s1, k, ExitStatus(status), if Signaled(status) then TermSig(status) else 0, fates);
    assert DeadChildren(s1.children) == DeadChildren(s.children) - {c};
  }

  /** `calls` counts the waits made so far; `ok` is false at the "NULL Program?!" exit. */
  datatype Reaped = Reaped(sys: Sys, calls: nat, ok: bool)

  /** The inner reap loop, waiting for the pid that was read before it. */
  function ReapProgram(s: Sys, pid: int, tick: int, answers: seq<Answer>, calls: nat): (r: Reaped)
    requires Valid(s)
    ensures Valid(r.sys) && SameTable(s, r.sys)
    decreases |DeadChildren(s.children)|
  {
    var a := AnswerAt(answers, calls);
    var c := WaitPidResult(s.children, pid, a.hint);
    if c <= 0 then Reaped(s, calls + 1, true)
    else if !Registered(s, c) then Reaped(LoseChild(s, c), calls + 1, false)
    else
      ReapProgress(s, c, tick, a.fates);
      ReapProgram(ReapChild(s, c, tick, a.fates), pid, tick, answers, calls + 1)
  }

  function ReapPass(s: Sys, i: nat, tick: int, answers: seq<Answer>, calls: nat): (r: Reaped)
    requires Valid(s) && i <= |s.progs|
    ensures Valid(r.sys) && SameTable(s, r.sys)
    decreases |s.progs| - i
  {
    if i < |s.progs| then
      var r := ReapProgram(s, s.progs[i].pid, tick, answers, calls);
      if r.ok then ReapPass(r.sys, i + 1, tick, answers, r.calls) else r
    else Reaped(s, calls, true)
  }

  /** The pass, from position i on, gives the goal. */
  ghost predicate ReapLeads(s: Sys, i: nat, tick: int, answers: seq<Answer>, calls: nat, goal: Reaped) {
    Valid(s) && i <= |s.progs| && ReapPass(s, i, tick, answers, calls) == goal
  }

  function Erased(s: Sys): (r: Sys)
    requires Valid(s)
    ensures Valid(r) && SameTable(s, r)
  {
    CompactValid(s.sched, |s.progs|);
    s.(sched := Compact(s.sched))
  }

  /** One turn of the main loop. */
  function TickOnce(s: Sys, fates: seq<Fate>, answers: seq<Answer>): (r: Reaped)
    requires Valid(s)
    ensures Valid(r.sys) && SameTable(s, r.sys)
  {
    var s1 := Erased(FirstPass(s, 0, s.clock, fates));
    ReapPass(RuntimePass(s1, 0, s.clock), 0, s.clock, answers, 0)
  }

  /** What one turn of the main loop meets: the outcomes of the starts, the answers of the
      waits, and what happens during the delay at its end. */
  datatype Turn = Turn(fates: seq<Fate>, answers: seq<Answer>, pause: seq<Label>)

  // -------------------------------------------------------------- the shutdown

  function Happen(s: Sys, labels: seq<Label>): (r: Sys)
    requires Valid(s)
    ensures Valid(r) && SameTable(s, r)
    decreases |labels|
  {
    if labels == [] then s
    else Happen(HappenOne(s, labels[0]), labels[1..])
  }

  function HappenOne(s: Sys, l: Label): (r: Sys)
    requires Valid(s)
    ensures Valid(r) && SameTable(s, r)
  {
    match l
    case Go(_) => s
    case Dies(pid, status) => Die(s, pid, status)
    case ClockIs(time) => s.(clock := time)
    case Request(cmd) => Serve(s, cmd)
  }

  /** The main loop, for as many turns as are given or until the scheduler is off. */
  function MainLoop(s: Sys, turns: seq<Turn>, i: nat): (r: Reaped)
    requires Valid(s) && i <= |turns|
    ensures Valid(r.sys) && SameTable(s, r.sys)
    decreases |turns| - i
  {
    if s.on && i < |turns| then
      var r := TickOnce(s, turns[i].fates, turns[i].answers);
      if r.ok then MainLoop(Happen(r.sys, turns[i].pause), turns, i + 1) else r
    else Reaped(s, 0, true)
  }

  datatype Counts = Counts(sys: Sys, count: int)

  function SignalLoop(s: Sys, i: nat, count: int, answers: seq<Answer>): (r: Counts)
    requires Valid(s) && i <= |s.progs|
    ensures Valid(r.sys) && SameTable(s, r.sys)
    decreases |s.progs| - i
  {
    if i < |s.progs| then
      if s.progs[i].pid > 0 then
        SignalLoop(SendSignal(s, i, s.progs[i].conf.stopSig), i + 1,
          if AnswerAt(answers, i).killOk then count + 1 else count, answers)
      else SignalLoop(s, i + 1, count, answers)
    else Counts(s, count)
  }

  function KillLoop(s: Sys, i: nat, count: int): (r: Counts)
    requires Valid(s) && i <= |s.progs|
    ensures Valid(r.sys) && SameTable(s, r.sys)
    decreases |s.progs| - i
  {
    if i < |s.progs| then
      if s.progs[i].pid > 0 then KillLoop(SendSignal(s, i, SIG_KILL), i + 1, count + 1)
      else KillLoop(s, i + 1, count)
    else Counts(s, count)
  }

  datatype Waits = Waits(sys: Sys, pCount: int, kCount: int, calls: nat, ok: bool)

  /** One `waitpid` of a shutdown loop, after whatever happened before it. */
  function WaitOnce(s: Sys, pid: int, begun: int, p: int, k: int, h: Happening, calls: nat): (r: Waits)
    requires Valid(s)
    ensures Valid(r.sys) && SameTable(s, r.sys)
    decreases |h.before|
  {
    if h.before != [] then
      WaitOnce(HappenOne(s, h.before[0]), pid, begun, p, k, Happening(h.before[1..], h.answer), calls)
    else
      var c := WaitPidResult(s.children, pid, h.answer.hint);
      if c > 0 then
        if !Registered(s, c) then Waits(LoseChild(s, c), p, k, calls + 1, false)
        else Waits(BuryChild(s, c, s.running[c].value, begun), p - 1, k - 1, calls + 1, true)
      else Waits(s, p, if c < 0 then k - 1 else k, calls + 1, true)
  }

  lemma {:induction false} WaitSplit(s: Sys, pid: int, begun: int, p: int, k: int, h: Happening, calls: nat)
    requires Valid(s)
    ensures WaitOnce(s, pid, begun, p, k, h, calls) == WaitOnce(Happen(s, h.before), pid, begun, p, k, Happening([], h.answer), calls)
    decreases |h.before|
  {
    if h.before != [] {
      WaitSplit(HappenOne(s, h.before[0]), pid, begun, p, k, Happening(h.before[1..], h.answer), calls);
    }
  }

  /** The `for` loop inside the grace loop. */
  function GraceSweep(s: Sys, i: nat, begun: int, p: int, k: int, script: seq<Happening>, calls: nat): (r: Waits)
    requires Valid(s) && i <= |s.progs|
    ensures Valid(r.sys) && SameTable(s, r.sys)
    decreases |s.progs| - i
  {
    if i < |s.progs| then
      var r := WaitOnce(s, s.progs[i].pid, begun, p, k, HappeningAt(script, calls), calls);
      if r.ok then GraceSweep(r.sys, i + 1, begun, r.pCount, r.kCount, script, r.calls) else r
    else Waits(s, p, k, calls, true)
  }

  function GraceLoop(s: Sys, tries: nat, begun: int, p: int, k: int, script: seq<Happening>, calls: nat): (r: Waits)
    requires Valid(s)
    ensures Valid(r.sys) && SameTable(s, r.sys)
    decreases tries
  {
    if tries > 0 && k > 0 then
      var r := GraceSweep(s, 0, begun, p, k, script, calls);
      if r.ok then GraceLoop(r.sys, tries - 1, begun, r.pCount, r.kCount, script, r.calls) else r
    else Waits(s, p, k, calls, true)
  }

  function AftermathLoop(s: Sys, tries: nat, begun: int, p: int, k: int, script: seq<Happening>, calls: nat): (r: Waits)
    requires Valid(s)
    ensures Valid(r.sys) && SameTable(s, r.sys)
    decreases tries
  {
    if tries > 0 && k > 0 then
      var r := WaitOnce(s, 0, begun, p, k, HappeningAt(script, calls), calls);
      if r.ok then AftermathLoop(r.sys, tries - 1, begun, r.pCount, r.kCount, script, r.calls) else r
    else Waits(s, p, k, calls, true)
  }

  /** The signals and the grace loop. */
  function Graced(s: Sys, begun: int, answers: seq<Answer>, script: seq<Happening>): (r: Waits)
    requires Valid(s)
    ensures Valid(r.sys) && SameTable(s, r.sys)
  {
    var sent := SignalLoop(s, 0, 0, answers);
    GraceLoop(sent.sys, GRACE_TRIES, begun, sent.count, sent.count, script, 0)
  }

  /** `from` is how many signals had been sent when the grace loop was left. */
  datatype Ending = Ending(sys: Sys, killed: bool, from: nat, ok: bool)

  /** Everything after the main loop. */
  function ShutDown(s: Sys, begun: int, answers: seq<Answer>, script: seq<Happening>): (r: Ending)
    requires Valid(s)
    ensures Valid(r.sys) && SameTable(s, r.sys)
  {
    var waited := Graced(s, begun, answers, script);
    var from := |waited.sys.signals|;
    if !waited.ok then Ending(waited.sys, false, from, false)
    else if waited.pCount <= 0 then Ending(waited.sys, false, from, true)
    else
      var killed := KillLoop(waited.sys, 0, 0);
      var last := AftermathLoop(killed.sys, KILL_TRIES, begun, killed.count, killed.count, script, waited.calls);
      Ending(last.sys, true, from, last.ok)
  }
}
