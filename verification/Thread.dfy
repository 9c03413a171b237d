/** The `scheduler` thread function over the heap objects of module Supervisor: each loop
    is proved to compute the function of the same name in module Loops. */
module Thread {
  import opened Options
  import opened System
  import opened Machine
  import opened Supervisor
  import opened Registry
  import opened Conservation
  import opened Passes
  import opened Shutdown
  import opened LoopRuns
  import L = Loops

  /** The second pass has dealt with the first `seen` units and is at position i. */
  ghost predicate Erasing(was: seq<WorkUnit>, seen: int, i: int, now: seq<WorkUnit>) {
    && 0 <= seen <= |was| && i == |Compact(was[..seen])|
    && now == Compact(was[..seen]) + was[seen..]
  }

  /** The unit it looks at, and the schedule with that erased or kept. */
  lemma EraseUnit(was: seq<WorkUnit>, seen: int, i: int, now: seq<WorkUnit>)
    requires Erasing(was, seen, i, now) && i < |now|
    ensures seen < |was| && 0 <= i
    ensures now[i].kind == NotInit ==> Erasing(was, seen + 1, i, now[..i] + now[i + 1..])
    ensures now[i].kind != NotInit ==> Erasing(was, seen + 1, i + 1, now)
  {
    assert was[..seen + 1][..seen] == was[..seen];
    assert was[seen..] == [was[seen]] + was[seen + 1..];
  }

  lemma AllErased(was: seq<WorkUnit>, seen: int, i: int, now: seq<WorkUnit>)
    requires Erasing(was, seen, i, now) && i >= |now|
    ensures now == Compact(was)
  {
    assert was[..seen] == was;
  }

  class SchedulerThread {
    const s: Scheduler
    const begun: int

    constructor (s: Scheduler)
      ensures this.s == s && begun == s.kernel.clock
    {
      this.s := s;
      begun := s.kernel.clock;
    }

    // ------------------------------------------------------------ first pass

    /** One round of the first pass. */
    method VisitUnit(i: nat, now: int, fate: Fate)
      requires s.Valid() && i < |s.schedule|
      modifies s`schedule, s`nextId, s`running, s`events, s`on, s.programs, s.kernel
      ensures s.Valid() && s.State() == System.VisitUnit(old(s.State()), i, now, fate)
    {
      var wu := s.schedule[i];
      if wu.kind == Exit {
        s.schedule := s.schedule[i := wu.(kind := NotInit)];
        s.on := false;
      } else if wu.kind == RunProg {
        if wu.at - now <= 0 {
          StartDue(i, wu.target.value, fate);
        }
      } else if wu.kind == EndProg {
        if wu.at - now <= 0 {
          StopDue(i, wu.target.value, now);
        }
      } else if wu.kind == NoStart {
        s.schedule := s.schedule[i := wu.(kind := NotInit)];
      }
    }

    method StartDue(i: nat, k: nat, fate: Fate)
      requires s.Valid() && i < |s.schedule| && k < |s.programs|
      modifies s`schedule, s`nextId, s`running, s`events, s.programs, s.kernel
      ensures s.Valid() && s.State() == ServeRun(old(s.State()), i, k, fate)
    {
      ghost var before := s.State();
      var p := s.programs[k];
      p.Run(s, fate);
      ghost var started := s.State();
      assert p.Value() == started.progs[k];
      s.schedule := s.schedule[i := s.schedule[i].(kind := NotInit)];
      s.running := s.running[p.pid := Some(p.slot)];
      assert s.Progs() == started.progs;
      assert s.State() == ServeRun(before, i, k, fate);
    }

    method StopDue(i: nat, k: nat, now: int)
      requires s.Valid() && i < |s.schedule| && k < |s.programs|
      modifies s`schedule, s`events, s.programs, s.kernel
      ensures s.Valid() && s.State() == ServeEnd(old(s.State()), i, k, now)
    {
      ghost var before := s.State();
      var p := s.programs[k];
      assert p.Value() == before.progs[k];
      p.stopMode := 0;
      s.events := s.events + [Event(now, EvtStop, k, -1)];
      var result := p.SendSignal(p.stopSig, s.kernel, true);
      s.schedule := s.schedule[i := s.schedule[i].(kind := NotInit)];
      assert s.Progs() == before.progs[k := p.Value()];
      assert s.State() == ServeEnd(before, i, k, now);
    }

    /** One round takes the walk nearer to its end, whatever starting a program appends. */
    method FirstRound(i: nat, now: int, fates: seq<Fate>)
      requires s.Valid() && i < |s.schedule|
      modifies s`schedule, s`nextId, s`running, s`events, s`on, s.programs, s.kernel
      ensures s.Valid() && i < |s.schedule|
      ensures L.FirstPass(s.State(), i + 1, now, fates) == old(L.FirstPass(s.State(), i, now, fates))
      ensures Work(s.schedule, i + 1) < old(Work(s.schedule, i))
    {
      ghost var st := s.State();
      VisitProgress(st, i, now, FateAt(fates, i));
      VisitUnit(i, now, FateAt(fates, i));
    }

    /** The first pass. It leaves exactly the survivors once the used units are erased. */
    method FirstPass(now: int, fates: seq<Fate>)
      requires s.Valid()
      modifies s`schedule, s`nextId, s`running, s`events, s`on, s.programs, s.kernel
      ensures s.Valid() && s.State() == L.FirstPass(old(s.State()), 0, now, fates)
      ensures Compact(s.schedule) == Survivors(old(s.schedule), now)
    {
      L.FirstPassFilters(s.State(), now, fates);
      ghost var goal := L.FirstPass(s.State(), 0, now, fates);
      var i := 0;
      while i < |s.schedule|
        invariant s.Valid() && i <= |s.schedule|
        invariant L.FirstPass(s.State(), i, now, fates) == goal
        decreases Work(s.schedule, i)
      {
        FirstRound(i, now, fates);
        i := i + 1;
      }
    }

    /** The second pass: erase the used units in place. */
    method ErasePass()
      modifies s`schedule
      ensures s.schedule == Compact(old(s.schedule))
    {
      var i := 0;
      ghost var was, seen := s.schedule, 0;
      while i < |s.schedule|
        invariant Erasing(was, seen, i, s.schedule)
        decreases |was| - seen
      {
        EraseUnit(was, seen, i, s.schedule);
        if s.schedule[i].kind == NotInit {
          s.schedule := s.schedule[..i] + s.schedule[i + 1..];
        } else {
          i := i + 1;
        }
        seen := seen + 1;
      }
      AllErased(was, seen, i, s.schedule);
    }

    // ------------------------------------------------------- maxruntime pass

    method RuntimeRound(i: nat, now: int)
      requires s.Valid() && i < |s.programs|
      modifies s`events, s.programs, s.kernel`signals
      ensures s.Valid() && s.State() == CheckRuntime(old(s.State()), i, now)
    {
      ghost var before := s.State();
      var p := s.programs[i];
      assert p.Value() == before.progs[i];
      if p.pid != 0 && p.CheckRunlimit(s.kernel.clock) {
        var result := p.SendSignal(p.stopSig, s.kernel, true);
        p.pid := 0;
        s.events := s.events + [Event(now, EvtLimit, i, 0)];
        assert s.Progs() == before.progs[i := p.Value()];
      }
    }

    method RuntimePass(now: int)
      requires s.Valid()
      modifies s`events, s.programs, s.kernel`signals
      ensures s.Valid() && s.State() == L.RuntimePass(old(s.State()), 0, now)
    {
      ghost var st := s.State();
      ghost var goal := L.RuntimePass(st, 0, now);
      var i := 0;
      while i < |s.programs|
        invariant s.Valid() && i <= |s.programs| && s.State() == st
        invariant L.RuntimePass(st, i, now) == goal
      {
        RuntimeRound(i, now);
        st := s.State();
        i := i + 1;
      }
    }

    // ------------------------------------------------------------- reap pass

    /** The body of the reap loop, for a child that the kernel has just let go. */
    method Reap(cpid: int, status: int, now: int, fates: seq<Fate>, ghost before: Sys)
      requires s.Valid() && System.Valid(before)
      requires cpid in before.children && before.children[cpid].status == Some(status)
      requires Registered(before, cpid) && s.State() == before.(children := before.children - {cpid})
      modifies s`schedule, s`nextId, s`running, s`events, s.programs, s.kernel
      ensures s.Valid() && s.State() == ReapChild(before, cpid, now, fates)
    {
      var program := s.programs[s.running[cpid].value];
      Unbook(cpid, program, now);
      var sig := 0;
      if Signaled(status) {
        sig := TermSig(status);
        if program.stopMode == 0 {
          s.events := s.events + [Event(now, EvtCrash, program.slot, status)];
        }
      } else {
        s.events := s.events + [Event(now, EvtEnd, program.slot, status)];
      }
      var res := ExitStatus(status);
      assert s.State() == LogDeath(BuryChild(before, cpid, program.slot, now), program.slot, status, now);
      program.WhatNext(res, sig, s, fates);
    }

    /** The program has no child any more, as far as its fields and the registry go. */
    method Unbook(cpid: int, program: Program, tEnd: int)
      requires s.Valid() && program.In(s)
      modifies s`running, program
      ensures s.Valid() && s.State() == System.Unbook(old(s.State()), cpid, program.slot, tEnd)
    {
      ghost var before := s.State();
      assert program.Value() == before.progs[program.slot];
      program.pid := 0;
      program.tEnd := tEnd;
      s.running := s.running[cpid := None];
      assert s.Progs() == before.progs[program.slot := program.Value()];
    }

    /** One wait, and the lookup of the child in `running`, which leaves a NULL entry for a
        child that is not there. */
    method WaitChild(pid: int, hint: int) returns (cpid: int, status: int, known: bool)
      requires s.Valid()
      modifies s`running, s.kernel`children
      ensures s.Valid() && cpid == WaitPidResult(old(s.kernel.children), pid, hint)
      ensures cpid <= 0 ==> s.State() == old(s.State())
      ensures cpid > 0 ==> known == Registered(old(s.State()), cpid)
      ensures cpid > 0 && !known ==> s.State() == LoseChild(old(s.State()), cpid)
      ensures cpid > 0 && known ==>
                && Zombie(old(s.kernel.children), pid, cpid) && old(s.kernel.children)[cpid].status == Some(status)
                && s.State() == old(s.State()).(children := old(s.kernel.children) - {cpid})
    {
      ghost var st := s.State();
      cpid, status := s.kernel.WaitPid(pid, hint);
      known := cpid in s.running && s.running[cpid] != None;
      if cpid > 0 && !known {
        s.running := s.running[cpid := None];
      }
      assert s.Progs() == st.progs;
    }

    /** The inner reap loop. `ok` is false at the "NULL Program?!" exit. */
    method ReapProgram(pid: int, now: int, answers: seq<Answer>, firstCall: nat) returns (calls: nat, ok: bool)
      requires s.Valid()
      modifies s`schedule, s`nextId, s`running, s`events, s.programs, s.kernel
      ensures s.Valid() && L.Reaped(s.State(), calls, ok) == L.ReapProgram(old(s.State()), pid, now, answers, firstCall)
    {
      ghost var st := s.State();
      ghost var goal := L.ReapProgram(st, pid, now, answers, firstCall);
      calls, ok := firstCall, true;
      while true
        invariant s.Valid() && s.State() == st
        invariant L.ReapProgram(st, pid, now, answers, calls) == goal
        decreases |L.DeadChildren(st.children)|
      {
        var a := L.AnswerAt(answers, calls);
        var cpid, status, known := WaitChild(pid, a.hint);
        calls := calls + 1;
        if cpid <= 0 {
          return;
        }
        if !known {
          ok := false;
          return;
        }
        L.ReapProgress(st, cpid, now, a.fates);
        Reap(cpid, status, now, a.fates, st);
        st := s.State();
      }
    }

    /** The reap loop of program i, and what it leaves for the rest of the pass. */
    method ReapRound(i: nat, now: int, answers: seq<Answer>, firstCall: nat, ghost goal: L.Reaped) returns (calls: nat, ok: bool)
      requires s.Valid() && i < |s.programs| && L.ReapLeads(s.State(), i, now, answers, firstCall, goal)
      modifies s`schedule, s`nextId, s`running, s`events, s.programs, s.kernel
      ensures s.Valid()
      ensures if ok then L.ReapLeads(s.State(), i + 1, now, answers, calls, goal) else goal.sys == s.State() && !goal.ok
    {
      calls, ok := ReapProgram(s.programs[i].pid, now, answers, firstCall);
    }

    /** "Wait for deaths": every program in turn, each with the pid it has by then. */
    method ReapPass(now: int, answers: seq<Answer>) returns (ok: bool)
      requires s.Valid()
      modifies s`schedule, s`nextId, s`running, s`events, s.programs, s.kernel
      ensures s.Valid()
      ensures var r := L.ReapPass(old(s.State()), 0, now, answers, 0); s.State() == r.sys && ok == r.ok
    {
      ghost var goal := L.ReapPass(s.State(), 0, now, answers, 0);
      var i, calls := 0, 0;
      while i < |s.programs|
        invariant s.Valid()
        invariant L.ReapLeads(s.State(), i, now, answers, calls, goal)
      {
        calls, ok := ReapRound(i, now, answers, calls, goal);
        if !ok {
          return;
        }
        i := i + 1;
      }
      ok := true;
    }

    // ------------------------------------------------------------- main loop

    /** One turn of the main loop, without the delay at its end. */
    method Tick(fates: seq<Fate>, answers: seq<Answer>) returns (ok: bool)
      requires s.Valid()
      modifies s`schedule, s`nextId, s`running, s`events, s`on, s.programs, s.kernel
      ensures s.Valid()
      ensures var r := L.TickOnce(old(s.State()), fates, answers); s.State() == r.sys && ok == r.ok
    {
      var now := s.kernel.clock;
      FirstPass(now, fates);
      Erase();
      RuntimePass(now);
      ok := ReapPass(now, answers);
    }

    method Erase()
      requires s.Valid()
      modifies s`schedule
      ensures s.Valid() && s.State() == L.Erased(old(s.State()))
    {
      CompactValid(s.schedule, |s.programs|);
      ErasePass();
    }

    /** What other threads and processes do meanwhile. */
    method Meanwhile(happened: seq<Label>)
      requires s.Valid()
      modifies s`schedule, s`nextId, s.kernel
      ensures s.Valid() && s.State() == L.Happen(old(s.State()), happened)
    {
      ghost var st := s.State();
      ghost var goal := L.Happen(st, happened);
      var i := 0;
      while i < |happened|
        invariant s.Valid() && i <= |happened| && s.State() == st
        invariant L.Happen(st, happened[i..]) == goal
      {
        assert happened[i..][1..] == happened[i + 1..];
        MeanwhileOne(happened[i]);
        st := s.State();
        i := i + 1;
      }
    }

    method MeanwhileOne(happened: Label)
      requires s.Valid()
      modifies s`schedule, s`nextId, s.kernel
      ensures s.Valid() && s.State() == L.HappenOne(old(s.State()), happened)
    {
      match happened {
        case Go(_) =>
        case Dies(pid, status) => s.kernel.Die(pid, status);
        case ClockIs(time) => s.kernel.clock := time;
        case Request(cmd) => s.ServeCommand(cmd);
      }
    }

    /** The main loop, for as many turns as are given or until the scheduler is off. */
    method MainLoop(turns: seq<L.Turn>) returns (ok: bool)
      requires s.Valid()
      modifies s`schedule, s`nextId, s`running, s`events, s`on, s.programs, s.kernel
      ensures s.Valid()
      ensures var r := L.MainLoop(old(s.State()), turns, 0); s.State() == r.sys && ok == r.ok
    {
      ghost var st := s.State();
      ghost var goal := L.MainLoop(st, turns, 0);
      var i := 0;
      ok := true;
      while s.on && i < |turns|
        invariant s.Valid() && i <= |turns| && ok && s.State() == st
        invariant L.MainLoop(st, turns, i) == goal
      {
        ok := Tick(turns[i].fates, turns[i].answers);
        if !ok {
          return;
        }
        Meanwhile(turns[i].pause);
        st := s.State();
        i := i + 1;
      }
    }

    // -------------------------------------------------------------- shutdown

    /** Send every running program its stop signal; count the successes. */
    method SignalAll(answers: seq<Answer>) returns (count: int)
      requires s.Valid()
      modifies s.kernel`signals
      ensures s.Valid() && L.Counts(s.State(), count) == L.SignalLoop(old(s.State()), 0, 0, answers)
    {
      ghost var st := s.State();
      ghost var goal := L.SignalLoop(st, 0, 0, answers);
      var i := 0;
      count := 0;
      while i < |s.programs|
        invariant s.Valid() && i <= |s.programs| && s.State() == st
        invariant L.SignalLoop(st, i, count, answers) == goal
      {
        assert st.progs[i] == s.programs[i].Value();
        var result := SendTo(i, s.programs[i].stopSig, L.AnswerAt(answers, i).killOk);
        if result == 0 {
          count := count + 1;
        }
        st := s.State();
        i := i + 1;
      }
    }

    /** Program i is sent a signal, if it holds a pid. */
    method SendTo(i: nat, sig: int, ok: bool) returns (result: int)
      requires s.Valid() && i < |s.programs|
      modifies s.kernel`signals
      ensures s.Valid()
      ensures var up := old(s.State()).progs[i].pid > 0;
              && s.State() == (if up then SendSignal(old(s.State()), i, sig) else old(s.State()))
              && result == if up && ok then 0 else -1
    {
      var p := s.programs[i];
      assert p.Value() == s.State().progs[i];
      result := -1;
      if p.pid > 0 {
        result := p.SendSignal(sig, s.kernel, ok);
      }
      assert s.Progs() == old(s.Progs());
    }

    method KillAll() returns (count: int)
      requires s.Valid()
      modifies s.kernel`signals
      ensures s.Valid() && L.Counts(s.State(), count) == L.KillLoop(old(s.State()), 0, 0)
    {
      ghost var st := s.State();
      ghost var goal := L.KillLoop(st, 0, 0);
      var i := 0;
      count := 0;
      while i < |s.programs|
        invariant s.Valid() && i <= |s.programs| && s.State() == st
        invariant L.KillLoop(st, i, count) == goal
      {
        assert st.progs[i] == s.programs[i].Value();
        var result := SendTo(i, SIG_KILL, true);
        if s.programs[i].pid > 0 {
          count := count + 1;
        }
        st := s.State();
        i := i + 1;
      }
    }

    /** One `waitpid` of a wait loop, for a child, for none dead, or for none at all. */
    method WaitOnce(pid: int, pCount: int, kCount: int, h: L.Happening, ghost calls: nat) returns (p: int, k: int, ok: bool)
      requires s.Valid()
      modifies s`schedule, s`nextId, s`running, s.programs, s.kernel
      ensures s.Valid()
      ensures L.Waits(s.State(), p, k, calls + 1, ok) == L.WaitOnce(old(s.State()), pid, begun, pCount, kCount, h, calls)
    {
      p, k, ok := pCount, kCount, true;
      L.WaitSplit(s.State(), pid, begun, pCount, kCount, h, calls);
      Meanwhile(h.before);
      var cpid, status, known := WaitChild(pid, h.answer.hint);
      if cpid > 0 {
        if !known {
          ok := false;
          return;
        }
        Unbook(cpid, s.programs[s.running[cpid].value], begun);
        p, k := p - 1, k - 1;
      } else if cpid < 0 {
        k := k - 1;
      }
    }

    /** The `for` loop inside the grace loop. */
    method GraceSweep(pCount: int, kCount: int, script: seq<L.Happening>, firstCall: nat)
      returns (p: int, k: int, calls: nat, ok: bool)
      requires s.Valid()
      modifies s`schedule, s`nextId, s`running, s.programs, s.kernel
      ensures s.Valid()
      ensures L.Waits(s.State(), p, k, calls, ok) == L.GraceSweep(old(s.State()), 0, begun, pCount, kCount, script, firstCall)
    {
      ghost var st := s.State();
      ghost var goal := L.GraceSweep(st, 0, begun, pCount, kCount, script, firstCall);
      var i := 0;
      p, k, calls, ok := pCount, kCount, firstCall, true;
      while i < |s.programs|
        invariant s.Valid() && i <= |s.programs| && ok && s.State() == st
        invariant L.GraceSweep(st, i, begun, p, k, script, calls) == goal
      {
        var pid := s.programs[i].pid;
        assert pid == st.progs[i].pid;
        p, k, ok := WaitOnce(pid, p, k, L.HappeningAt(script, calls), calls);
        calls := calls + 1;
        st := s.State();
        if !ok {
          return;
        }
        i := i + 1;
      }
    }

    method GraceLoop(count: int, script: seq<L.Happening>) returns (p: int, calls: nat, ok: bool)
      requires s.Valid()
      modifies s`schedule, s`nextId, s`running, s.programs, s.kernel
      ensures s.Valid()
      ensures var r := L.GraceLoop(old(s.State()), GRACE_TRIES, begun, count, count, script, 0);
              s.State() == r.sys && p == r.pCount && calls == r.calls && ok == r.ok
    {
      ghost var st := s.State();
      ghost var goal := L.GraceLoop(st, GRACE_TRIES, begun, count, count, script, 0);
      var tries := GRACE_TRIES;
      var k := count;
      p, calls, ok := count, 0, true;
      while tries > 0 && k > 0
        invariant s.Valid() && tries >= 0 && ok && s.State() == st
        invariant L.GraceLoop(st, tries, begun, p, k, script, calls) == goal
      {
        tries := tries - 1;
        p, k, calls, ok := GraceSweep(p, k, script, calls);
        st := s.State();
        if !ok {
          return;
        }
      }
    }

    method AftermathRound(tries: nat, pCount: int, kCount: int, script: seq<L.Happening>, calls: nat)
      returns (p: int, k: int, ok: bool)
      requires s.Valid() && tries > 0 && kCount > 0
      modifies s`schedule, s`nextId, s`running, s.programs, s.kernel
      ensures s.Valid()
      ensures (if ok then L.AftermathLoop(s.State(), tries - 1, begun, p, k, script, calls + 1)
               else L.Waits(s.State(), p, k, calls + 1, false))
           == old(L.AftermathLoop(s.State(), tries, begun, pCount, kCount, script, calls))
    {
      p, k, ok := WaitOnce(0, pCount, kCount, L.HappeningAt(script, calls), calls);
    }

    method AftermathLoop(count: int, script: seq<L.Happening>, firstCall: nat) returns (ok: bool)
      requires s.Valid()
      modifies s`schedule, s`nextId, s`running, s.programs, s.kernel
      ensures s.Valid()
      ensures var r := L.AftermathLoop(old(s.State()), KILL_TRIES, begun, count, count, script, firstCall);
              s.State() == r.sys && ok == r.ok
    {
      ghost var goal := L.AftermathLoop(s.State(), KILL_TRIES, begun, count, count, script, firstCall);
      var tries := KILL_TRIES;
      var p, k, calls := count, count, firstCall;
      assert L.AftermathLoop(s.State(), tries, begun, p, k, script, calls) == goal;
      while tries > 0 && k > 0
        invariant s.Valid() && tries >= 0
        invariant L.AftermathLoop(s.State(), tries, begun, p, k, script, calls) == goal
      {
        p, k, ok := AftermathRound(tries, p, k, script, calls);
        if !ok {
          return;
        }
        tries, calls := tries - 1, calls + 1;
      }
      ok := true;
    }

    /** Everything after the main loop. */
    method ShutDown(answers: seq<Answer>, script: seq<L.Happening>) returns (killed: bool, ghost from: nat, ok: bool)
      requires s.Valid()
      modifies s`schedule, s`nextId, s`running, s.programs, s.kernel
      ensures s.Valid()
      ensures L.Ending(s.State(), killed, from, ok) == L.ShutDown(old(s.State()), begun, answers, script)
    {
      killed := false;
      var count := SignalAll(answers);
      var p, calls;
      p, calls, ok := GraceLoop(count, script);
      from := |s.State().signals|;
      if !ok {
        return;
      }
      if p > 0 {
        killed := true;
        count := KillAll();
        ok := AftermathLoop(count, script, calls);
      }
    }

    /** The thread: the main loop and, once the scheduler is off, the shutdown. Started where
        some run led, it never takes the "NULL Program?!" exit, and the main loop leaves the
        registry and the books in order; if it leaves no child forgotten and no kill fails the
        shutdown leaves no child, unless it used SIGKILL, which it then sent to every child
        that is left. */
    method Serve(turns: seq<L.Turn>, answers: seq<Answer>, script: seq<L.Happening>)
      returns (ended: bool, killed: bool, ghost from: nat, ok: bool)
      requires s.Valid() && Reachable(s.State(), begun)
      modifies s`schedule, s`nextId, s`running, s`events, s`on, s.programs, s.kernel
      ensures s.Valid() && ok
      ensures var r := L.MainLoop(old(s.State()), turns, 0).sys;
              && ended == !r.on
              && Reachable(r, begun) && ChildrenRegistered(r) && Balanced(r, NOBODY)
              && (if ended then L.Ending(s.State(), killed, from, ok) == L.ShutDown(r, begun, answers, script) else s.State() == r)
              && (ended && PidsCurrent(r) && AnswersOk(answers) ==> EndsClean(L.Ending(s.State(), killed, from, ok)))
    {
      MainLoopReachable(s.State(), begun, turns, 0);
      ok := MainLoop(turns);
      ended, killed, from := !s.on, false, 0;
      if ended {
        ShutDownReachable(s.State(), begun, answers, script);
        killed, from, ok := ShutDown(answers, script);
      }
    }
  }
}
