/** Program.cc and Scheduler.cc as classes over the heap. Every method is proved to do to
    the abstract `State()` what the function of the same name in module System says. */
module Supervisor {
  import opened Options
  import opened System
  import opened Machine

  /** The operating system calls the scheduler makes. */
  class Kernel {
    var clock: int
    var children: map<int, Child>
    var signals: seq<Signal>

    constructor (time: int)
      ensures clock == time && children == map[] && signals == []
    {
      clock, children, signals := time, map[], [];
    }

    /** A child dies; nothing happens if there is no such child running. */
    method Die(pid: int, status: int)
      modifies this`children
      ensures children ==
                if pid in old(children) && old(children)[pid].status.None?
                then old(children)[pid := old(children)[pid].(status := Some(status))] else old(children)
    {
      if pid in children && children[pid].status.None? {
        children := children[pid := children[pid].(status := Some(status))];
      }
    }

    method Fork(owner: nat, hint: int) returns (pid: int)
      modifies this`children
      ensures pid == NewPid(old(children), hint)
      ensures children == old(children)[pid := Child(owner, None)]
    {
      pid := NewPid(children, hint);
      children := children[pid := Child(owner, None)];
    }

    method Kill(pid: int, sig: int, ok: bool) returns (result: int)
      modifies this`signals
      ensures signals == old(signals) + [Signal(pid, sig)]
      ensures result == if ok then 0 else -1
    {
      signals := signals + [Signal(pid, sig)];
      result := if ok then 0 else -1;
    }

    method WaitPid(pid: int, hint: int) returns (cpid: int, status: int)
      modifies this`children
      ensures cpid == WaitPidResult(old(children), pid, hint)
      ensures cpid > 0 ==>
                && Zombie(old(children), pid, cpid)
                && old(children)[cpid].status == Some(status)
                && children == old(children) - {cpid}
      ensures cpid <= 0 ==> children == old(children)
    {
      cpid, status := WaitPidResult(children, pid, hint), 0;
      if cpid > 0 {
        status := children[cpid].status.value;
        children := children - {cpid};
      }
    }
  }

  class Program {
    const slot: nat
    var name: string
    var cmds: seq<string>
    var stopSig: int
    var limits: Limits
    var exitActions: map<int, seq<Action>>
    var signalActions: map<int, seq<Action>>
    var pid: int
    var starts: nat
    var seqIdx: nat
    var stopMode: int
    var tStart: int
    var tEnd: int

    ghost function Value(): Prog
      reads this
    {
      Prog(Settings(name, cmds, stopSig, limits, exitActions, signalActions),
           pid, starts, seqIdx, stopMode, tStart, tEnd)
    }

    constructor (name: string, slot: nat)
      ensures this.slot == slot
      ensures Value() == Prog(Settings(name, [], 15, Limits(-1, -1, -1), map[], map[]), 0, 0, 0, 0, 0, 0)
    {
      this.name, this.slot := name, slot;
      cmds, stopSig, limits := [], 15, Limits(-1, -1, -1);
      exitActions, signalActions := map[], map[];
      pid, starts, seqIdx, stopMode, tStart, tEnd := 0, 0, 0, 0, 0, 0;
    }

    method AddSeqCmd(cmd: string)
      modifies this`cmds
      ensures cmds == old(cmds) + [cmd]
    {
      cmds := cmds + [cmd];
    }

    method AddResAction(res: int, actions: seq<Action>)
      modifies this`exitActions
      ensures exitActions == old(exitActions)[res := actions]
    {
      exitActions := exitActions[res := actions];
    }

    method AddSigAction(sig: int, actions: seq<Action>)
      modifies this`signalActions
      ensures signalActions == old(signalActions)[sig := actions]
    {
      signalActions := signalActions[sig := actions];
    }

    function GetRuntime(clock: int): (t: int)
      reads this
      ensures t == Runtime(Value(), clock)
    {
      if tEnd == 0 then
        if tStart == 0 then 0 else clock - tStart
      else tEnd - tStart
    }

    predicate CheckRunlimit(clock: int)
      reads this
      ensures CheckRunlimit(clock) <==> OverRuntime(Value(), clock)
    {
      pid != 0 && limits.maxRuntime != -1 && GetRuntime(clock) > limits.maxRuntime
    }

    /** The program is the one at its slot in the scheduler's table. */
    ghost predicate In(s: Scheduler)
      reads this, s
    {
      slot < |s.programs| && s.programs[slot] == this
    }

    method Run(s: Scheduler, fate: Fate)
      requires s.Valid() && In(s)
      modifies this, s`schedule, s`nextId, s`running, s`events, s.kernel
      ensures s.Valid() && s.State() == StartProgram(old(s.State()), slot, fate)
    {
      assert Value() == s.State().progs[slot];
      if pid != 0 {
        return;
      }
      match fate {
        case NoHome =>
          pid := 0;
          s.AddWorkunit(Exit, s.kernel.clock, Some(slot));
        case NoBinary =>
          pid := 0;
          s.AddWorkunit(Exit, s.kernel.clock, Some(slot));
        case NoLogfile =>
          pid := 0;
        case Forked(hint) =>
          Spawn(s, hint, StartProgram(s.State(), slot, fate));
      }
    }

    /** The part of `run` from the fork on. */
    method Spawn(s: Scheduler, hint: int, ghost goal: Sys)
      requires s.Valid() && In(s) && pid == 0 && System.Valid(goal)
      requires var newPid := NewPid(s.kernel.children, hint);
               var started := Value().(pid := newPid, tStart := s.kernel.clock, tEnd := 0, starts := starts + 1);
               goal == s.State().(progs := s.Progs()[slot := started],
                                  running := s.running[newPid := Some(slot)],
                                  children := s.kernel.children[newPid := Child(slot, None)],
                                  events := s.events + [Event(s.kernel.clock, EvtStart, slot, -1)])
      modifies this, s`running, s`events, s.kernel
      ensures s.State() == goal
    {
      ghost var before := s.Progs();
      pid := s.kernel.Fork(slot, hint);
      tStart := s.kernel.clock;
      tEnd := 0;
      starts := starts + 1;
      assert s.Progs() == before[slot := Value()] == goal.progs;
      Enter(s);
    }

    /** The new child in the registry and the event log. */
    method Enter(s: Scheduler)
      modifies s`running, s`events
      ensures s.State() == old(s.State()).(
                running := old(s.running)[pid := Some(slot)],
                events := old(s.events) + [Event(tStart, EvtStart, slot, -1)])
    {
      s.running := s.running[pid := Some(slot)];
      s.events := s.events + [Event(tStart, EvtStart, slot, -1)];
      assert s.Progs() == old(s.Progs());
    }

    method SendSignal(sig: int, kernel: Kernel, ok: bool) returns (result: int)
      modifies kernel`signals
      ensures kernel.signals == if pid == 0 then old(kernel.signals) else old(kernel.signals) + [Signal(pid, sig)]
      ensures result == if pid != 0 && ok then 0 else -1
    {
      if pid == 0 {
        return -1;
      }
      result := kernel.Kill(pid, sig, ok);
    }

    method IncSeqIdx(ghost s: Scheduler)
      requires s.Valid() && In(s)
      modifies this`seqIdx
      ensures s.Valid() && s.State() == System.IncSeqIdx(old(s.State()), slot)
    {
      ghost var before := s.State();
      assert Value() == before.progs[slot];
      seqIdx := (seqIdx + 1) % |cmds|;
      assert s.Progs() == before.progs[slot := Value()];
    }

    method WhatNext(res: int, sig: int, s: Scheduler, fates: seq<Fate>)
      requires s.Valid() && In(s)
      modifies this, s`schedule, s`nextId, s`running, s`events, s.kernel
      ensures s.Valid() && s.State() == System.WhatNext(old(s.State()), slot, res, sig, fates)
    {
      ghost var before := s.State();
      assert Value() == before.progs[slot];
      if stopMode == 1 {
        stopMode := 0;
        assert s.Progs() == before.progs[slot := Value()];
        return;
      }
      if seqIdx == |cmds| - 1 {
        IncSeqIdx(s);
      } else {
        IncSeqIdx(s);
        s.AddWorkunit(RunProg, s.kernel.clock, Some(slot));
        return;
      }
      FollowActions(res, sig, s, fates);
    }

    /** The part of `what_next` after a finished sequence. */
    method FollowActions(res: int, sig: int, s: Scheduler, fates: seq<Fate>)
      requires s.Valid() && In(s)
      modifies this, s`schedule, s`nextId, s`running, s`events, s.kernel
      ensures s.Valid() && s.State() == SequenceEnd(old(s.State()), slot, res, sig, fates)
    {
      assert Value() == s.State().progs[slot];
      var found := GetActions(Settings(name, cmds, stopSig, limits, exitActions, signalActions), res, sig);
      if found.None? {
        return;
      }
      var limited := CheckLimits(s);
      FollowList(s, found.value, limited, fates);
    }

    /** The loop over the actions. */
    method FollowList(s: Scheduler, actions: seq<Action>, limited: bool, fates: seq<Fate>)
      requires s.Valid() && In(s)
      modifies this, s`schedule, s`nextId, s`running, s`events, s.kernel
      ensures s.Valid() && s.State() == ApplyActions(old(s.State()), slot, actions, |actions|, limited, fates)
    {
      RestIsAll(s.State(), s.State(), slot, actions, 0, limited, fates);
      ghost var goal := RestActions(s.State(), slot, actions, 0, limited, fates);
      var i := 0;
      while i < |actions|
        invariant s.Valid() && i <= |actions|
        invariant RestActions(s.State(), slot, actions, i, limited, fates) == goal
      {
        FollowNext(s, actions, i, limited, fates);
        i := i + 1;
      }
    }

    method FollowNext(s: Scheduler, actions: seq<Action>, i: nat, limited: bool, fates: seq<Fate>)
      requires s.Valid() && In(s) && i < |actions|
      modifies this, s`schedule, s`nextId, s`running, s`events, s.kernel
      ensures s.Valid()
      ensures RestActions(s.State(), slot, actions, i + 1, limited, fates)
           == old(RestActions(s.State(), slot, actions, i, limited, fates))
    {
      ApplyAction(s, actions[i], limited, FateAt(fates, i));
    }

    /** The limits that keep a program from being restarted, logged as they are met. */
    method CheckLimits(s: Scheduler) returns (limited: bool)
      requires s.Valid() && In(s)
      modifies s`events
      ensures s.Valid() && s.State() == LogLimits(old(s.State()), slot)
      ensures limited == Limited(old(s.State()), slot)
    {
      assert Value() == s.State().progs[slot];
      limited := false;
      if limits.minRuntime != -1 && GetRuntime(s.kernel.clock) < limits.minRuntime {
        s.events := s.events + [Event(s.kernel.clock, EvtLimit, slot, 0)];
        limited := true;
      }
      if limits.starts != -1 && starts > limits.starts {
        s.events := s.events + [Event(s.kernel.clock, EvtLimit, slot, 0)];
        limited := true;
      }
    }

    /** The program an action is about: this one when none has the name. */
    method TargetOf(s: Scheduler, name: string) returns (p: Program)
      requires s.Valid() && In(s)
      ensures p.In(s) && p.slot == Target(s.Progs(), slot, name) && (p == this <==> p.slot == slot)
    {
      var found := s.GetProgramByName(name);
      p := if found == null then this else found;
    }

    /** A `<start>` action. */
    method ApplyExec(s: Scheduler, a: Action, p: Program, limited: bool, fate: Fate)
      requires s.Valid() && In(s) && a.kind == Exec
      requires p.In(s) && p.slot == Target(s.Progs(), slot, a.prog) && (p == this <==> p.slot == slot)
      modifies this, s`schedule, s`nextId, s`running, s`events, s.kernel
      ensures s.Valid() && s.State() == System.ApplyAction(old(s.State()), slot, a, limited, fate)
    {
      if limited && p == this {
        return;
      }
      if p == this && a.after == 0 {
        Run(s, fate);
      } else {
        s.AddWorkunit(RunProg, s.kernel.clock + a.after, Some(p.slot));
      }
    }

    /** The body of the loop over the actions. */
    method ApplyAction(s: Scheduler, a: Action, limited: bool, fate: Fate)
      requires s.Valid() && In(s)
      modifies this, s`schedule, s`nextId, s`running, s`events, s.kernel
      ensures s.Valid() && s.State() == System.ApplyAction(old(s.State()), slot, a, limited, fate)
    {
      var p := TargetOf(s, a.prog);
      if a.kind == Exec {
        ApplyExec(s, a, p, limited, fate);
      }
      if a.kind == Kill {
        if p != this {
          s.AddWorkunit(EndProg, s.kernel.clock + a.after, Some(p.slot));
        }
      }
      if a.kind == ExitAll {
        s.AddWorkunit(Exit, s.kernel.clock, Some(p.slot));
      }
    }
  }

  /** The actions from position i on. */
  ghost function RestActions(s: Sys, k: nat, actions: seq<Action>, i: nat, limited: bool, fates: seq<Fate>): (r: Sys)
    requires System.Valid(s) && k < |s.progs| && i <= |actions|
    ensures System.Valid(r)
    decreases |actions| - i
  {
    if i == |actions| then s
    else RestActions(System.ApplyAction(s, k, actions[i], limited, FateAt(fates, i)), k, actions, i + 1, limited, fates)
  }

  lemma {:induction false} RestIsAll(was: Sys, s: Sys, k: nat, actions: seq<Action>, i: nat, limited: bool, fates: seq<Fate>)
    requires System.Valid(was) && k < |was.progs| && i <= |actions|
    requires s == ApplyActions(was, k, actions, i, limited, fates)
    ensures RestActions(s, k, actions, i, limited, fates) == ApplyActions(was, k, actions, |actions|, limited, fates)
    decreases |actions| - i
  {
    if i < |actions| {
      var next := ApplyActions(was, k, actions, i + 1, limited, fates);
      RestIsAll(was, next, k, actions, i + 1, limited, fates);
    }
  }

  class Scheduler {
    const kernel: Kernel
    var programs: seq<Program>
    var schedule: seq<WorkUnit>
    var nextId: nat
    var running: map<int, Option<nat>>
    var events: seq<Event>
    var on: bool

    ghost function Progs(): (p: seq<Prog>)
      reads this`programs, programs
      ensures |p| == |programs|
      ensures forall i :: 0 <= i < |programs| ==> p[i] == programs[i].Value()
    {
      var table := programs;
      seq(|table|, i requires 0 <= i < |table| reads table => table[i].Value())
    }

    ghost function State(): Sys
      reads this, programs, kernel
    {
      Sys(kernel.clock, Progs(), schedule, nextId, running, events, on, kernel.children, kernel.signals)
    }

    ghost predicate Valid()
      reads this, programs, kernel
    {
      && (forall i :: 0 <= i < |programs| ==> programs[i].slot == i)
      && System.Valid(State())
    }

    constructor (kernel: Kernel)
      ensures this.kernel == kernel && programs == [] && schedule == [] && nextId == 0
      ensures running == map[] && events == [] && on
    {
      this.kernel := kernel;
      programs, schedule, nextId := [], [], 0;
      running, events, on := map[], [], true;
    }

    method AddProgram(p: Program)
      requires Valid() && p.slot == |programs| && ValidProg(p.Value())
      modifies this`programs
      ensures Valid() && programs == old(programs) + [p]
      ensures State() == old(State()).(progs := old(Progs()) + [p.Value()])
    {
      ghost var before := Progs();
      programs := programs + [p];
      assert Progs() == before + [p.Value()];
    }

    method AddWorkunit(kind: WorkType, at: int, target: Option<nat>)
      requires Valid() && ValidUnit(WorkUnit(nextId, kind, at, target), |programs|)
      modifies this`schedule, this`nextId
      ensures Valid() && State() == AddUnit(old(State()), kind, at, target)
    {
      schedule := schedule + [WorkUnit(nextId, kind, at, target)];
      nextId := nextId + 1;
    }

    method GetProgramByName(name: string) returns (found: Program?)
      requires Valid()
      ensures found == null <==> FindProgram(Progs(), name).None?
      ensures found != null ==>
                && found.slot < |programs| && programs[found.slot] == found
                && FindProgram(Progs(), name) == Some(found.slot)
    {
      var i := 0;
      while i < |programs|
        invariant i <= |programs|
        invariant FindProgram(Progs(), name) == FindProgram(Progs(), name, i)
      {
        var p := programs[i];
        if p.name == name {
          return p;
        }
        i := i + 1;
      }
      return null;
    }

    /** What the socket thread does for `<start>`, `<stop>` and `<quit>`. */
    method ServeCommand(cmd: Command)
      requires Valid()
      modifies this`schedule, this`nextId
      ensures Valid() && State() == Serve(old(State()), cmd)
    {
      match cmd {
        case StartCmd(name) =>
          var p := GetProgramByName(name);
          if p != null {
            AddWorkunit(RunProg, kernel.clock, Some(p.slot));
          }
        case StopCmd(name) =>
          var p := GetProgramByName(name);
          if p != null {
            AddWorkunit(EndProg, kernel.clock, Some(p.slot));
          }
        case QuitCmd =>
          AddWorkunit(Exit, kernel.clock, None);
      }
    }
  }
}
