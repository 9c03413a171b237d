/** The data of one PETeR scheduler together with the part of the operating system it
    depends on, and the operations of Program.cc and Scheduler.cc as functions on it.

    A `Program*` is the program's position in the scheduler's `programs` vector.
    A `WorkUnit*` is the unit's `id`, counted in the order of allocation. */
module System {
  import opened Options

  datatype WorkType = NotInit | Exit | RunProg | EndProg | WaitPid | NoStart

  datatype WorkUnit = WorkUnit(id: nat, kind: WorkType, at: int, target: Option<nat>)

  datatype ActionType = Exec | Kill | ExitAll

  datatype Action = Action(kind: ActionType, after: int, prog: string)

  /** -1 means that the limit is not set. */
  datatype Limits = Limits(starts: int, minRuntime: int, maxRuntime: int)

  datatype Settings = Settings(
    name: string,
    cmds: seq<string>,
    stopSig: int,
    limits: Limits,
    exitActions: map<int, seq<Action>>,
    signalActions: map<int, seq<Action>>)

  datatype Prog = Prog(
    conf: Settings,
    pid: int,
    starts: nat,
    seqIdx: nat,
    stopMode: int,
    tStart: int,
    tEnd: int)

  datatype EventType = EvtStart | EvtEnd | EvtStop | EvtCrash | EvtLimit

  datatype Event = Event(time: int, kind: EventType, prog: nat, status: int)

  /** A forked child that has not been waited for; `status` is None while it runs. */
  datatype Child = Child(owner: nat, status: Option<int>)

  datatype Signal = Signal(pid: int, sig: int)

  datatype Sys = Sys(
    clock: int,
    progs: seq<Prog>,
    sched: seq<WorkUnit>,
    nextId: nat,
    running: map<int, Option<nat>>,
    events: seq<Event>,
    on: bool,
    children: map<int, Child>,
    signals: seq<Signal>)

  /** What the operating system answers while a program is being started. */
  datatype Fate = NoHome | NoBinary | NoLogfile | Forked(hint: int)

  // ------------------------------------------------------------------ validity

  predicate ValidUnit(u: WorkUnit, n: nat) {
    && (u.target.Some? ==> u.target.value < n)
    && (u.kind.RunProg? || u.kind.EndProg? || u.kind.NoStart? ==> u.target.Some?)
  }

  predicate ValidProg(p: Prog) {
    p.seqIdx < |p.conf.cmds|
  }

  /** Every pointer is to a program in the table and every program has a command. */
  ghost predicate Valid(s: Sys) {
    && (forall k :: 0 <= k < |s.progs| ==> ValidProg(s.progs[k]))
    && (forall i :: 0 <= i < |s.sched| ==> ValidUnit(s.sched[i], |s.progs|))
    && (forall c :: c in s.running && s.running[c].Some? ==> s.running[c].value < |s.progs|)
    && (forall c :: c in s.children ==> s.children[c].owner < |s.progs|)
  }

  /** What no operation changes: the program table and each program's settings. */
  ghost predicate SameTable(s: Sys, r: Sys) {
    && |r.progs| == |s.progs|
    && forall k :: 0 <= k < |s.progs| ==> r.progs[k].conf == s.progs[k].conf
  }

  // ------------------------------------------------------- the operating system

  predicate Largest(m: int, pids: set<int>) {
    m in pids && forall c :: c in pids ==> c <= m
  }

  lemma LargestPid(pids: set<int>, x: int)
    requires x in pids
    ensures exists m :: Largest(m, pids)
  {
    var rest := pids - {x};
    if y :| y in rest {
      LargestPid(rest, y);
      var m :| Largest(m, rest);
      var top := if m < x then x else m;
      forall c | c in pids ensures c <= top { assert c == x || c in rest; }
      assert Largest(top, pids);
    } else {
      assert forall c :: c in pids ==> c == x || c in rest;
      assert Largest(x, pids);
    }
  }

  /** A pid for a new child: the proposed one when it is positive and free. */
  function NewPid(children: map<int, Child>, hint: int): (pid: int)
    ensures 0 < pid && pid !in children
    ensures 0 < hint && hint !in children ==> pid == hint
  {
    if 0 < hint && hint !in children then hint
    else if forall c :: c in children.Keys ==> c <= 0 then 1
    else
      assert exists m :: Largest(m, children.Keys) by {
        var c :| c in children.Keys && c > 0;
        LargestPid(children.Keys, c);
      }
      var m :| Largest(m, children.Keys);
      m + 1
  }

  predicate Matches(pid: int, c: int) {
    pid == 0 || pid == c
  }

  predicate Zombie(children: map<int, Child>, pid: int, c: int) {
    c in children && Matches(pid, c) && children[c].status.Some?
  }

  /** The result of `waitpid(pid, WNOHANG)`: a dead matching child if there is one (the
      proposed one when it qualifies), 0 when matching children all run, -1 when none match. */
  function WaitPidResult(children: map<int, Child>, pid: int, hint: int): (c: int)
    ensures Zombie(children, pid, hint) ==> c == hint
    ensures (exists x :: Zombie(children, pid, x)) ==> Zombie(children, pid, c)
    ensures (forall x :: !Zombie(children, pid, x)) ==>
              c == if exists x :: x in children && Matches(pid, x) then 0 else -1
  {
    if Zombie(children, pid, hint) then hint
    else if exists x :: x in children.Keys && Zombie(children, pid, x) then
      var z := set c | c in children.Keys && Zombie(children, pid, c);
      assert exists m :: Largest(m, z) by {
        var x :| x in children.Keys && Zombie(children, pid, x);
        LargestPid(z, x);
      }
      var m :| Largest(m, z);
      m
    else if exists x :: x in children.Keys && Matches(pid, x) then 0
    else -1
  }

  // The fields of a wait status: WTERMSIG, WIFSIGNALED and WEXITSTATUS.

  function TermSig(status: int): int {
    status % 128
  }

  predicate Signaled(status: int) {
    0 < TermSig(status) < 127
  }

  function ExitStatus(status: int): int {
    (status / 256) % 256
  }

  // --------------------------------------------------------------- Program.cc

  function Runtime(p: Prog, clock: int): int {
    if p.tEnd == 0 then
      if p.tStart == 0 then 0 else clock - p.tStart
    else p.tEnd - p.tStart
  }

  predicate OverRuntime(p: Prog, clock: int) {
    p.pid != 0 && p.conf.limits.maxRuntime != -1 && Runtime(p, clock) > p.conf.limits.maxRuntime
  }

  function AddUnit(s: Sys, kind: WorkType, at: int, target: Option<nat>): (r: Sys)
  {
    s.(sched := s.sched + [WorkUnit(s.nextId, kind, at, target)], nextId := s.nextId + 1)
  }

  function AddEvent(s: Sys, time: int, kind: EventType, k: nat, status: int): Sys {
    s.(events := s.events + [Event(time, kind, k, status)])
  }

  /** `send_signal`: nothing is sent for a program without a pid. */
  function SendSignal(s: Sys, k: nat, sig: int): Sys
    requires k < |s.progs|
  {
    if s.progs[k].pid == 0 then s
    else s.(signals := s.signals + [Signal(s.progs[k].pid, sig)])
  }

  /** `run`. */
  function StartProgram(s: Sys, k: nat, fate: Fate): (r: Sys)
    requires Valid(s) && k < |s.progs|
    ensures Valid(r) && SameTable(s, r)
  {
    var p := s.progs[k];
    if p.pid != 0 then s
    else match fate
      case NoHome => AddUnit(s, Exit, s.clock, Some(k))
      case NoBinary => AddUnit(s, Exit, s.clock, Some(k))
      case NoLogfile => s
      case Forked(hint) =>
        var pid := NewPid(s.children, hint);
        s.(progs := s.progs[k := p.(pid := pid, tStart := s.clock, tEnd := 0, starts := p.starts + 1)],
           running := s.running[pid := Some(k)],
           children := s.children[pid := Child(k, None)],
           events := s.events + [Event(s.clock, EvtStart, k, -1)])
  }

  function FindProgram(progs: seq<Prog>, name: string, from: nat := 0): (r: Option<nat>)
    requires from <= |progs|
    ensures r.Some? ==> from <= r.value < |progs| && progs[r.value].conf.name == name
    ensures r.Some? ==> forall j :: from <= j < r.value ==> progs[j].conf.name != name
    ensures r.None? ==> forall j :: from <= j < |progs| ==> progs[j].conf.name != name
    decreases |progs| - from
  {
    if from == |progs| then None
    else if progs[from].conf.name == name then Some(from)
    else FindProgram(progs, name, from + 1)
  }

  /** Program t is the one that an action of program k means by a name: the first with that
      name, or k itself when there is none. */
  predicate IsNamed(progs: seq<Prog>, k: nat, name: string, t: nat) {
    if exists j :: 0 <= j < |progs| && progs[j].conf.name == name then
      t < |progs| && progs[t].conf.name == name && forall j :: 0 <= j < t ==> progs[j].conf.name != name
    else t == k
  }

  /** The program an action of program k is about. */
  function Target(progs: seq<Prog>, k: nat, name: string): (t: nat)
    requires k < |progs|
    ensures t < |progs|
  {
    var found := FindProgram(progs, name);
    if found.Some? then found.value else k
  }

  lemma TargetIsNamed(progs: seq<Prog>, k: nat, name: string, t: nat)
    requires k < |progs|
    ensures IsNamed(progs, k, name, t) <==> t == Target(progs, k, name)
  {
  }

  /** `get_actions`: the list for a signal, or the one for signal 0; for an exit the list for
      its result. */
  function GetActions(conf: Settings, res: int, sig: int): (r: Option<seq<Action>>)
    ensures r.None? <==> if sig > 0 then {sig, 0} !! conf.signalActions.Keys else res !in conf.exitActions
  {
    if sig > 0 then
      if sig in conf.signalActions then Some(conf.signalActions[sig])
      else if 0 in conf.signalActions then Some(conf.signalActions[0])
      else None
    else if res in conf.exitActions then Some(conf.exitActions[res])
    else None
  }

  predicate MinRuntimeMissed(p: Prog, clock: int) {
    p.conf.limits.minRuntime != -1 && Runtime(p, clock) < p.conf.limits.minRuntime
  }

  predicate StartsUsedUp(p: Prog) {
    p.conf.limits.starts != -1 && p.starts > p.conf.limits.starts
  }

  function FateAt(fates: seq<Fate>, i: nat): Fate {
    if i < |fates| then fates[i] else NoLogfile
  }

  /** One round of the loop over the actions. */
  function ApplyAction(s: Sys, k: nat, a: Action, limited: bool, fate: Fate): (r: Sys)
    requires Valid(s) && k < |s.progs|
    ensures Valid(r) && SameTable(s, r)
  {
    var t := Target(s.progs, k, a.prog);
    match a.kind
    case Exec =>
      if limited && t == k then s
      else if t == k && a.after == 0 then StartProgram(s, k, fate)
      else AddUnit(s, RunProg, s.clock + a.after, Some(t))
    case Kill =>
      if t != k then AddUnit(s, EndProg, s.clock + a.after, Some(t)) else s
    case ExitAll =>
      AddUnit(s, Exit, s.clock, Some(t))
  }

  /** The loop over the first n actions. */
  function ApplyActions(s: Sys, k: nat, actions: seq<Action>, n: nat, limited: bool, fates: seq<Fate>): (r: Sys)
    requires Valid(s) && k < |s.progs| && n <= |actions|
    ensures Valid(r) && SameTable(s, r)
  {
    if n == 0 then s
    else
      ApplyAction(ApplyActions(s, k, actions, n - 1, limited, fates), k, actions[n - 1], limited, FateAt(fates, n - 1))
  }

  function LogLimits(s: Sys, k: nat): (r: Sys)
    requires Valid(s) && k < |s.progs|
    ensures Valid(r) && SameTable(s, r)
  {
    var s1 := if MinRuntimeMissed(s.progs[k], s.clock) then AddEvent(s, s.clock, EvtLimit, k, 0) else s;
    if StartsUsedUp(s.progs[k]) then AddEvent(s1, s.clock, EvtLimit, k, 0) else s1
  }

  predicate Limited(s: Sys, k: nat)
    requires k < |s.progs|
  {
    MinRuntimeMissed(s.progs[k], s.clock) || StartsUsedUp(s.progs[k])
  }

  function ClearStopMode(s: Sys, k: nat): (r: Sys)
    requires Valid(s) && k < |s.progs|
    ensures Valid(r) && SameTable(s, r)
  {
    s.(progs := s.progs[k := s.progs[k].(stopMode := 0)])
  }

  /** `inc_seq_idx`. */
  function IncSeqIdx(s: Sys, k: nat): (r: Sys)
    requires Valid(s) && k < |s.progs|
    ensures Valid(r) && SameTable(s, r)
  {
    var p := s.progs[k];
    s.(progs := s.progs[k := p.(seqIdx := (p.seqIdx + 1) % |p.conf.cmds|)])
  }

  /** The part of `what_next` after a finished sequence. */
  function SequenceEnd(s: Sys, k: nat, res: int, sig: int, fates: seq<Fate>): (r: Sys)
    requires Valid(s) && k < |s.progs|
    ensures Valid(r) && SameTable(s, r)
  {
    match GetActions(s.progs[k].conf, res, sig)
    case None => s
    case Some(actions) => ApplyActions(LogLimits(s, k), k, actions, |actions|, Limited(s, k), fates)
  }

  /** `what_next`. */
  function WhatNext(s: Sys, k: nat, res: int, sig: int, fates: seq<Fate>): (r: Sys)
    requires Valid(s) && k < |s.progs|
    ensures Valid(r) && SameTable(s, r)
  {
    var p := s.progs[k];
    if p.stopMode == 1 then ClearStopMode(s, k)
    else if p.seqIdx == |p.conf.cmds| - 1 then SequenceEnd(IncSeqIdx(s, k), k, res, sig, fates)
    else AddUnit(IncSeqIdx(s, k), RunProg, s.clock, Some(k))
  }

  // -------------------------------------------------------------- Scheduler.cc

  predicate Timed(kind: WorkType) {
    kind.RunProg? || kind.EndProg?
  }

  predicate Due(u: WorkUnit, tick: int) {
    Timed(u.kind) && u.at <= tick
  }

  function Spend(s: Sys, i: nat): (r: Sys)
    requires Valid(s) && i < |s.sched|
    ensures Valid(r) && SameTable(s, r)
  {
    s.(sched := s.sched[i := s.sched[i].(kind := NotInit)])
  }

  /** Acting on a unit to start program k. */
  function ServeRun(s: Sys, i: nat, k: nat, fate: Fate): (r: Sys)
    requires Valid(s) && i < |s.sched| && k < |s.progs|
    ensures Valid(r) && SameTable(s, r)
  {
    var s1 := Spend(StartProgram(s, k, fate), i);
    s1.(running := s1.running[s1.progs[k].pid := Some(k)])
  }

  /** Acting on a unit to stop program k. */
  function ServeEnd(s: Sys, i: nat, k: nat, tick: int): (r: Sys)
    requires Valid(s) && i < |s.sched| && k < |s.progs|
    ensures Valid(r) && SameTable(s, r)
  {
    var s1 := AddEvent(ClearStopMode(s, k), tick, EvtStop, k, -1);
    Spend(SendSignal(s1, k, s1.progs[k].conf.stopSig), i)
  }

  /** One round of the first pass, over the unit at position i. */
  function VisitUnit(s: Sys, i: nat, tick: int, fate: Fate): (r: Sys)
    requires Valid(s) && i < |s.sched|
    ensures Valid(r) && SameTable(s, r)
  {
    var u := s.sched[i];
    match u.kind
    case Exit => Spend(s, i).(on := false)
    case RunProg => if u.at <= tick then ServeRun(s, i, u.target.value, fate) else s
    case EndProg => if u.at <= tick then ServeEnd(s, i, u.target.value, tick) else s
    case NoStart => Spend(s, i)
    case NotInit => s
    case WaitPid => s
  }

  /** The second pass: what is left when the used units are erased. */
  function Compact(sched: seq<WorkUnit>): (r: seq<WorkUnit>)
  {
    if sched == [] then []
    else
      var r := Compact(sched[..|sched| - 1]);
      if sched[|sched| - 1].kind.NotInit? then r else r + [sched[|sched| - 1]]
  }

  /** One round of the maxruntime pass. */
  function CheckRuntime(s: Sys, k: nat, tick: int): (r: Sys)
    requires Valid(s) && k < |s.progs|
    ensures Valid(r) && SameTable(s, r)
  {
    if OverRuntime(s.progs[k], s.clock) then
      var s1 := SendSignal(s, k, s.progs[k].conf.stopSig);
      AddEvent(s1.(progs := s1.progs[k := s1.progs[k].(pid := 0)]), tick, EvtLimit, k, 0)
    else s
  }

  /** Program k loses its child c, as far as its fields and the registry go. */
  function Unbook(s: Sys, c: int, k: nat, tEnd: int): (r: Sys)
    requires Valid(s) && k < |s.progs|
    ensures Valid(r) && SameTable(s, r)
  {
    s.(progs := s.progs[k := s.progs[k].(pid := 0, tEnd := tEnd)], running := s.running[c := None])
  }

  /** Child c of program k has been waited for. */
  function BuryChild(s: Sys, c: int, k: nat, tEnd: int): (r: Sys)
    requires Valid(s) && k < |s.progs|
    ensures Valid(r) && SameTable(s, r)
  {
    Unbook(s.(children := s.children - {c}), c, k, tEnd)
  }

  function LogDeath(s: Sys, k: nat, status: int, tick: int): (r: Sys)
    requires Valid(s) && k < |s.progs|
    ensures Valid(r) && SameTable(s, r)
  {
    if !Signaled(status) then AddEvent(s, tick, EvtEnd, k, status)
    else if s.progs[k].stopMode == 0 then AddEvent(s, tick, EvtCrash, k, status)
    else s
  }

  predicate Registered(s: Sys, c: int) {
    c in s.running && s.running[c].Some?
  }

  /** The body of the reap loop for a child that `running` knows. */
  function ReapChild(s: Sys, c: int, tick: int, fates: seq<Fate>): (r: Sys)
    requires Valid(s) && c in s.children && s.children[c].status.Some? && Registered(s, c)
    ensures Valid(r) && SameTable(s, r)
  {
    var k := s.running[c].value;
    var status := s.children[c].status.value;
    var sig := if Signaled(status) then TermSig(status) else 0;
    WhatNext(LogDeath(BuryChild(s, c, k, tick), k, status, tick), k, ExitStatus(status), sig, fates)
  }
}
