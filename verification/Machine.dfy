/** The scheduler thread as a state machine. One `Go` step is one round of one of the
    thread's loops; between any two of them a child may die, the clock may move and the
    socket thread may append a work unit. A step that cannot happen leaves the state alone,
    so every sequence of labels is a run. */
module Machine {
  import opened Options
  import opened System

  const GRACE_TRIES := 10000
  const KILL_TRIES := 1000
  const SIG_KILL := 9

  /** Where the thread is. `Reaping` holds the pid read before the inner loop. */
  datatype Phase =
    | Idle
    | Units(i: nat)
    | Runtimes(i: nat)
    | Reaping(i: nat, pid: int)
    | Signalling(i: nat, count: int)
    | Grace(i: nat, tries: int, pCount: int, kCount: int)
    | Killing(i: nat, count: int)
    | Aftermath(tries: int, pCount: int, kCount: int)
    | Ready(killed: bool)
    | NullExit

  predicate InMainLoop(p: Phase) {
    p.Idle? || p.Units? || p.Runtimes? || p.Reaping?
  }

  /** The operating system's answers to the calls made in one round. */
  datatype Answer = Answer(fates: seq<Fate>, hint: int, killOk: bool)

  datatype Command = StartCmd(name: string) | StopCmd(name: string) | QuitCmd

  datatype Label =
    | Go(answer: Answer)
    | Dies(pid: int, status: int)
    | ClockIs(time: int)
    | Request(cmd: Command)

  /** History: a unit as it was appended and the first tick whose walk can meet it, and
      the tick at which a unit was acted on. */
  datatype Birth = Birth(unit: WorkUnit, from: nat)
  datatype Act = Act(id: nat, tick: nat)

  /** `begun` is the clock when the thread started, `ticks` the clock read by every tick. */
  datatype State = State(
    phase: Phase,
    sys: Sys,
    begun: int,
    ticks: seq<int>,
    born: seq<Birth>,
    acts: seq<Act>)

  ghost predicate WellFormed(m: State) {
    && Valid(m.sys)
    && (m.phase.Units? || m.phase.Runtimes? || m.phase.Reaping? ==> |m.ticks| > 0)
  }

  function Tick(m: State): int
    requires |m.ticks| > 0
  {
    m.ticks[|m.ticks| - 1]
  }

  // ------------------------------------------------- one round of each loop

  /** The outer loop's test, and `now = utc()`. */
  function LoopTest(m: State): State {
    if m.sys.on then m.(phase := Units(0), ticks := m.ticks + [m.sys.clock])
    else m.(phase := Signalling(0, 0))
  }

  function UnitRound(m: State, i: nat, a: Answer): (r: State)
    requires WellFormed(m) && m.phase == Units(i)
    ensures WellFormed(r) && SameTable(m.sys, r.sys)
  {
    if i < |m.sys.sched| then
      var u := m.sys.sched[i];
      m.(phase := Units(i + 1),
         sys := VisitUnit(m.sys, i, Tick(m), FateAt(a.fates, 0)),
         acts := if Due(u, Tick(m)) then m.acts + [Act(u.id, |m.ticks| - 1)] else m.acts)
    else
      CompactValid(m.sys.sched, |m.sys.progs|);
      m.(phase := Runtimes(0), sys := m.sys.(sched := Compact(m.sys.sched)))
  }

  lemma CompactValid(sched: seq<WorkUnit>, n: nat)
    requires forall i :: 0 <= i < |sched| ==> ValidUnit(sched[i], n)
    ensures forall i :: 0 <= i < |Compact(sched)| ==> ValidUnit(Compact(sched)[i], n)
  {
  }

  function EnterReap(s: Sys, i: nat): Phase {
    if i < |s.progs| then Reaping(i, s.progs[i].pid) else Idle
  }

  function RuntimeRound(m: State, i: nat): (r: State)
    requires WellFormed(m) && m.phase == Runtimes(i)
    ensures WellFormed(r) && SameTable(m.sys, r.sys)
  {
    if i < |m.sys.progs| then
      m.(phase := Runtimes(i + 1), sys := CheckRuntime(m.sys, i, Tick(m)))
    else m.(phase := EnterReap(m.sys, 0))
  }

  /** The "NULL Program?!" exit: the child is gone and looking it up left a NULL entry. */
  function LoseChild(s: Sys, c: int): (r: Sys)
    requires Valid(s)
    ensures Valid(r) && SameTable(s, r)
  {
    s.(children := s.children - {c}, running := s.running[c := None])
  }

  /** One `waitpid` of the reap loop. */
  function ReapRound(m: State, i: nat, pid: int, a: Answer): (r: State)
    requires WellFormed(m) && m.phase == Reaping(i, pid)
    ensures WellFormed(r) && SameTable(m.sys, r.sys)
  {
    var c := WaitPidResult(m.sys.children, pid, a.hint);
    if c <= 0 then m.(phase := EnterReap(m.sys, i + 1))
    else if !Registered(m.sys, c) then m.(phase := NullExit, sys := LoseChild(m.sys, c))
    else m.(sys := ReapChild(m.sys, c, Tick(m), a.fates))
  }

  function SignalRound(m: State, i: nat, count: int, a: Answer): (r: State)
    requires WellFormed(m) && m.phase == Signalling(i, count)
    ensures WellFormed(r) && SameTable(m.sys, r.sys)
  {
    if i < |m.sys.progs| then
      if m.sys.progs[i].pid > 0 then
        m.(sys := SendSignal(m.sys, i, m.sys.progs[i].conf.stopSig),
           phase := Signalling(i + 1, if a.killOk then count + 1 else count))
      else m.(phase := Signalling(i + 1, count))
    else m.(phase := GraceTest(GRACE_TRIES, count, count))
  }

  /** `while ( ( tries-- > 0 ) && ( k_count > 0 ) )`, and the test for programs left. */
  function GraceTest(tries: int, pCount: int, kCount: int): Phase {
    if tries > 0 && kCount > 0 then Grace(0, tries - 1, pCount, kCount)
    else if pCount > 0 then Killing(0, 0)
    else Ready(false)
  }

  /** One `waitpid` of the grace loop: program i's pid, whatever it is by now. */
  function GraceRound(m: State, i: nat, tries: int, pCount: int, kCount: int, a: Answer): (r: State)
    requires WellFormed(m) && m.phase == Grace(i, tries, pCount, kCount)
    ensures WellFormed(r) && SameTable(m.sys, r.sys)
  {
    if i < |m.sys.progs| then
      var pid := m.sys.progs[i].pid;
      var c := WaitPidResult(m.sys.children, pid, a.hint);
      if c > 0 then
        if !Registered(m.sys, c) then m.(phase := NullExit, sys := LoseChild(m.sys, c))
        else m.(sys := BuryChild(m.sys, c, m.sys.running[c].value, m.begun),
                phase := Grace(i + 1, tries, pCount - 1, kCount - 1))
      else m.(phase := Grace(i + 1, tries, pCount, if c < 0 then kCount - 1 else kCount))
    else m.(phase := GraceTest(tries, pCount, kCount))
  }

  function KillRound(m: State, i: nat, count: int): (r: State)
    requires WellFormed(m) && m.phase == Killing(i, count)
    ensures WellFormed(r) && SameTable(m.sys, r.sys)
  {
    if i < |m.sys.progs| then
      if m.sys.progs[i].pid > 0 then
        m.(sys := SendSignal(m.sys, i, SIG_KILL), phase := Killing(i + 1, count + 1))
      else m.(phase := Killing(i + 1, count))
    else m.(phase := AftermathTest(KILL_TRIES, count, count))
  }

  function AftermathTest(tries: int, pCount: int, kCount: int): Phase {
    if tries > 0 && kCount > 0 then Aftermath(tries - 1, pCount, kCount) else Ready(true)
  }

  /** One `waitpid(0)` after the SIGKILL phase. */
  function AftermathRound(m: State, tries: int, pCount: int, kCount: int, a: Answer): (r: State)
    requires WellFormed(m) && m.phase == Aftermath(tries, pCount, kCount)
    ensures WellFormed(r) && SameTable(m.sys, r.sys)
  {
    var c := WaitPidResult(m.sys.children, 0, a.hint);
    if c > 0 then
      if !Registered(m.sys, c) then m.(phase := NullExit, sys := LoseChild(m.sys, c))
      else m.(sys := BuryChild(m.sys, c, m.sys.running[c].value, m.begun),
              phase := AftermathTest(tries, pCount - 1, kCount - 1))
    else m.(phase := AftermathTest(tries, pCount, if c < 0 then kCount - 1 else kCount))
  }

  function Round(m: State, a: Answer): (r: State)
    requires WellFormed(m)
    ensures WellFormed(r) && SameTable(m.sys, r.sys)
  {
    match m.phase
    case Idle => LoopTest(m)
    case Units(i) => UnitRound(m, i, a)
    case Runtimes(i) => RuntimeRound(m, i)
    case Reaping(i, pid) => ReapRound(m, i, pid, a)
    case Signalling(i, count) => SignalRound(m, i, count, a)
    case Grace(i, tries, p, k) => GraceRound(m, i, tries, p, k, a)
    case Killing(i, count) => KillRound(m, i, count)
    case Aftermath(tries, p, k) => AftermathRound(m, tries, p, k, a)
    case Ready(_) => m
    case NullExit => m
  }

  // ------------------------------------------------------- the environment

  function Die(s: Sys, pid: int, status: int): (r: Sys)
    requires Valid(s)
    ensures Valid(r) && SameTable(s, r)
  {
    if pid in s.children && s.children[pid].status.None? then
      s.(children := s.children[pid := s.children[pid].(status := Some(status))])
    else s
  }

  /** What the socket thread appends for `<start>`, `<stop>` and `<quit>`. */
  function Serve(s: Sys, cmd: Command): (r: Sys)
    requires Valid(s)
    ensures Valid(r) && SameTable(s, r)
  {
    match cmd
    case StartCmd(name) =>
      var p := FindProgram(s.progs, name);
      if p.Some? then AddUnit(s, RunProg, s.clock, p) else s
    case StopCmd(name) =>
      var p := FindProgram(s.progs, name);
      if p.Some? then AddUnit(s, EndProg, s.clock, p) else s
    case QuitCmd => AddUnit(s, Exit, s.clock, None)
  }

  function Move(m: State, l: Label): (r: State)
    requires WellFormed(m)
    ensures WellFormed(r) && SameTable(m.sys, r.sys)
  {
    match l
    case Go(a) => Round(m, a)
    case Dies(pid, status) => m.(sys := Die(m.sys, pid, status))
    case ClockIs(time) => m.(sys := m.sys.(clock := time))
    case Request(cmd) => m.(sys := Serve(m.sys, cmd))
  }

  /** The first tick whose walk meets a unit appended in state m. */
  function FirstWalk(m: State): nat {
    if m.phase.Units? && |m.ticks| > 0 then |m.ticks| - 1 else |m.ticks|
  }

  function Births(m: State, units: seq<WorkUnit>): (b: seq<Birth>)
    ensures |b| == |units|
    ensures forall j :: 0 <= j < |b| ==> b[j] == Birth(units[j], FirstWalk(m))
  {
    seq(|units|, j requires 0 <= j < |units| => Birth(units[j], FirstWalk(m)))
  }

  function Appended(before: seq<WorkUnit>, after: seq<WorkUnit>): seq<WorkUnit> {
    if |before| <= |after| then after[|before|..] else []
  }

  function Step(m: State, l: Label): (r: State)
    requires WellFormed(m)
    ensures WellFormed(r) && SameTable(m.sys, r.sys)
  {
    var r := Move(m, l);
    r.(born := m.born + Births(m, Appended(m.sys.sched, r.sys.sched)))
  }

  lemma StepIsRound(m: State, a: Answer)
    requires WellFormed(m)
    ensures Step(m, Go(a)) == Round(m, a).(born := Step(m, Go(a)).born)
  {
  }

  // ------------------------------------------------------------------- runs

  /** A scheduler as `read_config` leaves it and `start` finds it. */
  ghost predicate Initial(m: State) {
    && WellFormed(m)
    && m.phase == Idle && m.ticks == [] && m.acts == []
    && m.sys.running == map[] && m.sys.children == map[] && m.sys.events == []
    && m.sys.on
    && (forall k :: 0 <= k < |m.sys.progs| ==>
          var p := m.sys.progs[k];
          p.pid == 0 && p.starts == 0 && p.seqIdx == 0 && p.stopMode == 0)
    && |m.sys.sched| == m.sys.nextId == |m.born|
    && (forall i :: 0 <= i < |m.sys.sched| ==>
          m.sys.sched[i].id == i && m.born[i] == Birth(m.sys.sched[i], 0))
  }

  /** The state after the given steps. */
  ghost function Run(m: State, labels: seq<Label>): (r: State)
    requires WellFormed(m)
    ensures WellFormed(r) && SameTable(m.sys, r.sys)
    decreases |labels|
  {
    if labels == [] then m
    else Step(Run(m, labels[..|labels| - 1]), labels[|labels| - 1])
  }

  lemma {:induction false} RunConcat(m: State, a: seq<Label>, b: seq<Label>)
    requires WellFormed(m)
    ensures Run(Run(m, a), b) == Run(m, a + b)
    decreases |b|
  {
    if b == [] {
      assert a + b == a;
    } else {
      var init := b[..|b| - 1];
      RunConcat(m, a, init);
      assert (a + b)[..|a + b| - 1] == a + init;
    }
  }

  lemma RunOne(m: State, l: Label)
    requires WellFormed(m)
    ensures Run(m, [l]) == Step(m, l)
  {
    assert [l][..0] == [];
    assert Run(m, []) == m;
  }

  /** Take one step and go on from there. */
  lemma Then(m: State, l: Label, rest: seq<Label>)
    requires WellFormed(m)
    ensures Run(m, [l] + rest) == Run(Step(m, l), rest)
  {
    RunOne(m, l);
    RunConcat(m, [l], rest);
  }

  lemma RunTwo(m: State, a: Label, b: Label)
    requires WellFormed(m)
    ensures Run(m, [a, b]) == Step(Step(m, a), b)
  {
    RunOne(Step(m, a), b);
    Then(m, a, [b]);
  }
}
