/** What a child's death comes to, from its wait status to the units and starts that follow, in
    any reachable state and in terms of the event log. */
module Exits {
  import opened Options
  import opened System
  import opened Machine
  import opened Arith
  import opened Registry
  import opened Conservation
  import opened Runtimes
  import opened Translation

  /** How a child ends, and the wait status it leaves. */
  datatype Death = Exited(code: int) | KilledBy(sig: int, dumped: bool)

  predicate Possible(d: Death) {
    match d
    case Exited(code) => 0 <= code < 256
    case KilledBy(sig, _) => 0 < sig < 127
  }

  function StatusOf(d: Death): int {
    match d
    case Exited(code) => 256 * code
    case KilledBy(sig, dumped) => sig + if dumped then 128 else 0
  }

  /** The fields of a wait status tell the death. */
  lemma StatusTells(d: Death)
    requires Possible(d)
    ensures Signaled(StatusOf(d)) <==> d.KilledBy?
    ensures d.Exited? ==> ExitStatus(StatusOf(d)) == d.code
    ensures d.KilledBy? ==> TermSig(StatusOf(d)) == d.sig && ExitStatus(StatusOf(d)) == 0
  {
    match d
    case Exited(code) =>
      DivMod(256 * code, 128, 2 * code, 0);
      DivMod(256 * code, 256, code, 0);
    case KilledBy(sig, dumped) =>
      DivMod(StatusOf(d), 128, if dumped then 1 else 0, sig);
  }

  /** What `what_next` is called with. */
  function Result(d: Death): int {
    if d.Exited? then d.code else 0
  }

  function SignalOf(d: Death): int {
    if d.KilledBy? then d.sig else 0
  }

  /** Child c is gone: nobody is registered for it, its program has no pid and an end, the death
      is in the log and the next command of the sequence is up. */
  function Bereaved(s: Sys, c: int, tick: int, d: Death): (r: Sys)
    requires Valid(s) && c in s.children
    ensures Valid(r) && SameTable(s, r)
  {
    var k := s.children[c].owner;
    var p := s.progs[k];
    s.(progs := s.progs[k := p.(pid := 0, tEnd := tick, seqIdx := (p.seqIdx + 1) % |p.conf.cmds|)],
       running := s.running[c := None],
       children := s.children - {c},
       events := s.events + [Event(tick, if d.Exited? then EvtEnd else EvtCrash, k, StatusOf(d))])
  }

  /** The list for a death. */
  function ListFor(conf: Settings, d: Death): Option<seq<Action>> {
    match d
    case Exited(code) => if code in conf.exitActions then Some(conf.exitActions[code]) else None
    case KilledBy(sig, _) =>
      if sig in conf.signalActions then Some(conf.signalActions[sig])
      else if 0 in conf.signalActions then Some(conf.signalActions[0])
      else None
  }

  /** From program k's last START event to the tick; a tick at time 0 counts as no end, and then
      a start at time 0 as no start. */
  ghost function LastRun(s: Sys, k: nat, tick: int): int
    requires LastStart(s.events, k).Some?
  {
    var started := LastStart(s.events, k).value;
    if tick != 0 then tick - started else if started != 0 then s.clock - started else 0
  }

  ghost predicate TooShort(s: Sys, k: nat, tick: int)
    requires k < |s.progs| && LastStart(s.events, k).Some?
  {
    var limit := s.progs[k].conf.limits.minRuntime;
    limit != -1 && LastRun(s, k, tick) < limit
  }

  ghost predicate TooMany(s: Sys, k: nat)
    requires k < |s.progs|
  {
    var limit := s.progs[k].conf.limits.starts;
    limit != -1 && Starts(s.events, k) > limit
  }

  /** From s, where program k has just lost its child, to r the consequences are drawn. In the
      middle of a sequence, which the number of deaths tells, the next command is ordered. At its
      end a LIMIT event is logged for each limit met, and the list for the death is translated,
      without self-starts if a limit is met. */
  ghost predicate Follows(s: Sys, r: Sys, k: nat, d: Death, tick: int, fates: seq<Fate>)
    requires k < |s.progs| && LastStart(s.events, k).Some? && s.progs[k].conf.cmds != []
  {
    var conf := s.progs[k].conf;
    var found := ListFor(conf, d);
    if Deaths(s.events, k) % |conf.cmds| != 0 then
      Delivers(s, r, k, [Order(RunProg, s.clock, Itself)]) && Works(s, r, k, false)
    else if found.None? then
      r == s
    else
      var note := [Event(s.clock, EvtLimit, k, 0)];
      var notes := (if TooShort(s, k, tick) then note else []) + (if TooMany(s, k) then note else []);
      var actions := if TooShort(s, k, tick) || TooMany(s, k)
                     then WithoutSelfStarts(s.progs, k, found.value, |found.value|) else found.value;
      Translates(s.(events := s.events + notes), r, k, actions, fates)
  }

  /** The state in which `what_next` is called, with its first step taken. */
  lemma BuriedIsBereaved(s: Sys, c: int, tick: int, d: Death)
    requires Inv(s, false) && c in s.children && Possible(d) && s.children[c].status == Some(StatusOf(d))
    requires s.progs[s.children[c].owner].stopMode == 0
    ensures Registered(s, c) && s.running[c].value == s.children[c].owner
    ensures IncSeqIdx(Buried(s, c, tick), s.children[c].owner) == Bereaved(s, c, tick, d)
  {
    StatusTells(d);
  }

  /** Where the sequence is, and what the limits say, is in the log. */
  lemma LogTells(s: Sys, c: int, tick: int, d: Death)
    requires Inv(s, false) && Balanced(s, NOBODY) && Timekept(s)
    requires c in s.children && Possible(d) && s.children[c].status == Some(StatusOf(d))
    ensures var k := s.children[c].owner;
            var r := Bereaved(s, c, tick, d);
            var p := s.progs[k];
            && p.stopMode == 0
            && LastStart(r.events, k).Some?
            && (p.seqIdx == |p.conf.cmds| - 1 <==> Deaths(r.events, k) % |p.conf.cmds| == 0)
            && (MinRuntimeMissed(r.progs[k], r.clock) <==> TooShort(r, k, tick))
            && (StartsUsedUp(r.progs[k]) <==> TooMany(r, k))
  {
    var k := s.children[c].owner;
    var status := StatusOf(d);
    assert Books(s, k, NOBODY);
    BuriedIsBereaved(s, c, tick, d);
    var t := Buried(s, c, tick);
    BalancedDeath(s, c, tick);
    assert Books(t, k, k);
    NextMod(Deaths(t.events, k), |t.progs[k].conf.cmds|);
    Wraps(t.progs[k].seqIdx, |t.progs[k].conf.cmds|);
    TimekeptReap(s, c, tick, []);
  }

  /** The round of the reap loop that gets child c. */
  lemma RoundReaps(m: State, a: Answer, c: int)
    requires WellFormed(m) && m.phase.Reaping? && c == WaitPidResult(m.sys.children, m.phase.pid, a.hint) > 0
    requires Registered(m.sys, c)
    ensures Step(m, Go(a)).phase == m.phase
    ensures Step(m, Go(a)).sys == ReapChild(m.sys, c, Tick(m), a.fates)
  {
  }

  /** Exit theorem: in every reachable state, when the reap loop gets a dead child of program k
      the log, the registry and the children lose it as they should and what follows is what
      the configuration says for that death. */
  lemma DeathIsFollowed(m: State, labels: seq<Label>, a: Answer, d: Death)
    requires Initial(m) && Run(m, labels).phase.Reaping? && Possible(d)
    requires var s := Run(m, labels).sys;
             var c := WaitPidResult(s.children, Run(m, labels).phase.pid, a.hint);
             c > 0 && s.children[c].status == Some(StatusOf(d))
    ensures var before := Run(m, labels);
            var after := Step(before, Go(a));
            var c := WaitPidResult(before.sys.children, before.phase.pid, a.hint);
            var k := before.sys.children[c].owner;
            var s := Bereaved(before.sys, c, Tick(before), d);
            && after.phase == before.phase
            && LastStart(s.events, k).Some? && s.progs[k].conf.cmds != []
            && Follows(s, after.sys, k, d, Tick(before), a.fates)
  {
    var before := Run(m, labels);
    InvRun(m, labels, false);
    BalancedRun(m, labels);
    TimekeptRun(m, labels);
    var c := WaitPidResult(before.sys.children, before.phase.pid, a.hint);
    ReapFollows(before.sys, c, Tick(before), d, a.fates);
    RoundReaps(before, a, c);
  }

  lemma ReapFollows(s: Sys, c: int, tick: int, d: Death, fates: seq<Fate>)
    requires Inv(s, false) && Balanced(s, NOBODY) && Timekept(s)
    requires c in s.children && Possible(d) && s.children[c].status == Some(StatusOf(d))
    ensures Registered(s, c)
    ensures var k := s.children[c].owner;
            var r := Bereaved(s, c, tick, d);
            && LastStart(r.events, k).Some? && r.progs[k].conf.cmds != []
            && Follows(r, ReapChild(s, c, tick, fates), k, d, tick, fates)
  {
    var k := s.children[c].owner;
    var t, r := Buried(s, c, tick), Bereaved(s, c, tick, d);
    LogTells(s, c, tick, d);
    BuriedIsBereaved(s, c, tick, d);
    StatusTells(d);
    WhatNextTranslates(t, k, Result(d), SignalOf(d), fates);
    ListIs(r.progs[k].conf, d);
  }

  lemma ListIs(conf: Settings, d: Death)
    requires Possible(d)
    ensures GetActions(conf, Result(d), SignalOf(d)) == ListFor(conf, d)
  {
  }

  /** In every reachable main-loop state the start limit keeps a program from being restarted if
      and only if it has one and the log has more START events of the program than that. */
  lemma StartLimitCountsStarts(m: State, labels: seq<Label>, k: nat)
    requires Initial(m) && k < |m.sys.progs| && InMainLoop(Run(m, labels).phase)
    ensures var s := Run(m, labels).sys;
            var limit := m.sys.progs[k].conf.limits.starts;
            StartsUsedUp(s.progs[k]) <==> limit != -1 && Starts(s.events, k) > limit
  {
    BooksBalance(m, labels, k);
  }
}
