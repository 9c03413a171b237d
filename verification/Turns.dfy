/** What a turn of the main loop leaves: no program holds the pid of a dead child. */
module Turns {
  import opened Options
  import opened System
  import opened Machine
  import opened Registry
  import opened Runtimes
  import opened Effects
  import opened Loops
  import Passes
  import opened LoopRuns

  /** Program k has no pid or that of a running child. */
  ghost predicate Alive(s: Sys, k: nat)
    requires k < |s.progs|
  {
    s.progs[k].pid != 0 ==> s.progs[k].pid in s.children && s.children[s.progs[k].pid].status.None?
  }

  /** From s to r no child is gone and none has changed; only program k may hold another pid, and
      then that of a running child. */
  ghost predicate Adds(s: Sys, r: Sys, k: nat)
    requires k < |s.progs|
  {
    && |r.progs| == |s.progs|
    && (forall c :: c in s.children ==> c in r.children && r.children[c] == s.children[c])
    && (forall j :: 0 <= j < |s.progs| && j != k ==> r.progs[j].pid == s.progs[j].pid)
    && (r.progs[k].pid == s.progs[k].pid || Alive(r, k))
  }

  lemma AddsBoth(s: Sys, t: Sys, r: Sys, k: nat)
    requires k < |s.progs| && Adds(s, t, k) && Adds(t, r, k)
    ensures Adds(s, r, k)
  {
  }

  lemma ActionAdds(s: Sys, k: nat, a: Action, limited: bool, fate: Fate)
    requires Valid(s) && k < |s.progs|
    ensures Adds(s, ApplyAction(s, k, a, limited, fate), k)
  {
  }

  lemma {:induction false} ActionsAdd(s: Sys, k: nat, actions: seq<Action>, n: nat, limited: bool, fates: seq<Fate>)
    requires Valid(s) && k < |s.progs| && n <= |actions|
    ensures Adds(s, ApplyActions(s, k, actions, n, limited, fates), k)
  {
    if n > 0 {
      var t := ApplyActions(s, k, actions, n - 1, limited, fates);
      ActionsAdd(s, k, actions, n - 1, limited, fates);
      ActionAdds(t, k, actions[n - 1], limited, FateAt(fates, n - 1));
      AddsBoth(s, t, ApplyActions(s, k, actions, n, limited, fates), k);
    }
  }

  lemma WhatNextAdds(s: Sys, k: nat, res: int, sig: int, fates: seq<Fate>)
    requires Valid(s) && k < |s.progs|
    ensures Adds(s, WhatNext(s, k, res, sig, fates), k)
  {
    var p := s.progs[k];
    var found := GetActions(p.conf, res, sig);
    if p.stopMode != 1 && p.seqIdx == |p.conf.cmds| - 1 && found.Some? {
      var s1 := LogLimits(IncSeqIdx(s, k), k);
      ActionsAdd(s1, k, found.value, |found.value|, Limited(IncSeqIdx(s, k), k), fates);
      AddsBoth(s, s1, WhatNext(s, k, res, sig, fates), k);
    }
  }

  /** Reaping leaves every program alone but the child's, and that with no pid or a new child. */
  lemma ReapLeaves(s: Sys, c: int, tick: int, fates: seq<Fate>, j: nat)
    requires Inv(s, false) && c in s.children && s.children[c].status.Some? && j < |s.progs|
    ensures Registered(s, c)
    ensures var r := ReapChild(s, c, tick, fates);
            && Inv(r, false) && |r.progs| == |s.progs|
            && (Alive(s, j) ==> Alive(r, j))
            && (r.progs[j].pid == s.progs[j].pid || Alive(r, j))
  {
    InvReap(s, c, tick, fates, false);
    var k := s.running[c].value;
    var status := s.children[c].status.value;
    var t := Buried(s, c, tick);
    WhatNextAdds(t, k, ExitStatus(status), if Signaled(status) then TermSig(status) else 0, fates);
  }

  ghost predicate AliveUpTo(s: Sys, n: nat) {
    n <= |s.progs| && forall j :: 0 <= j < n ==> Alive(s, j)
  }

  lemma ReapLeavesAll(s: Sys, c: int, tick: int, fates: seq<Fate>, n: nat)
    requires Inv(s, false) && c in s.children && s.children[c].status.Some? && AliveUpTo(s, n)
    ensures Registered(s, c) && AliveUpTo(ReapChild(s, c, tick, fates), n)
  {
    InvReap(s, c, tick, fates, false);
    forall j: nat | j < n ensures Alive(ReapChild(s, c, tick, fates), j) {
      ReapLeaves(s, c, tick, fates, j);
    }
  }

  /** The inner reap loop for the pid that program i holds leaves program i alive, and those
      before it as they were. */
  lemma {:induction false} ReapProgramLeaves(s: Sys, i: nat, pid: int, tick: int, answers: seq<Answer>, calls: nat)
    requires Inv(s, false) && i < |s.progs| && AliveUpTo(s, i) && (s.progs[i].pid == pid || Alive(s, i))
    ensures var r := ReapProgram(s, pid, tick, answers, calls);
            r.ok && Inv(r.sys, false) && AliveUpTo(r.sys, i + 1)
    decreases |DeadChildren(s.children)|
  {
    var a := AnswerAt(answers, calls);
    var c := WaitPidResult(s.children, pid, a.hint);
    WaitGives(s.children, pid, a.hint);
    if c > 0 {
      ReapLeaves(s, c, tick, a.fates, i);
      ReapLeavesAll(s, c, tick, a.fates, i);
      ReapProgress(s, c, tick, a.fates);
      ReapProgramLeaves(ReapChild(s, c, tick, a.fates), i, pid, tick, answers, calls + 1);
    } else {
      assert Alive(s, i);
    }
  }

  lemma {:induction false} ReapPassLeaves(s: Sys, i: nat, tick: int, answers: seq<Answer>, calls: nat)
    requires Inv(s, false) && AliveUpTo(s, i)
    ensures var r := ReapPass(s, i, tick, answers, calls);
            r.ok && |r.sys.progs| == |s.progs| && AliveUpTo(r.sys, |r.sys.progs|)
    decreases |s.progs| - i
  {
    if i < |s.progs| {
      var r := ReapProgram(s, s.progs[i].pid, tick, answers, calls);
      ReapProgramLeaves(s, i, s.progs[i].pid, tick, answers, calls);
      ReapPassLeaves(r.sys, i + 1, tick, answers, r.calls);
    }
  }

  lemma {:induction false} InvFirstPass(s: Sys, i: nat, tick: int, fates: seq<Fate>)
    requires Inv(s, false)
    ensures Inv(FirstPass(s, i, tick, fates), false)
    decreases Passes.Work(s.sched, i)
  {
    if i < |s.sched| {
      InvVisit(s, i, tick, FateAt(fates, i), false);
      Passes.VisitProgress(s, i, tick, FateAt(fates, i));
      InvFirstPass(VisitUnit(s, i, tick, FateAt(fates, i)), i + 1, tick, fates);
    }
  }

  lemma {:induction false} InvRuntimePass(s: Sys, i: nat, tick: int)
    requires Inv(s, false) && i <= |s.progs|
    ensures Inv(RuntimePass(s, i, tick), false)
    decreases |s.progs| - i
  {
    if i < |s.progs| {
      InvRuntime(s, i, tick, false);
      InvRuntimePass(CheckRuntime(s, i, tick), i + 1, tick);
    }
  }

  lemma PassesLeave(s: Sys, fates: seq<Fate>, answers: seq<Answer>)
    requires Inv(s, false)
    ensures var r := TickOnce(s, fates, answers); AliveUpTo(r.sys, |r.sys.progs|)
  {
    var s1 := FirstPass(s, 0, s.clock, fates);
    InvFirstPass(s, 0, s.clock, fates);
    InvFrame(s1, Erased(s1), false);
    InvRuntimePass(Erased(s1), 0, s.clock);
    ReapPassLeaves(RuntimePass(Erased(s1), 0, s.clock), 0, s.clock, answers, 0);
  }

  /** Every pid held is that of a running child of the program's own; and if no child is
      forgotten, no dead one is left. */
  ghost predicate Settled(s: Sys)
    requires Valid(s)
  {
    && (forall k :: 0 <= k < |s.progs| && s.progs[k].pid != 0 ==>
          s.progs[k].pid in s.children && s.children[s.progs[k].pid] == Child(k, None))
    && (PidsCurrent(s) ==> forall c :: c in s.children ==> s.children[c].status.None?)
  }

  lemma AliveIsSettled(s: Sys)
    requires Inv(s, false) && AliveUpTo(s, |s.progs|)
    ensures Settled(s)
  {
    forall k: nat | k < |s.progs| && s.progs[k].pid != 0
      ensures s.progs[k].pid in s.children && s.children[s.progs[k].pid] == Child(k, None)
    {
      assert Alive(s, k);
    }
    if PidsCurrent(s) {
      forall c | c in s.children ensures s.children[c].status.None? { assert Alive(s, s.children[c].owner); }
    }
  }

  /** Turn theorem: so it is when a turn of the main loop that began in a reachable state ends. */
  lemma TurnReapsAll(s: Sys, begun: int, fates: seq<Fate>, answers: seq<Answer>)
    requires Valid(s) && Reachable(s, begun) && s.on
    ensures Settled(TickOnce(s, fates, answers).sys)
  {
    var r := TickOnce(s, fates, answers).sys;
    ReachableIsSound(s, begun);
    PassesLeave(s, fates, answers);
    TickReachable(s, begun, fates, answers);
    ReachableIsSound(r, begun);
    AliveIsSettled(r);
  }
}
