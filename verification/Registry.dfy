/** The registry `running` always leads from an unreaped child to the program that forked
    it, so the thread never takes its "NULL Program?!" exit. A program has at most one child
    as long as the maxruntime pass finds no program over its limit, and no longer. */
module Registry {
  import opened Options
  import opened System
  import opened Machine

  /** Every unreaped child is registered for its owner, no other pid is registered for a
      program but 0, and every pid a program holds is an unreaped child of that program. */
  ghost predicate ChildrenRegistered(s: Sys) {
    && (forall c :: c in s.children ==>
          c > 0 && c in s.running && s.running[c] == Some(s.children[c].owner))
    && (forall c :: c != 0 && Registered(s, c) ==> c in s.children)
    && (forall k :: 0 <= k < |s.progs| && s.progs[k].pid != 0 ==>
          s.progs[k].pid in s.children && s.children[s.progs[k].pid].owner == k)
  }

  /** Every unreaped child is the one its owner's pid names. */
  ghost predicate PidsCurrent(s: Sys)
    requires Valid(s)
  {
    forall c :: c in s.children ==> s.progs[s.children[c].owner].pid == c
  }

  ghost predicate NoRuntimeLimits(s: Sys) {
    forall k :: 0 <= k < |s.progs| ==> s.progs[k].conf.limits.maxRuntime == -1
  }

  /** The invariant; its second half is lost when the maxruntime pass forgets a pid. */
  ghost predicate Inv(s: Sys, strict: bool) {
    && Valid(s)
    && ChildrenRegistered(s)
    && (strict ==> PidsCurrent(s))
  }

  /** Nothing the invariant speaks of differs. */
  ghost predicate Untouched(s: Sys, r: Sys) {
    && SameTable(s, r)
    && r.running == s.running && r.children == s.children
    && forall k :: 0 <= k < |s.progs| ==> r.progs[k].pid == s.progs[k].pid
  }

  lemma InvFrame(s: Sys, r: Sys, strict: bool)
    requires Inv(s, strict) && Valid(r) && Untouched(s, r)
    ensures Inv(r, strict)
  {
  }

  lemma InvStart(s: Sys, k: nat, fate: Fate, strict: bool)
    requires Inv(s, strict) && k < |s.progs|
    ensures Inv(StartProgram(s, k, fate), strict)
  {
  }

  lemma InvAction(s: Sys, k: nat, a: Action, limited: bool, fate: Fate, strict: bool)
    requires Inv(s, strict) && k < |s.progs|
    ensures Inv(ApplyAction(s, k, a, limited, fate), strict)
  {
    if a.kind.Exec? && Target(s.progs, k, a.prog) == k && a.after == 0 && !limited {
      InvStart(s, k, fate, strict);
    } else {
      InvFrame(s, ApplyAction(s, k, a, limited, fate), strict);
    }
  }

  lemma {:induction false} InvActions(s: Sys, k: nat, actions: seq<Action>, n: nat, limited: bool, fates: seq<Fate>, strict: bool)
    requires Inv(s, strict) && k < |s.progs| && n <= |actions|
    ensures Inv(ApplyActions(s, k, actions, n, limited, fates), strict)
  {
    if n > 0 {
      InvActions(s, k, actions, n - 1, limited, fates, strict);
      InvAction(ApplyActions(s, k, actions, n - 1, limited, fates), k, actions[n - 1], limited, FateAt(fates, n - 1), strict);
    }
  }

  lemma InvSequenceEnd(s: Sys, k: nat, res: int, sig: int, fates: seq<Fate>, strict: bool)
    requires Inv(s, strict) && k < |s.progs|
    ensures Inv(SequenceEnd(s, k, res, sig, fates), strict)
  {
    var al := GetActions(s.progs[k].conf, res, sig);
    if al.Some? {
      InvFrame(s, LogLimits(s, k), strict);
      InvActions(LogLimits(s, k), k, al.value, |al.value|, Limited(s, k), fates, strict);
    }
  }

  lemma InvWhatNext(s: Sys, k: nat, res: int, sig: int, fates: seq<Fate>, strict: bool)
    requires Inv(s, strict) && k < |s.progs|
    ensures Inv(WhatNext(s, k, res, sig, fates), strict)
  {
    var p := s.progs[k];
    var s1 := IncSeqIdx(s, k);
    InvFrame(s, s1, strict);
    if p.stopMode != 1 && p.seqIdx == |p.conf.cmds| - 1 {
      InvSequenceEnd(s1, k, res, sig, fates, strict);
    } else {
      InvFrame(s, WhatNext(s, k, res, sig, fates), strict);
    }
  }

  lemma InvBury(s: Sys, c: int, tEnd: int, strict: bool)
    requires Inv(s, strict) && c in s.children
    ensures Registered(s, c) && s.running[c].value == s.children[c].owner
    ensures Inv(BuryChild(s, c, s.running[c].value, tEnd), strict)
  {
  }

  lemma InvReap(s: Sys, c: int, tick: int, fates: seq<Fate>, strict: bool)
    requires Inv(s, strict) && c in s.children && s.children[c].status.Some?
    ensures Registered(s, c)
    ensures Inv(ReapChild(s, c, tick, fates), strict)
  {
    InvBury(s, c, tick, strict);
    var k := s.running[c].value;
    var status := s.children[c].status.value;
    var s1 := LogDeath(BuryChild(s, c, k, tick), k, status, tick);
    assert Inv(s1, strict);
    InvWhatNext(s1, k, ExitStatus(status), if Signaled(status) then TermSig(status) else 0, fates, strict);
  }

  lemma InvServeRun(s: Sys, i: nat, k: nat, fate: Fate, strict: bool)
    requires Inv(s, strict) && i < |s.sched| && k < |s.progs|
    ensures Inv(ServeRun(s, i, k, fate), strict)
  {
    var s1 := StartProgram(s, k, fate);
    InvStart(s, k, fate, strict);
    var s2 := Spend(s1, i);
    InvFrame(s1, s2, strict);
    InvEntry(s2, k, strict);
  }

  /** The first pass files the program under the pid it ends up with, 0 included. */
  lemma InvEntry(s: Sys, k: nat, strict: bool)
    requires Inv(s, strict) && k < |s.progs|
    ensures Inv(s.(running := s.running[s.progs[k].pid := Some(k)]), strict)
  {
  }

  lemma InvVisit(s: Sys, i: nat, tick: int, fate: Fate, strict: bool)
    requires Inv(s, strict) && i < |s.sched|
    ensures Inv(VisitUnit(s, i, tick, fate), strict)
  {
    var u := s.sched[i];
    match u.kind
    case RunProg => if u.at <= tick { InvServeRun(s, i, u.target.value, fate, strict); }
    case EndProg => if u.at <= tick { InvFrame(s, ServeEnd(s, i, u.target.value, tick), strict); }
    case _ => InvFrame(s, VisitUnit(s, i, tick, fate), strict);
  }

  lemma InvRuntime(s: Sys, k: nat, tick: int, strict: bool)
    requires Inv(s, strict) && k < |s.progs| && (strict ==> !OverRuntime(s.progs[k], s.clock))
    ensures Inv(CheckRuntime(s, k, tick), strict)
  {
  }

  /** A step of the maxruntime pass over a program that is over its limit. */
  ghost predicate Forgets(m: State, l: Label) {
    && l.Go? && m.phase.Runtimes? && m.phase.i < |m.sys.progs|
    && OverRuntime(m.sys.progs[m.phase.i], m.sys.clock)
  }

  lemma InvRound(m: State, a: Answer, strict: bool)
    requires WellFormed(m) && Inv(m.sys, strict) && m.phase != NullExit && (strict ==> !Forgets(m, Go(a)))
    ensures Inv(Round(m, a).sys, strict) && Round(m, a).phase != NullExit
  {
    match m.phase
    case Units(i) =>
      if i < |m.sys.sched| {
        InvVisit(m.sys, i, Tick(m), FateAt(a.fates, 0), strict);
      }
    case Runtimes(i) =>
      if i < |m.sys.progs| {
        InvRuntime(m.sys, i, Tick(m), strict);
      }
    case Reaping(i, pid) =>
      var c := WaitPidResult(m.sys.children, pid, a.hint);
      if c > 0 {
        InvReap(m.sys, c, Tick(m), a.fates, strict);
      }
    case _ => InvElsewhere(m, a, strict);
  }

  lemma InvElsewhere(m: State, a: Answer, strict: bool)
    requires WellFormed(m) && Inv(m.sys, strict) && m.phase != NullExit
    requires !m.phase.Units? && !m.phase.Runtimes? && !m.phase.Reaping?
    ensures Inv(Round(m, a).sys, strict) && Round(m, a).phase != NullExit
  {
    match m.phase
    case Grace(i, _, _, _) =>
      if i < |m.sys.progs| {
        var c := WaitPidResult(m.sys.children, m.sys.progs[i].pid, a.hint);
        if c > 0 { InvBury(m.sys, c, m.begun, strict); }
      }
    case Aftermath(_, _, _) =>
      var c := WaitPidResult(m.sys.children, 0, a.hint);
      if c > 0 { InvBury(m.sys, c, m.begun, strict); }
    case _ =>
  }

  lemma InvMove(m: State, l: Label, strict: bool)
    requires WellFormed(m) && Inv(m.sys, strict) && m.phase != NullExit && (strict ==> !Forgets(m, l))
    ensures Inv(Move(m, l).sys, strict) && Move(m, l).phase != NullExit
  {
    if l.Go? {
      InvRound(m, l.answer, strict);
    } else {
      InvEnvironment(m, l, strict);
    }
  }

  lemma InvEnvironment(m: State, l: Label, strict: bool)
    requires WellFormed(m) && Inv(m.sys, strict) && m.phase != NullExit && !l.Go?
    ensures Inv(Move(m, l).sys, strict) && Move(m, l).phase != NullExit
  {
    if l.Dies? {
      InvDie(m.sys, l.pid, l.status, strict);
    } else {
      InvFrame(m.sys, Move(m, l).sys, strict);
    }
  }

  lemma InvDie(s: Sys, pid: int, status: int, strict: bool)
    requires Inv(s, strict)
    ensures Inv(Die(s, pid, status), strict)
  {
  }

  lemma InvStep(m: State, l: Label, strict: bool)
    requires WellFormed(m) && Inv(m.sys, strict) && m.phase != NullExit && (strict ==> !Forgets(m, l))
    ensures Inv(Step(m, l).sys, strict) && Step(m, l).phase != NullExit
  {
    InvMove(m, l, strict);
  }

  lemma {:induction false} InvRun(m: State, labels: seq<Label>, strict: bool)
    requires Initial(m) && (strict ==> NeverForgets(m, labels))
    ensures Inv(Run(m, labels).sys, strict) && Run(m, labels).phase != NullExit
    decreases |labels|
  {
    if labels != [] {
      var n := |labels| - 1;
      BeforeLast(m, labels, n, strict);
      InvRun(m, labels[..n], strict);
      InvStep(Run(m, labels[..n]), labels[n], strict);
    }
  }

  lemma BeforeLast(m: State, labels: seq<Label>, n: nat, strict: bool)
    requires WellFormed(m) && n < |labels| && (strict ==> NeverForgets(m, labels))
    ensures strict ==> NeverForgets(m, labels[..n]) && !Forgets(Run(m, labels[..n]), labels[n])
  {
    if strict { NeverForgetsBefore(m, labels, n); }
  }

  /** Registry theorem, maxruntime limits included. */
  lemma RegistryHolds(m: State, labels: seq<Label>)
    requires Initial(m)
    ensures ChildrenRegistered(Run(m, labels).sys)
    ensures Run(m, labels).phase != NullExit
  {
    InvRun(m, labels, false);
  }

  // ------------------------------------------------------ one child per program

  /** In no step of the run does the maxruntime pass find a program over its limit. */
  ghost predicate NeverForgets(m: State, labels: seq<Label>)
    requires WellFormed(m)
  {
    forall n :: 0 <= n < |labels| ==> !Forgets(Run(m, labels[..n]), labels[n])
  }

  /** In every state of the run each child is the one its owner's pid names. */
  ghost predicate AlwaysCurrent(m: State, labels: seq<Label>)
    requires WellFormed(m)
  {
    forall n :: 0 <= n <= |labels| ==> PidsCurrent(Run(m, labels[..n]).sys)
  }

  lemma NeverForgetsBefore(m: State, labels: seq<Label>, n: nat)
    requires WellFormed(m) && NeverForgets(m, labels) && n <= |labels|
    ensures NeverForgets(m, labels[..n])
    ensures n < |labels| ==> !Forgets(Run(m, labels[..n]), labels[n])
  {
    forall j | 0 <= j < n ensures !Forgets(Run(m, labels[..n][..j]), labels[..n][j]) {
      assert labels[..n][..j] == labels[..j];
    }
  }

  lemma RunNext(m: State, labels: seq<Label>, n: nat)
    requires WellFormed(m) && n < |labels|
    ensures Run(m, labels[..n + 1]) == Step(Run(m, labels[..n]), labels[n])
  {
    assert labels[..n + 1][..n] == labels[..n];
  }

  /** The maxruntime pass forgets a child that still has to be waited for. */
  lemma ForgettingShows(m: State, l: Label)
    requires WellFormed(m) && Inv(m.sys, true) && Forgets(m, l)
    ensures !PidsCurrent(Step(m, l).sys)
  {
    var k := m.phase.i;
    var c := m.sys.progs[k].pid;
    var r := Step(m, l).sys;
    assert r == CheckRuntime(m.sys, k, Tick(m));
    assert c in r.children && r.children[c].owner == k && r.progs[k].pid == 0;
  }

  /** Every program's pid names its only child throughout a run if and only if the maxruntime
      pass never finds a program over its limit in it. */
  lemma CurrentIffNeverForgets(m: State, labels: seq<Label>)
    requires Initial(m)
    ensures AlwaysCurrent(m, labels) <==> NeverForgets(m, labels)
  {
    if NeverForgets(m, labels) {
      forall n | 0 <= n <= |labels| ensures PidsCurrent(Run(m, labels[..n]).sys) {
        NeverForgetsBefore(m, labels, n);
        InvRun(m, labels[..n], true);
      }
    }
    if AlwaysCurrent(m, labels) {
      forall n | 0 <= n < |labels| ensures !Forgets(Run(m, labels[..n]), labels[n]) {
        InvRun(m, labels[..n], false);
        RunNext(m, labels, n);
        if Forgets(Run(m, labels[..n]), labels[n]) {
          ForgettingShows(Run(m, labels[..n]), labels[n]);
        }
      }
    }
  }

  /** As long as the maxruntime pass finds no program over its limit the programs with a pid
      and the unreaped children are in bijection, both ways through `pid` and `running`. */
  lemma OneChildPerProgram(m: State, labels: seq<Label>)
    requires Initial(m) && NeverForgets(m, labels)
    ensures var s := Run(m, labels).sys;
            && (forall c, d :: c in s.children && d in s.children && s.children[c].owner == s.children[d].owner ==> c == d)
            && (forall c :: c in s.children ==>
                  Registered(s, c) && s.progs[s.running[c].value].pid == c)
            && (forall k :: 0 <= k < |s.progs| && s.progs[k].pid != 0 ==>
                  s.progs[k].pid in s.children && s.running[s.progs[k].pid] == Some(k))
  {
    InvRun(m, labels, true);
  }

  /** Without maxruntime limits there is nothing to find, in any run. */
  lemma NoLimitsNeverForget(m: State, labels: seq<Label>)
    requires WellFormed(m) && NoRuntimeLimits(m.sys)
    ensures NeverForgets(m, labels)
  {
    forall n | 0 <= n < |labels| ensures !Forgets(Run(m, labels[..n]), labels[n]) {
      var s := Run(m, labels[..n]).sys;
      assert SameTable(m.sys, s);
    }
  }
}
