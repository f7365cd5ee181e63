/** Whole runs of the kernel: outcomes of waits, timing, and conservation. */
module KernelRuns {
  import opened Options
  import opened KernelModel
  import opened KernelSafety

  // A run with the states between its steps.  Nothing is asked of the states
  // but that each step was possible and did what Apply says.
  ghost predicate Next(s: Sys, a: Step, s': Sys) {
    Enabled(s, a) && (Inv(s) ==> s' == Apply(s, a))
  }

  ghost predicate IsTrace(ss: seq<Sys>, run: seq<Step>) {
    && |ss| == |run| + 1 && Inv(ss[0])
    && forall n :: 0 <= n < |run| ==> Next(ss[n], run[n], ss[n + 1])
  }

  lemma {:induction false} TraceKeeps(ss: seq<Sys>, run: seq<Step>, n: nat)
    requires IsTrace(ss, run) && n < |ss|
    ensures Inv(ss[n])
  {
    if n > 0 {
      TraceKeeps(ss, run, n - 1);
      assert Next(ss[n - 1], run[n - 1], ss[n]);
      StepKeeps(ss[n - 1], run[n - 1]);
    }
  }

  // The system as OSInit leaves it: the idle task, and events nobody waits on.
  ghost predicate Init(s: Sys) {
    && s.k.tasks == map[s.k.idle := NEW_TASK] && s.k.ready == {s.k.idle}
    && s.calls == map[s.k.idle := Outside]
    && forall e :: 0 <= e < |s.k.events| ==> s.k.events[e].waiters == {}
  }

  lemma InitKeeps(s: Sys)
    requires Init(s)
    ensures Inv(s)
  {
    assert TaskOk(s.k, s.k.idle, s.calls[s.k.idle]);
  }

  // The tables of OSInit, after creating the idle task and any events, are
  // such a system.
  lemma BootIsInit(idle: Prio, events: seq<Event>)
    requires forall e :: 0 <= e < |events| ==> events[e].waiters == {}
    ensures Init(Sys(Create(Kernel(idle, map[], {}, events), idle), map[idle := Outside]))
  {
    var k := Create(Kernel(idle, map[], {}, events), idle);
    assert k.tasks == map[idle := NEW_TASK] && k.ready == {idle};
  }

  // In every run from OSInit, wait lists and ready list tell the truth.
  lemma ReachableStates(ss: seq<Sys>, run: seq<Step>, n: nat)
    requires |ss| == |run| + 1 && Init(ss[0]) && n < |ss|
    requires forall m :: 0 <= m < |run| ==> Next(ss[m], run[m], ss[m + 1])
    ensures var s := ss[n];
      && ListsOk(s) && NoIdleUnit(s.k) && s.k.idle in s.k.ready
      && forall e, p :: 0 <= e < |s.k.events| && p in s.k.ready && p in s.k.events[e].waiters ==>
           p in s.k.tasks && s.k.tasks[p].statPend == PendTo
  {
    var s := ss[n];
    InitKeeps(ss[0]);
    TraceKeeps(ss, run, n);
    forall e, p | 0 <= e < |s.k.events| && p in s.k.ready && p in s.k.events[e].waiters
      ensures p in s.k.tasks && s.k.tasks[p].statPend == PendTo
    {
      ReadyInListTimedOut(s, p, e);
    }
  }

  // ---------------------------------------------------------------------
  // What a stretch run[i..j] did to task p.

  // The task a post or abort step serves, and with what.
  ghost function HandedTo(s: Sys, a: Step, p: Prio): Option<Delivery> {
    match a
    case DoPost(e, msg) =>
      if e < |s.k.events| && s.k.events[e].waiters != {} && Least(s.k.events[e].waiters) == p
      then Some(Delivery(e, msg, PendOk)) else None
    case DoAbort(e) =>
      if e < |s.k.events| && s.k.events[e].waiters != {} && Least(s.k.events[e].waiters) == p
      then Some(Delivery(e, NULL_MSG, PendAbort)) else None
    case _ => None
  }

  function AsSeq<T>(o: Option<T>): seq<T> {
    if o.Some? then [o.value] else []
  }

  ghost function Deliveries(ss: seq<Sys>, run: seq<Step>, i: nat, j: nat, p: Prio): seq<Delivery>
    requires |ss| == |run| + 1 && i <= j <= |run|
    decreases j
  {
    if i == j then []
    else Deliveries(ss, run, i, j - 1, p) + AsSeq(HandedTo(ss[j - 1], run[j - 1], p))
  }

  // How often OSTimeTick came to p.
  function Ticks(run: seq<Step>, i: nat, j: nat, p: Prio): nat
    requires i <= j <= |run|
    decreases j
  {
    if i == j then 0 else Ticks(run, i, j - 1, p) + if run[j - 1] == DoTick(p) then 1 else 0
  }

  predicate CutShort(run: seq<Step>, i: nat, j: nat, p: Prio)
    requires i <= j <= |run|
  {
    exists m :: i <= m < j && run[m] == DoDelayResume(p)
  }

  // ---------------------------------------------------------------------
  // One step seen by a task inside a pend service.

  // A step that neither serves p nor names it nor runs down its delay.
  ghost predicate Touches(s: Sys, a: Step, p: Prio)
    requires Enabled(s, a)
  {
    match a
    case PendOne(q, _, _) => q == p
    case PendMany(q, _, _) => q == p
    case Wake(q) => q == p
    case DoPost(_, _) => HandedTo(s, a, p).Some?
    case DoAbort(_) => HandedTo(s, a, p).Some?
    case DoTick(q) => q == p && s.k.tasks[p].dly > 0
    case DoDelay(q, _) => q == p
    case DoDelayResume(q) => q == p && p in s.k.tasks && s.k.tasks[p].dly > 0
    case DoSuspend(q) => q == p
    case DoResume(q) => q == p
    case DoCreate(q) => q == p
  }

  lemma Untouched(s: Sys, a: Step, p: Prio)
    requires Inv(s) && Enabled(s, a) && p in s.k.tasks && !Touches(s, a, p)
    ensures var s' := Apply(s, a);
      && p in s'.k.tasks && s'.k.tasks[p] == s.k.tasks[p] && s'.calls[p] == s.calls[p]
      && (p in s'.k.ready <==> p in s.k.ready)
  {
    match a
    case DoPost(e, _) => if s.k.events[e].waiters != {} { var q := ChosenIsWaiting(s, e); }
    case DoAbort(e) => if s.k.events[e].waiters != {} { var q := ChosenIsWaiting(s, e); }
    case PendMany(_, es, _) =>
    case _ =>
  }

  lemma Served(s: Sys, a: Step, p: Prio)
    requires Inv(s) && Enabled(s, a) && HandedTo(s, a, p).Some?
    ensures p in s.k.tasks && s.calls[p].Inside? && s.calls[p].done.None?
    ensures HandedTo(s, a, p).value.e in s.calls[p].es
    ensures Apply(s, a).calls == s.calls[p := s.calls[p].(done := HandedTo(s, a, p))]
  {
    match a
    case DoPost(e, _) => { var q := ChosenIsWaiting(s, e); }
    case DoAbort(e) => { var q := ChosenIsWaiting(s, e); }
  }

  // ---------------------------------------------------------------------
  // The story of one wait.

  // Not ready, and still marked as waiting whether or not it is suspended.
  ghost predicate HeldIn(k: Kernel, p: Prio) {
    p in k.tasks && p !in k.ready && k.tasks[p].stat & !STAT_SUSPEND != 0
  }

  // What must be true of p after a stretch that handed it ds, brought OSTimeTick
  // to it `ticks` times, and did or did not call OSTimeDlyResume on it.
  ghost predicate Story(s: Sys, p: Prio, c: Call, timeout: nat, ds: seq<Delivery>, ticks: nat, cut: bool)
    requires c.Inside?
  {
    && |ds| <= 1 && (forall d :: d in ds ==> d.e in c.es)
    && p in s.k.tasks && p in s.calls
    && s.calls[p] == c.(done := if ds == [] then None else Some(ds[0]))
    && (ds == [] && timeout == 0 ==> s.k.tasks[p].dly == 0 && HeldIn(s.k, p))
    && (ds == [] && timeout > 0 && !cut ==>
          && s.k.tasks[p].dly == (if ticks < timeout then timeout - ticks else 0)
          && (ticks < timeout ==> HeldIn(s.k, p)))
  }

  // The four steps that can change p's control block inside its call.
  lemma TickInside(k: Kernel, p: Prio)
    requires p in k.tasks && p != k.idle
    ensures var k' := TickOne(k, p); var dly := k.tasks[p].dly;
      && p in k'.tasks && k'.tasks[p].dly == (if dly == 0 then 0 else dly - 1)
      && (HeldIn(k, p) && (dly == 0 || dly > 1) ==> HeldIn(k', p))
  {
  }

  lemma SuspendInside(k: Kernel, p: Prio)
    requires p in k.tasks
    ensures var k' := Suspend(k, p);
      k'.tasks[p].dly == k.tasks[p].dly && (HeldIn(k, p) ==> HeldIn(k', p))
  {
  }

  lemma ResumeInside(k: Kernel, p: Prio)
    requires p in k.tasks
    ensures var k' := Resume(k, p);
      k'.tasks[p].dly == k.tasks[p].dly && (HeldIn(k, p) ==> HeldIn(k', p))
  {
  }

  // A step that does not serve p, seen by p inside its call.
  lemma InsideStep(s: Sys, a: Step, p: Prio)
    requires Inv(s) && Enabled(s, a) && p in s.k.tasks && s.calls[p].Inside?
    requires a != Wake(p) && HandedTo(s, a, p).None?
    ensures var s' := Apply(s, a); var dly := s.k.tasks[p].dly;
      && p in s'.k.tasks && p in s'.calls && s'.calls[p] == s.calls[p]
      && s'.k.tasks[p].dly == (if a == DoDelayResume(p) || (a == DoTick(p) && dly <= 1) then 0
                               else if a == DoTick(p) then dly - 1 else dly)
      && (HeldIn(s.k, p) && (dly == 0 || s'.k.tasks[p].dly > 0) ==> HeldIn(s'.k, p))
  {
    if !Touches(s, a, p) {
      Untouched(s, a, p);
    } else {
      match a
      case DoTick(_) => TickInside(s.k, p);
      case DoDelayResume(_) =>
      case DoSuspend(_) => SuspendInside(s.k, p);
      case DoResume(_) => ResumeInside(s.k, p);
    }
  }

  lemma StoryServed(s: Sys, a: Step, s': Sys, p: Prio, c: Call, timeout: nat, ds: seq<Delivery>, ticks: nat,
                    cut: bool)
    requires Inv(s) && Next(s, a, s') && c.Inside? && Story(s, p, c, timeout, ds, ticks, cut)
    requires HandedTo(s, a, p).Some?
    ensures ds == [] && Story(s', p, c, timeout, AsSeq(HandedTo(s, a, p)), ticks, cut)
  {
    Served(s, a, p);
    assert ds == [];
    StepKeeps(s, a);
    assert p in s'.calls && s'.calls.Keys == s'.k.tasks.Keys;
  }

  lemma StoryOther(s: Sys, a: Step, s': Sys, p: Prio, c: Call, timeout: nat, ds: seq<Delivery>, ticks: nat,
                   cut: bool)
    requires Inv(s) && Next(s, a, s') && c.Inside? && a != Wake(p) && Story(s, p, c, timeout, ds, ticks, cut)
    requires HandedTo(s, a, p).None?
    ensures Story(s', p, c, timeout, ds, ticks + (if a == DoTick(p) then 1 else 0), cut || a == DoDelayResume(p))
  {
    InsideStep(s, a, p);
  }

  lemma StoryStep(s: Sys, a: Step, s': Sys, p: Prio, c: Call, timeout: nat, ds: seq<Delivery>, ticks: nat, cut: bool)
    requires Inv(s) && Next(s, a, s') && c.Inside? && a != Wake(p) && Story(s, p, c, timeout, ds, ticks, cut)
    ensures Story(s', p, c, timeout, ds + AsSeq(HandedTo(s, a, p)),
                  ticks + (if a == DoTick(p) then 1 else 0), cut || a == DoDelayResume(p))
  {
    if HandedTo(s, a, p).Some? {
      StoryServed(s, a, s', p, c, timeout, ds, ticks, cut);
      assert ds + AsSeq(HandedTo(s, a, p)) == AsSeq(HandedTo(s, a, p));
    } else {
      StoryOther(s, a, s', p, c, timeout, ds, ticks, cut);
      assert ds + AsSeq(HandedTo(s, a, p)) == ds;
    }
  }

  lemma CutShortStep(run: seq<Step>, i: nat, j: nat, p: Prio)
    requires i < j <= |run|
    ensures CutShort(run, i, j, p) <==> CutShort(run, i, j - 1, p) || run[j - 1] == DoDelayResume(p)
  {
  }

  lemma {:induction false} StoryHolds(ss: seq<Sys>, run: seq<Step>, i: nat, j: nat, p: Prio, c: Call, timeout: nat)
    requires IsTrace(ss, run) && i <= j <= |run| && c.Inside?
    requires Story(ss[i], p, c, timeout, [], 0, false)
    requires forall m :: i <= m < j ==> run[m] != Wake(p)
    ensures Story(ss[j], p, c, timeout, Deliveries(ss, run, i, j, p), Ticks(run, i, j, p), CutShort(run, i, j, p))
    decreases j
  {
    if i < j {
      StoryHolds(ss, run, i, j - 1, p, c, timeout);
      TraceKeeps(ss, run, j - 1);
      CutShortStep(run, i, j, p);
      StoryStep(ss[j - 1], run[j - 1], ss[j], p, c, timeout, Deliveries(ss, run, i, j - 1, p),
                Ticks(run, i, j - 1, p), CutShort(run, i, j - 1, p));
    }
  }

  // What p's call returns is decided by its ghost record.
  lemma WakeReturns(s: Sys, p: Prio)
    requires Inv(s) && Enabled(s, Wake(p))
    ensures WakeStep(s, p).1 ==
      match s.calls[p].done
      case None => TimedOut
      case Some(d) => if d.st.PendAbort? then Aborted(d.e) else GotEvent(d.e, d.msg)
  {
    assert TaskOk(s.k, p, s.calls[p]);
  }

  // Step a blocked p, and c is its wait in the state s' after it.
  predicate BlockedBy(a: Step, s': Sys, p: Prio, c: Call, timeout: nat) {
    && c.Inside? && c.done.None?
    && (a == PendOne(p, if c.es == [] then 0 else c.es[0], timeout) || a == PendMany(p, c.es, timeout))
    && p in s'.calls && s'.calls[p] == c
  }

  lemma OnlyInside(a: Step, s': Sys, p: Prio, c: Call, timeout: nat)
    requires BlockedBy(a, s', p, c, timeout)
    ensures c.Inside?
  {
  }

  lemma BlockStarts(s: Sys, a: Step, s': Sys, p: Prio, c: Call, timeout: nat)
    requires Inv(s) && Next(s, a, s') && BlockedBy(a, s', p, c, timeout)
    ensures Story(s', p, c, timeout, [], 0, false)
  {
    StepKeeps(s, a);
    assert TaskOk(s'.k, p, c);
  }

  ghost predicate Outcome(res: PendResult, c: Call, timeout: nat, ds: seq<Delivery>, ticks: nat, cut: bool)
    requires c.Inside?
  {
    && |ds| <= 1
    && (|ds| == 1 ==>
          && ds[0].e in c.es
          && res == if ds[0].st.PendAbort? then Aborted(ds[0].e) else GotEvent(ds[0].e, ds[0].msg))
    && (ds == [] ==> res == TimedOut && timeout > 0 && (timeout <= ticks || cut))
  }

  lemma StoryEnds(s: Sys, p: Prio, c: Call, timeout: nat, ds: seq<Delivery>, ticks: nat, cut: bool)
    requires Inv(s) && Enabled(s, Wake(p)) && c.Inside? && Story(s, p, c, timeout, ds, ticks, cut)
    ensures Outcome(WakeStep(s, p).1, c, timeout, ds, ticks, cut)
  {
    WakeReturns(s, p);
  }

  // Every blocked wait has exactly one outcome.  If step i blocks p and step j
  // is the first time p runs again, then the steps between handed p at most
  // one event; the call returns that event and its message (or its abort);
  // if there was none, it returns a timeout, and then the timeout was nonzero
  // and OSTimeTick came to p that often (or OSTimeDlyResume ended it early).
  lemma OneOutcome(ss: seq<Sys>, run: seq<Step>, i: nat, j: nat, p: Prio, c: Call, timeout: nat)
    requires IsTrace(ss, run) && i < j < |run|
    requires BlockedBy(run[i], ss[i + 1], p, c, timeout)
    requires run[j] == Wake(p) && forall m :: i < m < j ==> run[m] != Wake(p)
    ensures Inv(ss[j]) && Enabled(ss[j], Wake(p))
    ensures Outcome(WakeStep(ss[j], p).1, c, timeout, Deliveries(ss, run, i + 1, j, p), Ticks(run, i + 1, j, p),
                    CutShort(run, i + 1, j, p))
  {
    hide Inv, Enabled, Apply, Story, Outcome, WakeStep, BlockedBy;
    assert c.Inside? by { OnlyInside(run[i], ss[i + 1], p, c, timeout); }
    TraceKeeps(ss, run, i);
    TraceKeeps(ss, run, j);
    assert Next(ss[i], run[i], ss[i + 1]);
    BlockStarts(ss[i], run[i], ss[i + 1], p, c, timeout);
    StoryHolds(ss, run, i + 1, j, p, c, timeout);
    assert Next(ss[j], run[j], ss[j + 1]);
    StoryEnds(ss[j], p, c, timeout, Deliveries(ss, run, i + 1, j, p), Ticks(run, i + 1, j, p),
              CutShort(run, i + 1, j, p));
  }

  // ---------------------------------------------------------------------
  // A delay of n runs out on exactly the n-th visit of OSTimeTick.

  // The steps from i up to j name p nowhere and hand it nothing.
  ghost predicate LeftAlone(ss: seq<Sys>, run: seq<Step>, i: nat, j: nat, p: Prio)
    requires |ss| == |run| + 1 && i <= j <= |run|
  {
    forall m :: i <= m < j ==> Enabled(ss[m], run[m]) && (run[m] == DoTick(p) || !Touches(ss[m], run[m], p))
  }

  lemma AloneStep(s: Sys, a: Step, s': Sys, p: Prio)
    requires Inv(s) && Next(s, a, s') && p in s.k.tasks && p != s.k.idle
    requires a == DoTick(p) || !Touches(s, a, p)
    ensures var t := s.k.tasks[p];
      && p in s'.k.tasks && s'.k.idle == s.k.idle
      && s'.k.tasks[p] == (if a == DoTick(p) then TickTask(t) else t)
      && (p in s'.k.ready <==> p in s.k.ready || (a == DoTick(p) && TickReadies(t)))
  {
    if a != DoTick(p) { Untouched(s, a, p); }
  }

  lemma {:induction false} DelayRunsOut(ss: seq<Sys>, run: seq<Step>, i: nat, j: nat, p: Prio)
    requires IsTrace(ss, run) && i <= j <= |run| && LeftAlone(ss, run, i, j, p)
    requires p in ss[i].k.tasks && p != ss[i].k.idle && ss[i].k.tasks[p].dly > 0
    ensures var s := ss[j]; var t := ss[i].k.tasks[p]; var m := Ticks(run, i, j, p);
      && p in s.k.tasks && s.k.idle == ss[i].k.idle
      && s.k.tasks[p] == (if m < t.dly then t.(dly := t.dly - m) else Expire(t))
      && s.k.tasks[p].dly == (if m < t.dly then t.dly - m else 0)
      && (p in s.k.ready <==> p in ss[i].k.ready || (m >= t.dly && !Suspended(t)))
    decreases j
  {
    hide Inv, Next, Touches;
    if i < j {
      DelayRunsOut(ss, run, i, j - 1, p);
      TraceKeeps(ss, run, j - 1);
      assert Next(ss[j - 1], run[j - 1], ss[j]);
      AloneStep(ss[j - 1], run[j - 1], ss[j], p);
    }
  }
}
