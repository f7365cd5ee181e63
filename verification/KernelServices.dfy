/** What the services do to a task, stated on the control block and the ready
  list alone: no clause below refers to the functions that compute it.  Status
  bits appear as in ucos_ii.h: 0x08 is OS_STAT_SUSPEND, 0x37 OS_STAT_PEND_ANY.
*/
module KernelServices {
  import opened Options
  import opened KernelModel
  import opened KernelSafety
  import opened KernelRuns

  // Everything but task p is as before.
  ghost predicate OnlyTask(s: Sys, s': Sys, p: Prio) {
    && p in s.k.tasks && s'.k.tasks.Keys == s.k.tasks.Keys
    && s'.calls == s.calls && s'.k.events == s.k.events && s'.k.idle == s.k.idle
    && (forall q :: q in s.k.tasks && q != p ==> s'.k.tasks[q] == s.k.tasks[q])
    && (forall q :: q != p ==> (q in s'.k.ready <==> q in s.k.ready))
  }

  // OSTimeDly: the running task sleeps, for exactly the ticks it asked for.
  lemma DelayStarts(s: Sys, p: Prio, n: nat, s': Sys)
    requires Inv(s) && Next(s, DoDelay(p, n), s')
    ensures OnlyTask(s, s', p) && n > 0
    ensures s'.k.tasks[p] == s.k.tasks[p].(dly := n) && s'.k.tasks[p].stat == 0 && p !in s'.k.ready
  {
    OutsideTask(s, p);
    hide Inv;
  }

  // OSTaskSuspend: not ready, and marked; nothing else changes.
  lemma SuspendStops(s: Sys, p: Prio, s': Sys)
    requires Inv(s) && Next(s, DoSuspend(p), s')
    ensures OnlyTask(s, s', p) && p !in s'.k.ready
    ensures var t, t' := s.k.tasks[p], s'.k.tasks[p];
      t' == t.(stat := t'.stat) && t'.stat & 0x08 != 0 && t'.stat & 0xF7 == t.stat & 0xF7
  {
    hide Inv;
  }

  // What but a suspension can hold a task.
  lemma OtherStatus(s: Sys, p: Prio)
    requires Inv(s) && p in s.k.tasks
    ensures p in s.calls && (s.k.tasks[p].stat & 0x08 != 0 ==> p !in s.k.ready)
    ensures s.calls[p].Outside? ==> s.k.tasks[p].stat & 0xF7 == 0
    ensures s.calls[p].Inside? ==>
              && (s.k.tasks[p].stat & 0xF7 == 0 <==> WaitIsOver(s, p) && !s.calls[p].multi)
              && (WaitIsOver(s, p) ==> s.k.tasks[p].dly == 0)
  {
    assert TaskOk(s.k, p, s.calls[p]);
    var stat := s.k.tasks[p].stat;
    hide NoIdleUnit, ListsOk;
    assert !STAT_SUSPEND == 0xF7;
    assert stat & STAT_MULTI != 0 ==> stat & 0xF7 != 0;
    assert stat & STAT_PEND_ANY != 0 ==> stat & 0xF7 != 0;
  }

  lemma LiftedBits(stat: bv8)
    ensures var lifted := stat & !STAT_SUSPEND;
      lifted & 0x08 == 0 && lifted & 0xF7 == stat & 0xF7 && (lifted == 0 <==> stat & 0xF7 == 0)
  {
  }

  // OSTaskResume: not marked any more, and no other bit changes.  A task that
  // was suspended is ready afterwards exactly if nothing else holds it: outside
  // the pend services no delay, inside them a single-event wait that is over.
  lemma ResumeLifts(s: Sys, p: Prio, s': Sys)
    requires Inv(s) && Next(s, DoResume(p), s')
    ensures OnlyTask(s, s', p) && p in s.calls
    ensures var t, t' := s.k.tasks[p], s'.k.tasks[p];
      && t' == t.(stat := t'.stat) && t'.stat & 0x08 == 0 && t'.stat & 0xF7 == t.stat & 0xF7
      && (t.stat & 0x08 == 0 ==> s' == s)
      && (t.stat & 0x08 != 0 ==>
            (p in s'.k.ready <==> if s.calls[p].Outside? then t.dly == 0 else WaitIsOver(s, p) && !s.calls[p].multi))
  {
    OtherStatus(s, p);
    hide Inv, WaitIsOver;
    LiftedBits(s.k.tasks[p].stat);
  }

  // OSTimeDlyResume: a delay or a timeout ends at once, and the task is ready
  // unless it is suspended; a task without a delay is left alone.
  lemma DelayEnds(s: Sys, p: Prio, s': Sys)
    requires Inv(s) && Next(s, DoDelayResume(p), s')
    ensures p in s.k.tasks && (s.k.tasks[p].dly == 0 ==> s' == s)
    ensures s.k.tasks[p].dly > 0 ==> OnlyTask(s, s', p) && Ended(s.k.tasks[p], s'.k.tasks[p])
    ensures s.k.tasks[p].dly > 0 ==> (p in s'.k.ready <==> s.k.tasks[p].stat & 0x08 == 0)
  {
    if s.k.tasks[p].dly > 0 { NotWhileDelayed(s, p); }
    hide Inv;
  }

  // A delay ran out: the pend bits go, and were there any, it was a timeout.
  predicate Ended(t: Task, t': Task) {
    && t' == t.(dly := 0, stat := t'.stat, statPend := t'.statPend)
    && t'.stat & 0x37 == 0 && t'.stat & 0xC8 == t.stat & 0xC8
    && t'.statPend == if t.stat & 0x37 != 0 then PendTo else PendOk
  }

  lemma NotWhileDelayed(s: Sys, p: Prio)
    requires Inv(s) && p in s.k.tasks && s.k.tasks[p].dly > 0
    ensures p !in s.k.ready
  {
    assert TaskOk(s.k, p, s.calls[p]);
  }

  // OSTimeTick at one task: the delay counts down, and its end is that of
  // OSTimeDlyResume.
  lemma TickCounts(s: Sys, p: Prio, s': Sys)
    requires Inv(s) && Next(s, DoTick(p), s')
    ensures OnlyTask(s, s', p)
    ensures var t, t' := s.k.tasks[p], s'.k.tasks[p];
      if t.dly == 0 then t' == t && (p in s'.k.ready <==> p in s.k.ready)
      else if t.dly == 1 then Ended(t, t') && (p in s'.k.ready <==> t.stat & 0x08 == 0)
      else t' == t.(dly := t.dly - 1) && p !in s'.k.ready
  {
    if s.k.tasks[p].dly > 0 { NotWhileDelayed(s, p); }
    hide Inv;
  }

  // OSTaskCreate: the new task is ready, with no delay, status or wait.
  lemma CreateStarts(s: Sys, p: Prio, s': Sys)
    requires Inv(s) && Next(s, DoCreate(p), s')
    ensures p !in s.k.tasks && s'.k.tasks == s.k.tasks[p := Task(0, 0, PendOk, None, None, 0)]
    ensures s'.k.ready == s.k.ready + {p} && s'.k.events == s.k.events && s'.calls == s.calls[p := Outside]
  {
    hide Inv;
  }

  // ---------------------------------------------------------------------
  // The start of a wait.

  ghost predicate Lists(events: seq<Event>, es: seq<EventId>, kind: Kind)
    requires InRange(events, es)
  {
    exists i :: 0 <= i < |es| && events[es[i]].kind == kind
  }

  // The status bits collected by a poll that finds nothing.
  lemma {:induction false} PolledBits(events: seq<Event>, es: seq<EventId>)
    requires Pendable(events, es) && Poll(events, es).taken == []
    ensures var stat := Poll(events, es).stat;
      && (stat & 0x01 != 0 <==> Lists(events, es, Sem)) && (stat & 0x02 != 0 <==> Lists(events, es, Mbox))
      && (stat & 0x04 != 0 <==> Lists(events, es, Queue)) && stat & 0xF8 == 0
    decreases |es|
  {
    if es != [] {
      var init, e := es[..|es| - 1], es[|es| - 1];
      PolledBits(events, init);
      PollEmpty(events, init);
      OneMoreBit(Poll(events, init).stat, events[e].kind);
      ListsMore(events, es, Sem);
      ListsMore(events, es, Mbox);
      ListsMore(events, es, Queue);
      hide Lists, TypeBit;
    }
  }

  lemma ListsMore(events: seq<Event>, es: seq<EventId>, kind: Kind)
    requires InRange(events, es) && es != []
    ensures Lists(events, es, kind) <==> Lists(events, es[..|es| - 1], kind) || events[es[|es| - 1]].kind == kind
  {
    var init := es[..|es| - 1];
    assert forall i :: 0 <= i < |init| ==> es[i] == init[i];
  }

  lemma OneMoreBit(stat: bv8, kind: Kind)
    requires stat & 0xF8 == 0 && kind != Other
    ensures var more := stat | TypeBit(kind);
      && (more & 0x01 != 0 <==> stat & 0x01 != 0 || kind == Sem)
      && (more & 0x02 != 0 <==> stat & 0x02 != 0 || kind == Mbox)
      && (more & 0x04 != 0 <==> stat & 0x04 != 0 || kind == Queue) && more & 0xF8 == 0
  {
  }

  // p was added to the wait lists of es, and nothing else changed.
  ghost predicate JoinedLists(events: seq<Event>, events': seq<Event>, p: Prio, es: seq<EventId>) {
    |events'| == |events| && forall e :: 0 <= e < |events| ==>
      && SameUnits(events'[e], events[e])
      && forall q :: q in events'[e].waiters <==> q in events[e].waiters || (q == p && e in es)
  }

  // The status of a task that waits on es.
  ghost predicate MarkedFor(stat: bv8, events: seq<Event>, es: seq<EventId>, multi: bool)
    requires InRange(events, es)
  {
    && (stat & 0x01 != 0 <==> Lists(events, es, Sem)) && (stat & 0x02 != 0 <==> Lists(events, es, Mbox))
    && (stat & 0x04 != 0 <==> Lists(events, es, Queue)) && (stat & 0x80 != 0 <==> multi) && stat & 0x78 == 0
  }

  // A task that begins to wait leaves the ready list, joins the wait lists of
  // its events, has its timeout as its delay, and is marked with the kinds of
  // its events; nothing else changes.
  lemma WaitStarts(s: Sys, a: Step, s': Sys, p: Prio, c: Call, timeout: nat)
    requires Inv(s) && Next(s, a, s') && BlockedBy(a, s', p, c, timeout)
    ensures c.Inside? && p in s.k.tasks && Pendable(s.k.events, c.es) && s'.calls == s.calls[p := c]
    ensures s'.k.idle == s.k.idle && s'.k.ready == s.k.ready - {p} && p in s'.k.tasks
    ensures s'.k.tasks == s.k.tasks[p := s'.k.tasks[p]] && JoinedLists(s.k.events, s'.k.events, p, c.es)
    ensures var t := s'.k.tasks[p];
      t.dly == timeout && t.statPend == PendOk && MarkedFor(t.stat, s.k.events, c.es, c.multi)
  {
    OutsideTask(s, p);
    hide Inv, MarkedFor, JoinedLists;
    match a {
      case PendOne(_, e, _) =>
        assert c.es == [e];
        OneMark(s.k.events, e);
        JoinsLists(s.k.events, p, [e]);
      case PendMany(_, es, _) =>
        assert Poll(s.k.events, es).taken == [];
        MultiMark(s.k.events, es);
        JoinsLists(s.k.events, p, es);
    }
  }

  lemma JoinsLists(events: seq<Event>, p: Prio, es: seq<EventId>)
    ensures JoinedLists(events, Await(events, p, es), p, es)
  {
  }

  lemma OneMark(events: seq<Event>, e: EventId)
    requires e < |events| && events[e].kind != Other
    ensures MarkedFor(0 | TypeBit(events[e].kind), events, [e], false)
  {
    assert forall kind :: Lists(events, [e], kind) <==> events[[e][0]].kind == kind;
  }

  lemma MultiMark(events: seq<Event>, es: seq<EventId>)
    requires Pendable(events, es) && Poll(events, es).taken == []
    ensures MarkedFor(0 | (Poll(events, es).stat | STAT_MULTI), events, es, true)
  {
    PolledBits(events, es);
    MarkedMulti(Poll(events, es).stat);
  }

  lemma MarkedMulti(stat: bv8)
    requires stat & 0xF8 == 0
    ensures var marked := 0 | (stat | STAT_MULTI);
      && marked & 0x80 != 0 && marked & 0x78 == 0
      && marked & 0x01 == stat & 0x01 && marked & 0x02 == stat & 0x02 && marked & 0x04 == stat & 0x04
  {
  }

  // ---------------------------------------------------------------------
  // Over runs.

  // A task that delays itself for n ticks is ready again exactly from the n-th
  // visit of OSTimeTick on.
  lemma DelaySleeps(ss: seq<Sys>, run: seq<Step>, i: nat, j: nat, p: Prio, n: nat)
    requires IsTrace(ss, run) && i < j <= |run| && run[i] == DoDelay(p, n)
    requires LeftAlone(ss, run, i + 1, j, p)
    ensures p in ss[j].k.ready <==> Ticks(run, i + 1, j, p) >= n
    ensures p in ss[j].k.tasks && ss[j].k.tasks[p].dly ==
      if Ticks(run, i + 1, j, p) < n then n - Ticks(run, i + 1, j, p) else 0
  {
    TraceKeeps(ss, run, i);
    assert Next(ss[i], run[i], ss[i + 1]);
    DelayStarts(ss[i], p, n, ss[i + 1]);
    assert p != ss[i].k.idle;
    hide Inv, Next, Touches;
    DelayRunsOut(ss, run, i + 1, j, p);
  }

  lemma EveryTaskHasACall(s: Sys)
    requires Inv(s)
    ensures s.calls.Keys == s.k.tasks.Keys
  {
  }

  lemma {:induction false} NothingHappens(ss: seq<Sys>, run: seq<Step>, i: nat, j: nat, p: Prio)
    requires IsTrace(ss, run) && i <= j <= |run| && p in ss[i].k.tasks && p in ss[i].calls
    requires forall m :: i <= m < j ==> Enabled(ss[m], run[m]) && !Touches(ss[m], run[m], p)
    ensures p in ss[j].k.tasks && ss[j].k.tasks[p] == ss[i].k.tasks[p]
    ensures p in ss[j].calls && ss[j].calls[p] == ss[i].calls[p]
    ensures p in ss[j].k.ready <==> p in ss[i].k.ready
    decreases j
  {
    hide Inv, Next, Touches, Apply;
    if i < j {
      NothingHappens(ss, run, i, j - 1, p);
      TraceKeeps(ss, run, j - 1);
      TraceKeeps(ss, run, j);
      EveryTaskHasACall(ss[j]);
      OneQuietStep(ss[j - 1], run[j - 1], ss[j], p);
    }
  }

  lemma OneQuietStep(s: Sys, a: Step, s': Sys, p: Prio)
    requires Inv(s) && Next(s, a, s') && p in s.k.tasks && p in s.calls && !Touches(s, a, p)
    ensures p in s'.k.tasks && s'.k.tasks[p] == s.k.tasks[p] && (p in s'.k.ready <==> p in s.k.ready)
    ensures p in s'.calls ==> s'.calls[p] == s.calls[p]
  {
    hide Inv, Touches, Apply;
    Untouched(s, a, p);
  }

  // When a task that is not suspended is ready.
  lemma ReadyWhen(s: Sys, p: Prio)
    requires Inv(s) && p in s.k.tasks && s.k.tasks[p].stat & 0x08 == 0
    ensures s.calls[p].Outside? ==> (p in s.k.ready <==> s.k.tasks[p].dly == 0)
    ensures s.calls[p].Inside? && !s.calls[p].multi ==> (p in s.k.ready <==> WaitIsOver(s, p))
  {
    assert TaskOk(s.k, p, s.calls[p]);
  }

  // Whether a single-event wait is over can be told from the pend bits.
  lemma OverWhen(s: Sys, p: Prio)
    requires Inv(s) && p in s.k.tasks && s.calls[p].Inside? && !s.calls[p].multi
    ensures WaitIsOver(s, p) <==> s.calls[p].done.Some? || s.k.tasks[p].stat & 0x37 == 0
  {
    assert TaskOk(s.k, p, s.calls[p]);
  }

  lemma BackAgain(stat: bv8, marked: bv8, lifted: bv8)
    requires stat & 0x08 == 0 && marked & 0xF7 == stat & 0xF7 && lifted & 0xF7 == marked & 0xF7 && lifted & 0x08 == 0
    ensures lifted == stat && stat & 0x37 == marked & 0x37
  {
    assert lifted == (lifted & 0xF7) | (lifted & 0x08) && stat == (stat & 0xF7) | (stat & 0x08);
    assert stat & 0x37 == (stat & 0xF7) & 0x37 && marked & 0x37 == (marked & 0xF7) & 0x37;
  }

  // A suspension followed by a resumption, with nothing else touching the
  // task, restores its control block; and its readiness, if and only if it was
  // not ready at the end of a multi-event wait.
  lemma ResumeUndoesSuspend(ss: seq<Sys>, run: seq<Step>, i: nat, j: nat, p: Prio)
    requires IsTrace(ss, run) && i < j < |run| && run[i] == DoSuspend(p) && run[j] == DoResume(p)
    requires forall m :: i < m < j ==> Enabled(ss[m], run[m]) && !Touches(ss[m], run[m], p)
    ensures p in ss[i].k.tasks && p in ss[i].calls && p in ss[j + 1].k.tasks
    ensures ss[i].k.tasks[p].stat & 0x08 == 0 ==>
      && ss[j + 1].k.tasks[p] == ss[i].k.tasks[p]
      && ((p in ss[j + 1].k.ready <==> p in ss[i].k.ready) <==>
            !(p in ss[i].k.ready && ss[i].calls[p].Inside? && ss[i].calls[p].multi))
  {
    hide Inv, Next, Touches, WaitIsOver;
    TraceKeeps(ss, run, i);
    TraceKeeps(ss, run, i + 1);
    TraceKeeps(ss, run, j);
    assert Next(ss[i], run[i], ss[i + 1]) && Next(ss[j], run[j], ss[j + 1]);
    hide IsTrace;
    EveryTaskHasACall(ss[i]);
    SuspendStops(ss[i], p, ss[i + 1]);
    NothingHappens(ss, run, i + 1, j, p);
    Undone(ss[i], ss[i + 1], ss[j], ss[j + 1], p);
  }

  lemma Undone(s: Sys, s1: Sys, s2: Sys, s': Sys, p: Prio)
    requires Inv(s) && Inv(s2) && p in s.k.tasks && p in s.calls && p in s1.k.tasks && p in s2.k.tasks && p in s2.calls
    requires Next(s, DoSuspend(p), s1) && Next(s2, DoResume(p), s')
    requires s2.k.tasks[p] == s1.k.tasks[p] && s2.calls[p] == s.calls[p] && p !in s2.k.ready
    ensures p in s'.k.tasks
    ensures s.k.tasks[p].stat & 0x08 == 0 ==>
      && s'.k.tasks[p] == s.k.tasks[p]
      && ((p in s'.k.ready <==> p in s.k.ready) <==> !(p in s.k.ready && s.calls[p].Inside? && s.calls[p].multi))
  {
    hide Inv, Next, WaitIsOver;
    SuspendStops(s, p, s1);
    ResumeLifts(s2, p, s');
    if s.k.tasks[p].stat & 0x08 == 0 {
      BackAgain(s.k.tasks[p].stat, s1.k.tasks[p].stat, s'.k.tasks[p].stat);
      ReadyWhen(s, p);
      if s.calls[p].Inside? && !s.calls[p].multi {
        OverWhen(s, p);
        OverWhen(s2, p);
      }
    }
  }

  // ---------------------------------------------------------------------
  // Timeouts.

  // The control block and the readiness of a task in a wait with nothing handed
  // to it after `ticks` visits of OSTimeTick.  `calm` says that nobody has
  // suspended the task.
  predicate Timely(t: Task, ready: bool, multi: bool, timeout: nat, ticks: nat, calm: bool) {
    && (calm ==> t.stat & 0x08 == 0)
    && (!multi ==> (t.stat & 0x37 == 0 <==> timeout > 0 && ticks >= timeout))
    && t.dly == (if ticks < timeout then timeout - ticks else 0)
    && if timeout == 0 || ticks < timeout then !ready
       else (!multi ==> (ready <==> t.stat & 0x08 == 0)) && (calm ==> ready)
  }

  ghost predicate InTime(s: Sys, p: Prio, c: Call, timeout: nat, ticks: nat, calm: bool)
    requires c.Inside?
  {
    && p in s.k.tasks && p in s.calls && s.calls[p] == c && c.done.None?
    && Timely(s.k.tasks[p], p in s.k.ready, c.multi, timeout, ticks, calm)
  }

  lemma InTimeStarts(s: Sys, a: Step, s': Sys, p: Prio, c: Call, timeout: nat)
    requires Inv(s) && Next(s, a, s') && BlockedBy(a, s', p, c, timeout)
    ensures c.Inside? && InTime(s', p, c, timeout, 0, true)
  {
    WaitStarts(s, a, s', p, c, timeout);
    hide Inv, Next;
    var stat := s'.k.tasks[p].stat;
    assert stat & 0x78 == 0 ==> stat & 0x08 == 0;
    assert stat & 0x01 != 0 || stat & 0x02 != 0 || stat & 0x04 != 0 ==> stat & 0x37 != 0;
    if !c.multi { assert s.k.events[c.es[0]].kind != Other; }
  }

  lemma SuspendInTime(s: Sys, s': Sys, p: Prio, c: Call, timeout: nat, ticks: nat, calm: bool)
    requires Inv(s) && Next(s, DoSuspend(p), s') && c.Inside? && InTime(s, p, c, timeout, ticks, calm)
    ensures InTime(s', p, c, timeout, ticks, false)
  {
    hide Inv, Next;
    SuspendStops(s, p, s');
    SamePendBits(s.k.tasks[p].stat, s'.k.tasks[p].stat);
  }

  lemma SamePendBits(stat: bv8, stat': bv8)
    requires stat & 0xF7 == stat' & 0xF7
    ensures stat & 0x37 == stat' & 0x37
  {
    assert stat & 0x37 == (stat & 0xF7) & 0x37 && stat' & 0x37 == (stat' & 0xF7) & 0x37;
  }

  lemma ResumeInTime(s: Sys, s': Sys, p: Prio, c: Call, timeout: nat, ticks: nat, calm: bool)
    requires Inv(s) && Next(s, DoResume(p), s') && c.Inside? && InTime(s, p, c, timeout, ticks, calm)
    ensures InTime(s', p, c, timeout, ticks, calm)
  {
    hide Inv, Next, WaitIsOver;
    ResumeLifts(s, p, s');
    if s.k.tasks[p].stat & 0x08 != 0 {
      SamePendBits(s.k.tasks[p].stat, s'.k.tasks[p].stat);
      if !c.multi { OverWhen(s, p); }
    }
  }

  lemma TickInTime(s: Sys, s': Sys, p: Prio, c: Call, timeout: nat, ticks: nat, calm: bool)
    requires Inv(s) && Next(s, DoTick(p), s') && c.Inside? && InTime(s, p, c, timeout, ticks, calm)
    ensures InTime(s', p, c, timeout, ticks + 1, calm)
  {
    hide Inv, Next;
    TickCounts(s, p, s');
    SameSuspension(s.k.tasks[p].stat, s'.k.tasks[p].stat);
  }

  lemma SameSuspension(stat: bv8, stat': bv8)
    ensures stat' & 0xC8 == stat & 0xC8 ==> stat & 0x08 == stat' & 0x08
  {
    assert stat & 0x08 == (stat & 0xC8) & 0x08 && stat' & 0x08 == (stat' & 0xC8) & 0x08;
  }

  lemma OtherInTime(s: Sys, a: Step, s': Sys, p: Prio, c: Call, timeout: nat, ticks: nat, calm: bool)
    requires Inv(s) && Next(s, a, s') && !Touches(s, a, p) && c.Inside? && InTime(s, p, c, timeout, ticks, calm)
    ensures InTime(s', p, c, timeout, ticks, calm)
  {
    hide Inv, Next, Touches, Timely;
    OneQuietStep(s, a, s', p);
    StillCalling(s, a, s', p);
  }

  lemma StillCalling(s: Sys, a: Step, s': Sys, p: Prio)
    requires Inv(s) && Next(s, a, s') && p in s'.k.tasks
    ensures p in s'.calls
  {
    hide Inv;
    StepKeeps(s, a);
    EveryTaskHasACall(s');
  }

  lemma InTimeStep(s: Sys, a: Step, s': Sys, p: Prio, c: Call, timeout: nat, ticks: nat, calm: bool)
    requires Inv(s) && Next(s, a, s') && c.Inside? && InTime(s, p, c, timeout, ticks, calm)
    requires a != Wake(p) && a != DoDelayResume(p) && HandedTo(s, a, p).None?
    ensures InTime(s', p, c, timeout, ticks + (if a == DoTick(p) then 1 else 0), calm && a != DoSuspend(p))
  {
    hide Inv, Next, InTime, HandedTo;
    if a == DoTick(p) {
      TickInTime(s, s', p, c, timeout, ticks, calm);
    } else if a == DoSuspend(p) {
      SuspendInTime(s, s', p, c, timeout, ticks, calm);
    } else if a == DoResume(p) {
      ResumeInTime(s, s', p, c, timeout, ticks, calm);
    } else {
      NotOwnStep(s, a, s', p, c, timeout, ticks, calm);
      OtherInTime(s, a, s', p, c, timeout, ticks, calm);
    }
  }

  lemma NotOwnStep(s: Sys, a: Step, s': Sys, p: Prio, c: Call, timeout: nat, ticks: nat, calm: bool)
    requires Next(s, a, s') && c.Inside? && InTime(s, p, c, timeout, ticks, calm)
    requires a != Wake(p) && a != DoDelayResume(p) && a != DoTick(p) && a != DoSuspend(p) && a != DoResume(p)
    requires HandedTo(s, a, p).None?
    ensures Enabled(s, a) && !Touches(s, a, p)
  {
  }

  lemma {:induction false} StaysInTime(ss: seq<Sys>, run: seq<Step>, i: nat, j: nat, p: Prio, c: Call, timeout: nat)
    requires IsTrace(ss, run) && i <= j <= |run| && c.Inside? && InTime(ss[i], p, c, timeout, 0, true)
    requires forall m :: i <= m < j ==>
      run[m] != Wake(p) && run[m] != DoDelayResume(p) && HandedTo(ss[m], run[m], p).None?
    ensures InTime(ss[j], p, c, timeout, Ticks(run, i, j, p), forall m :: i <= m < j ==> run[m] != DoSuspend(p))
    decreases j
  {
    hide Inv, Next, InTime, HandedTo;
    if i < j {
      StaysInTime(ss, run, i, j - 1, p, c, timeout);
      TraceKeeps(ss, run, j - 1);
      assert Next(ss[j - 1], run[j - 1], ss[j]);
      InTimeStep(ss[j - 1], run[j - 1], ss[j], p, c, timeout, Ticks(run, i, j - 1, p),
                 forall m :: i <= m < j - 1 ==> run[m] != DoSuspend(p));
    }
  }

  // A wait to which nothing is handed ends at exactly the timeout-th visit of
  // OSTimeTick, and never if the timeout is zero: from then on the task is ready
  // unless it is suspended, before it is not ready.
  lemma TimesOutInTime(ss: seq<Sys>, run: seq<Step>, i: nat, j: nat, p: Prio, c: Call, timeout: nat)
    requires IsTrace(ss, run) && i < j <= |run| && BlockedBy(run[i], ss[i + 1], p, c, timeout)
    requires forall m :: i < m < j ==>
      run[m] != Wake(p) && run[m] != DoDelayResume(p) && HandedTo(ss[m], run[m], p).None?
    ensures c.Inside? && p in ss[j].k.tasks
    ensures var over := timeout > 0 && Ticks(run, i + 1, j, p) >= timeout;
      && (p in ss[j].k.ready ==> over)
      && (!c.multi ==> (p in ss[j].k.ready <==> over && ss[j].k.tasks[p].stat & 0x08 == 0))
      && ((forall m :: i < m < j ==> run[m] != DoSuspend(p)) ==> (p in ss[j].k.ready <==> over))
  {
    hide Inv, Next, HandedTo, BlockedBy;
    TraceKeeps(ss, run, i);
    assert Next(ss[i], run[i], ss[i + 1]);
    InTimeStarts(ss[i], run[i], ss[i + 1], p, c, timeout);
    StaysInTime(ss, run, i + 1, j, p, c, timeout);
  }
}
