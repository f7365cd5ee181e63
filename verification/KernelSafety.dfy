/** What every step of the kernel keeps, over every run.

  Every task is either outside the pend services or inside one; a ghost record
  of the call says which events it waits on and what has been handed to it.
  A step is one critical section, so any interleaving of tasks and interrupt
  handlers is a sequence of steps.
*/
module KernelSafety {
  import opened Options
  import opened KernelModel

  datatype Delivery = Delivery(e: EventId, msg: Msg, st: PendStat)

  datatype Call = Outside | Inside(es: seq<EventId>, multi: bool, done: Option<Delivery>)

  datatype Sys = Sys(k: Kernel, calls: map<Prio, Call>)

  datatype Step =
    | PendOne(p: Prio, e: EventId, timeout: nat)
    | PendMany(p: Prio, es: seq<EventId>, timeout: nat)
    | Wake(p: Prio)
    | DoPost(e: EventId, msg: Msg)
    | DoAbort(e: EventId)
    | DoTick(p: Prio)
    | DoDelay(p: Prio, n: nat)
    | DoDelayResume(p: Prio)
    | DoSuspend(p: Prio)
    | DoResume(p: Prio)
    | DoCreate(p: Prio)

  // A task takes a step of its own only while it is ready, and only the idle
  // task never calls a service.
  predicate Running(s: Sys, p: Prio) {
    p in s.k.tasks && p in s.calls && p in s.k.ready && p != s.k.idle
  }

  // Semaphores carry no message, and a mailbox post of the null pointer is
  // refused by its service.
  predicate MayPost(kind: Kind, msg: Msg) {
    match kind
    case Sem => msg == NULL_MSG
    case Mbox => msg != NULL_MSG
    case Queue => true
    case Other => false
  }

  ghost predicate Enabled(s: Sys, a: Step) {
    match a
    case PendOne(p, e, _) =>
      Running(s, p) && s.calls[p].Outside? && e < |s.k.events| && s.k.events[e].kind != Other
    case PendMany(p, es, _) => Running(s, p) && s.calls[p].Outside? && Pendable(s.k.events, es)
    case Wake(p) => Running(s, p) && s.calls[p].Inside?
    case DoPost(e, msg) =>
      e < |s.k.events| && MayPost(s.k.events[e].kind, msg)
    case DoAbort(e) => e < |s.k.events| && s.k.events[e].kind != Other
    case DoTick(p) => p in s.k.tasks && p != s.k.idle
    case DoDelay(p, n) => Running(s, p) && s.calls[p].Outside? && n > 0
    case DoDelayResume(p) => p in s.k.tasks && p != s.k.idle
    case DoSuspend(p) => p in s.k.tasks && p != s.k.idle
    case DoResume(p) => p in s.k.tasks && p != s.k.idle
    case DoCreate(p) => p !in s.k.tasks
  }

  ghost function HandOver(s: Sys, k': Kernel, e: EventId, msg: Msg, st: PendStat): Sys
    requires e < |s.k.events|
  {
    if s.k.events[e].waiters == {} then Sys(k', s.calls)
    else
      var p := Least(s.k.events[e].waiters);
      if p in s.calls && s.calls[p].Inside?
      then Sys(k', s.calls[p := s.calls[p].(done := Some(Delivery(e, msg, st)))])
      else Sys(k', s.calls)
  }

  ghost function Apply(s: Sys, a: Step): Sys
    requires Inv(s) && Enabled(s, a)
  {
    InvGivesBounds(s);
    match a
    case PendOne(p, e, timeout) =>
      if s.k.events[e].stored != [] then s.(k := s.k.(events := Take(s.k.events, e)))
      else Sys(BlockOne(s.k, p, e, timeout), s.calls[p := Inside([e], false, None)])
    case PendMany(p, es, timeout) =>
      var r := Poll(s.k.events, es);
      if r.taken != [] then s.(k := s.k.(events := r.events))
      else Sys(BlockMany(s.k, p, es, r.stat, timeout), s.calls[p := Inside(es, true, None)])
    case Wake(p) => Sys(WakeStep(s, p).0, s.calls[p := Outside])
    case DoPost(e, msg) => HandOver(s, Post(s.k, e, msg).0, e, msg, PendOk)
    case DoAbort(e) => HandOver(s, Abort(s.k, e), e, NULL_MSG, PendAbort)
    case DoTick(p) => s.(k := TickOne(s.k, p))
    case DoDelay(p, n) => s.(k := Delay(s.k, p, n))
    case DoDelayResume(p) => s.(k := DelayResume(s.k, p))
    case DoSuspend(p) => s.(k := Suspend(s.k, p))
    case DoResume(p) => s.(k := Resume(s.k, p))
    case DoCreate(p) => Sys(Create(s.k, p), s.calls[p := Outside])
  }

  // What the call of p returns when p runs again.
  ghost function WakeStep(s: Sys, p: Prio): (Kernel, PendResult)
    requires Inv(s) && p in s.k.tasks && s.calls[p].Inside?
  {
    InvGivesBounds(s);
    if s.calls[p].multi then WakeMany(s.k, p, s.calls[p].es)
    else WakeOne(s.k, p, s.calls[p].es[0])
  }

  // ---------------------------------------------------------------------
  // The invariant.

  ghost predicate OutsideOk(k: Kernel, p: Prio, t: Task) {
    && t.eventPtr == None && t.multi == None
    && (t.stat == 0 || t.stat == STAT_SUSPEND)
    && (p in k.ready <==> t.dly == 0 && t.stat == 0)
  }

  // Still blocked: not ready, no outcome yet, and a timeout can still find
  // its pend bits.
  ghost predicate Blocked(k: Kernel, p: Prio, t: Task, c: Call)
    requires c.Inside? && Pendable(k.events, c.es) && (!c.multi ==> |c.es| == 1)
  {
    && p !in k.ready
    && t.statPend == PendOk
    && (c.es != [] ==> t.stat & STAT_PEND_ANY != 0)
    && (!c.multi ==> t.stat & !STAT_SUSPEND == TypeBit(k.events[c.es[0]].kind))
  }

  // The delay ran out: the task may run, but is still in the wait lists.
  ghost predicate Expired(k: Kernel, p: Prio, t: Task, c: Call)
    requires c.Inside?
  {
    && t.dly == 0
    && (t.statPend == PendTo || (t.statPend == PendOk && c.es == []))
    && (!c.multi ==> t.stat & !STAT_SUSPEND == 0)
    && t.stat & STAT_PEND_ANY == 0
    && FreedOk(k, p, t, c)
  }

  // A post or an abort has chosen the task.
  ghost predicate Released(k: Kernel, p: Prio, t: Task, c: Call, d: Delivery)
    requires c.Inside?
  {
    && d.e in c.es
    && t.dly == 0
    && t.statPend == d.st && !d.st.PendTo?
    && t.msg == d.msg
    && (d.e < |k.events| && k.events[d.e].kind == Sem ==> d.msg == NULL_MSG)
    && t.eventPtr == Some(d.e)
    && (!c.multi ==> t.stat & !STAT_SUSPEND == 0)
    && FreedOk(k, p, t, c)
  }

  // A task whose wait is over is ready exactly unless it is suspended; after
  // a multi-event wait only one direction holds (see ResumeAfterWait).
  ghost predicate FreedOk(k: Kernel, p: Prio, t: Task, c: Call)
    requires c.Inside?
  {
    && (p in k.ready ==> !Suspended(t))
    && (!c.multi ==> (p in k.ready <==> !Suspended(t)))
  }

  ghost predicate InsideOk(k: Kernel, p: Prio, t: Task, c: Call)
    requires c.Inside?
  {
    && Pendable(k.events, c.es)
    && (!c.multi ==> |c.es| == 1)
    && (c.multi ==> t.stat & STAT_MULTI != 0)
    && t.multi == (if c.multi then Some(c.es) else None)
    && match c.done
       case None =>
         && t.eventPtr == (if c.multi then None else Some(c.es[0]))
         && (Blocked(k, p, t, c) || Expired(k, p, t, c))
       case Some(d) => Released(k, p, t, c, d)
  }

  ghost predicate TaskOk(k: Kernel, p: Prio, c: Call)
    requires p in k.tasks
  {
    match c
    case Outside => OutsideOk(k, p, k.tasks[p])
    case Inside(_, _, _) => InsideOk(k, p, k.tasks[p], c)
  }

  // p is in the wait list of e exactly when it is in an unfinished wait whose
  // event array contains e.
  ghost predicate WaitsOn(c: Call, e: EventId) {
    c.Inside? && c.done.None? && e in c.es
  }

  ghost predicate ListsOk(s: Sys) {
    forall e, p :: 0 <= e < |s.k.events| ==>
      (p in s.k.events[e].waiters <==> p in s.calls && WaitsOn(s.calls[p], e))
  }

  // No unit is stored while somebody waits for it.
  ghost predicate NoIdleUnit(k: Kernel) {
    forall e :: 0 <= e < |k.events| && k.events[e].waiters != {} ==> k.events[e].stored == []
  }

  ghost predicate Inv(s: Sys) {
    && s.calls.Keys == s.k.tasks.Keys
    && s.k.ready <= s.k.tasks.Keys
    && s.k.idle in s.k.ready && s.calls[s.k.idle].Outside?
    && (forall p :: p in s.k.tasks ==> TaskOk(s.k, p, s.calls[p]))
    && ListsOk(s)
    && NoIdleUnit(s.k)
  }

  lemma InvGivesBounds(s: Sys)
    requires Inv(s)
    ensures forall e :: 0 <= e < |s.k.events| ==> s.k.events[e].waiters <= s.k.tasks.Keys
    ensures forall p :: p in s.k.tasks && s.calls[p].Inside? ==>
              && InRange(s.k.events, s.calls[p].es)
              && (!s.calls[p].multi ==> |s.calls[p].es| == 1 && s.calls[p].es[0] < |s.k.events|)
              && (s.k.tasks[p].eventPtr.Some? ==> s.k.tasks[p].eventPtr.value < |s.k.events|)
  {
    forall p | p in s.k.tasks && s.calls[p].Inside?
      ensures && InRange(s.k.events, s.calls[p].es)
              && (!s.calls[p].multi ==> |s.calls[p].es| == 1 && s.calls[p].es[0] < |s.k.events|)
              && (s.k.tasks[p].eventPtr.Some? ==> s.k.tasks[p].eventPtr.value < |s.k.events|)
    {
      assert TaskOk(s.k, p, s.calls[p]);
    }
  }

  // ---------------------------------------------------------------------
  // Every step keeps the invariant.

  // Two states that agree on everything the clause for task q reads.
  ghost predicate SameFor(k: Kernel, k': Kernel, q: Prio) {
    && q in k.tasks && q in k'.tasks && k'.tasks[q] == k.tasks[q]
    && (q in k'.ready <==> q in k.ready)
    && SameKinds(k, k')
  }

  ghost predicate SameKinds(k: Kernel, k': Kernel) {
    |k'.events| == |k.events| &&
    forall e :: 0 <= e < |k.events| ==> k'.events[e].kind == k.events[e].kind
  }

  lemma OthersKeep(k: Kernel, k': Kernel, q: Prio, c: Call)
    requires SameFor(k, k', q) && TaskOk(k, q, c)
    ensures TaskOk(k', q, c)
  {
  }

  lemma PollTakesOnlyStored(events: seq<Event>, es: seq<EventId>)
    requires InRange(events, es)
    ensures var r := Poll(events, es);
            forall e :: 0 <= e < |events| ==>
              && r.events[e].kind == events[e].kind && r.events[e].waiters == events[e].waiters
              && r.events[e].cap == events[e].cap
              && (events[e].stored == [] ==> r.events[e].stored == [])
  {
    if es != [] { PollTakesOnlyStored(events, es[..|es| - 1]); }
  }

  // With nothing taken, no listed event had anything, nothing changed, and
  // the status bits are those of the listed kinds.
  lemma PollEmpty(events: seq<Event>, es: seq<EventId>)
    requires Pendable(events, es) && Poll(events, es).taken == []
    ensures Poll(events, es).events == events
    ensures forall e :: e in es ==> events[e].stored == []
    ensures es != [] ==> Poll(events, es).stat & STAT_PEND_ANY != 0
  {
    if es != [] {
      var init := es[..|es| - 1];
      assert forall e :: e in es ==> e in init || e == es[|es| - 1];
      PollEmpty(events, init);
    }
  }

  lemma OutsideTask(s: Sys, p: Prio)
    requires Inv(s) && p in s.k.tasks && s.calls[p].Outside?
    ensures OutsideOk(s.k, p, s.k.tasks[p])
  {
    assert TaskOk(s.k, p, s.calls[p]);
  }

  lemma PendOneKeeps(s: Sys, p: Prio, e: EventId, timeout: nat)
    requires Inv(s) && Enabled(s, PendOne(p, e, timeout))
    ensures Inv(Apply(s, PendOne(p, e, timeout)))
  {
    hide TaskOk;
    if s.k.events[e].stored == [] {
      OutsideTask(s, p);
      BlockOneTask(s.k, p, e, timeout);
      JoiningKeeps(s, BlockOne(s.k, p, e, timeout), p, Inside([e], false, None));
    } else {
      var s' := Apply(s, PendOne(p, e, timeout));
      forall q | q in s'.k.tasks ensures TaskOk(s'.k, q, s'.calls[q]) {
        OthersKeep(s.k, s'.k, q, s.calls[q]);
      }
    }
  }

  lemma BlockOneTask(k: Kernel, p: Prio, e: EventId, timeout: nat)
    requires p in k.tasks && e < |k.events| && k.events[e].kind != Other && OutsideOk(k, p, k.tasks[p]) && p in k.ready
    ensures var k' := BlockOne(k, p, e, timeout);
            SameKinds(k, k') && TaskOk(k', p, Inside([e], false, None))
  {
  }

  // Which wait lists a step may change: only those of p, and only as the new
  // call of p says.
  lemma ListsAfter(s: Sys, s': Sys, p: Prio)
    requires ListsOk(s) && |s'.k.events| == |s.k.events|
    requires p in s.calls && p in s'.calls && s'.calls == s.calls[p := s'.calls[p]]
    requires forall e, q :: 0 <= e < |s.k.events| && q != p ==>
               (q in s'.k.events[e].waiters <==> q in s.k.events[e].waiters)
    requires forall e :: 0 <= e < |s.k.events| ==> (p in s'.k.events[e].waiters <==> WaitsOn(s'.calls[p], e))
    ensures ListsOk(s')
  {
  }

  // A task that joins the wait lists of events with nothing stored.
  lemma JoiningKeeps(s: Sys, k': Kernel, p: Prio, c: Call)
    requires Inv(s) && Running(s, p) && s.calls[p].Outside? && p in k'.tasks
    requires c.Inside? && c.done.None? && TaskOk(k', p, c)
    requires forall e :: e in c.es ==> e < |s.k.events| && s.k.events[e].stored == []
    requires k' == Kernel(s.k.idle, s.k.tasks[p := k'.tasks[p]], s.k.ready - {p}, Await(s.k.events, p, c.es))
    ensures Inv(Sys(k', s.calls[p := c]))
  {
    var s' := Sys(k', s.calls[p := c]);
    hide TaskOk, Await;
    forall q | q in s'.k.tasks ensures TaskOk(s'.k, q, s'.calls[q]) {
      if q != p { OthersKeep(s.k, k', q, s.calls[q]); }
    }
    assert !exists e :: WaitsOn(s.calls[p], e);
    ListsAfter(s, s', p);
    assert NoIdleUnit(k');
  }

  lemma PendManyKeeps(s: Sys, p: Prio, es: seq<EventId>, timeout: nat)
    requires Inv(s) && Enabled(s, PendMany(p, es, timeout))
    ensures Inv(Apply(s, PendMany(p, es, timeout)))
  {
    PollTakesOnlyStored(s.k.events, es);
    if Poll(s.k.events, es).taken == [] {
      PollEmpty(s.k.events, es);
      OutsideTask(s, p);
      var stat := Poll(s.k.events, es).stat;
      BlockManyTask(s.k, p, es, stat, timeout);
      JoiningKeeps(s, BlockMany(s.k, p, es, stat, timeout), p, Inside(es, true, None));
    } else {
      var s' := Apply(s, PendMany(p, es, timeout));
      forall q | q in s'.k.tasks ensures TaskOk(s'.k, q, s'.calls[q]) {
        OthersKeep(s.k, s'.k, q, s.calls[q]);
      }
    }
  }

  lemma BlockManyTask(k: Kernel, p: Prio, es: seq<EventId>, stat: bv8, timeout: nat)
    requires p in k.tasks && Pendable(k.events, es) && OutsideOk(k, p, k.tasks[p]) && p in k.ready
    requires es != [] ==> stat & STAT_PEND_ANY != 0
    ensures var k' := BlockMany(k, p, es, stat, timeout);
            SameKinds(k, k') && TaskOk(k', p, Inside(es, true, None))
  {
    var t' := BlockMany(k, p, es, stat, timeout).tasks[p];
    assert t'.stat == stat | STAT_MULTI;
    assert (stat | STAT_MULTI) & STAT_PEND_ANY == stat & STAT_PEND_ANY;
  }

  // p has left every wait list and nothing else changed.
  ghost predicate OnlyLeft(events: seq<Event>, events': seq<Event>, p: Prio) {
    && |events'| == |events|
    && (forall i :: 0 <= i < |events| ==> SameUnits(events'[i], events[i]))
    && (forall i, q :: 0 <= i < |events| ==>
          (q in events'[i].waiters <==> q != p && q in events[i].waiters))
  }

  lemma WakeTask(s: Sys, p: Prio)
    requires Inv(s) && Enabled(s, Wake(p))
    ensures var k' := WakeStep(s, p).0;
            && k'.tasks == s.k.tasks[p := k'.tasks[p]] && k'.ready == s.k.ready && k'.idle == s.k.idle
            && OutsideOk(k', p, k'.tasks[p])
            && k'.tasks[p].stat == 0 && k'.tasks[p].statPend == PendOk && k'.tasks[p].dly == 0
  {
    assert TaskOk(s.k, p, s.calls[p]);
    hide ListsOk, NoIdleUnit, Unwait;
  }

  lemma WakeLists(s: Sys, p: Prio)
    requires Inv(s) && Enabled(s, Wake(p))
    ensures OnlyLeft(s.k.events, WakeStep(s, p).0.events, p)
  {
    hide Unwait, OnlyLeft, NoIdleUnit;
    var c := s.calls[p];
    assert TaskOk(s.k, p, c);
    if !c.multi { assert c.es == [c.es[0]]; }
    if c.done.Some? { NoLists(s, p); } else { AllLists(s, p); }
  }

  lemma NoLists(s: Sys, p: Prio)
    requires ListsOk(s) && p in s.calls && s.calls[p].Inside? && s.calls[p].done.Some?
    ensures OnlyLeft(s.k.events, s.k.events, p)
  {
    assert forall e :: !WaitsOn(s.calls[p], e);
  }

  lemma AllLists(s: Sys, p: Prio)
    requires ListsOk(s) && p in s.calls && s.calls[p].Inside? && s.calls[p].done.None?
    ensures OnlyLeft(s.k.events, Unwait(s.k.events, p, s.calls[p].es), p)
  {
    hide Unwait;
    assert forall e :: WaitsOn(s.calls[p], e) <==> e in s.calls[p].es;
  }

  // After its wait a task keeps no trace of it.
  lemma WakeLeaves(s: Sys, p: Prio)
    requires Inv(s) && Enabled(s, Wake(p))
    ensures var k' := WakeStep(s, p).0;
            && k'.tasks == s.k.tasks[p := k'.tasks[p]] && k'.ready == s.k.ready && k'.idle == s.k.idle
            && OutsideOk(k', p, k'.tasks[p])
            && k'.tasks[p].stat == 0 && k'.tasks[p].statPend == PendOk && k'.tasks[p].dly == 0
            && OnlyLeft(s.k.events, k'.events, p)
  {
    hide Inv, WakeStep, OutsideOk, OnlyLeft;
    WakeTask(s, p);
    WakeLists(s, p);
  }

  lemma WakeKeeps(s: Sys, p: Prio)
    requires Inv(s) && Enabled(s, Wake(p))
    ensures Inv(Apply(s, Wake(p)))
  {
    var s' := Apply(s, Wake(p));
    WakeLeaves(s, p);
    forall q | q in s'.k.tasks ensures TaskOk(s'.k, q, s'.calls[q]) {
      if q != p { OthersKeep(s.k, s'.k, q, s.calls[q]); }
    }
    ListsAfter(s, s', p);
  }

  // The task chosen by a post or an abort.
  lemma ChosenIsWaiting(s: Sys, e: EventId) returns (p: Prio)
    requires Inv(s) && e < |s.k.events| && s.k.events[e].waiters != {}
    ensures p == Least(s.k.events[e].waiters)
    ensures p in s.k.tasks && WaitsOn(s.calls[p], e) && TaskOk(s.k, p, s.calls[p])
  {
    p := Least(s.k.events[e].waiters);
  }

  // The bits a hand-over clears: the pend bit of the event, and no other bit
  // that matters later.
  lemma PendBitCleared(stat: bv8, kind: Kind)
    ensures var msk := TypeBit(kind);
      && (stat & STAT_SUSPEND == 0 ==> stat & !msk & STAT_SUSPEND == 0)
      && (stat & STAT_MULTI != 0 ==> stat & !msk & STAT_MULTI != 0)
      && (stat & !STAT_SUSPEND == 0 || stat & !STAT_SUSPEND == msk ==> stat & !msk & !STAT_SUSPEND == 0)
  {
  }

  lemma DeliverTask(k: Kernel, e: EventId, msg: Msg, msk: bv8, st: PendStat)
    requires e < |k.events| && k.events[e].waiters != {} && k.events[e].waiters <= k.tasks.Keys
    ensures var k' := Deliver(k, e, msg, msk, st); var p := Least(k.events[e].waiters); var t := k.tasks[p];
      && SameKinds(k, k') && p in k'.tasks && k'.tasks[p].multi == t.multi
      && k'.tasks[p].eventPtr == (if t.multi.Some? then Some(e) else t.eventPtr)
      && (p in k'.ready <==> p in k.ready || !Suspended(k'.tasks[p]))
  {
  }

  lemma DeliverReleases(k: Kernel, e: EventId, msg: Msg, st: PendStat, p: Prio, c: Call)
    requires e < |k.events| && k.events[e].waiters != {} && k.events[e].waiters <= k.tasks.Keys
    requires p == Least(k.events[e].waiters) && TaskOk(k, p, c) && WaitsOn(c, e) && !st.PendTo?
    requires k.events[e].kind == Sem ==> msg == NULL_MSG
    ensures var k' := Deliver(k, e, msg, TypeBit(k.events[e].kind), st);
            TaskOk(k', p, c.(done := Some(Delivery(e, msg, st))))
  {
    hide Deliver, TypeBit;
    var msk := TypeBit(k.events[e].kind);
    DeliverShrinks(k, e, msg, msk, st);
    DeliverTask(k, e, msg, msk, st);
    assert Pendable(Deliver(k, e, msg, msk, st).events, c.es);
    hide Pendable, SameKinds;
    PendBitCleared(k.tasks[p].stat, k.events[e].kind);
    if !c.multi { assert c.es[0] == e; }
  }

  lemma DeliverLists(k: Kernel, e: EventId, msg: Msg, st: PendStat, p: Prio, c: Call)
    requires e < |k.events| && k.events[e].waiters != {} && k.events[e].waiters <= k.tasks.Keys
    requires p == Least(k.events[e].waiters) && TaskOk(k, p, c) && WaitsOn(c, e)
    requires forall f :: 0 <= f < |k.events| && p in k.events[f].waiters ==> f in c.es
    ensures OnlyLeft(k.events, Deliver(k, e, msg, TypeBit(k.events[e].kind), st).events, p)
  {
    hide Unwait, OnlyLeft;
    assert k.tasks[p].multi == (if c.multi then Some(c.es) else None) && (!c.multi ==> c.es == [e]);
    hide TaskOk;
    ListsLeft(k.events, p, e, c.es, c.multi);
  }

  // Leaving the list of e, and those of a multi-event wait on es.
  lemma ListsLeft(events: seq<Event>, p: Prio, e: EventId, es: seq<EventId>, multi: bool)
    requires e in es && (!multi ==> es == [e])
    requires forall f :: 0 <= f < |events| && p in events[f].waiters ==> f in es
    ensures var freed := Unwait(events, p, [e]); OnlyLeft(events, if multi then Unwait(freed, p, es) else freed, p)
  {
    hide Unwait;
  }

  lemma DeliverKeeps(s: Sys, e: EventId, msg: Msg, st: PendStat)
    requires Inv(s) && e < |s.k.events| && s.k.events[e].waiters != {}
    requires s.k.events[e].waiters <= s.k.tasks.Keys
    requires !st.PendTo? && (s.k.events[e].kind == Sem ==> msg == NULL_MSG)
    ensures var k' := Deliver(s.k, e, msg, TypeBit(s.k.events[e].kind), st);
            Inv(HandOver(s, k', e, msg, st))
  {
    hide Deliver, TaskOk;
    var k' := Deliver(s.k, e, msg, TypeBit(s.k.events[e].kind), st);
    var p := ChosenIsWaiting(s, e);
    DeliverShrinks(s.k, e, msg, TypeBit(s.k.events[e].kind), st);
    DeliverReleases(s.k, e, msg, st, p, s.calls[p]);
    DeliverLists(s.k, e, msg, st, p, s.calls[p]);
    var s' := Sys(k', s.calls[p := s.calls[p].(done := Some(Delivery(e, msg, st)))]);
    assert HandOver(s, k', e, msg, st) == s';
    forall q | q in s'.k.tasks ensures TaskOk(s'.k, q, s'.calls[q]) {
      if q != p { OthersKeep(s.k, s'.k, q, s.calls[q]); }
    }
    ListsAfter(s, s', p);
  }

  lemma PostKeeps(s: Sys, e: EventId, msg: Msg)
    requires Inv(s) && Enabled(s, DoPost(e, msg))
    ensures Inv(Apply(s, DoPost(e, msg)))
  {
    if s.k.events[e].waiters != {} {
      InvGivesBounds(s);
      DeliverKeeps(s, e, msg, PendOk);
      hide Inv, Deliver;
    } else {
      UnitKeeps(s, e, msg);
    }
  }

  // Nobody waits: a unit more, or nothing.
  lemma UnitKeeps(s: Sys, e: EventId, msg: Msg)
    requires Inv(s) && Enabled(s, DoPost(e, msg)) && s.k.events[e].waiters == {}
    ensures Inv(Apply(s, DoPost(e, msg)))
  {
    hide TaskOk;
    var s' := Apply(s, DoPost(e, msg));
    forall q | q in s'.k.tasks ensures TaskOk(s'.k, q, s'.calls[q]) {
      OthersKeep(s.k, s'.k, q, s.calls[q]);
    }
  }

  lemma AbortKeeps(s: Sys, e: EventId)
    requires Inv(s) && Enabled(s, DoAbort(e))
    ensures Inv(Apply(s, DoAbort(e)))
  {
    if s.k.events[e].waiters != {} {
      DeliverKeeps(s, e, NULL_MSG, PendAbort);
    }
  }

  lemma ExpireKeeps(k: Kernel, k': Kernel, q: Prio, c: Call)
    requires q in k.tasks && q in k'.tasks && TaskOk(k, q, c) && SameKinds(k, k')
    requires k.tasks[q].dly > 0 && k'.tasks[q] == Expire(k.tasks[q])
    requires q in k'.ready <==> q in k.ready || !Suspended(k.tasks[q])
    ensures TaskOk(k', q, c)
  {
  }

  // A step that changes the control block and the readiness of one task.
  lemma OneTaskKeeps(s: Sys, k': Kernel, p: Prio)
    requires Inv(s) && p in s.k.tasks && p in k'.tasks && p != s.k.idle
    requires k' == s.k.(tasks := s.k.tasks[p := k'.tasks[p]], ready := k'.ready)
    requires forall q :: q != p ==> (q in k'.ready <==> q in s.k.ready)
    requires TaskOk(k', p, s.calls[p])
    ensures Inv(s.(k := k'))
  {
    hide TaskOk;
    forall q | q in k'.tasks ensures TaskOk(k', q, s.calls[q]) {
      if q != p { OthersKeep(s.k, k', q, s.calls[q]); }
    }
  }

  lemma TickKeeps(s: Sys, p: Prio)
    requires Inv(s) && Enabled(s, DoTick(p))
    ensures Inv(Apply(s, DoTick(p)))
  {
    hide TaskOk, ListsOk, NoIdleUnit;
    var k' := TickOne(s.k, p);
    TickTaskOk(s.k, k', p, s.calls[p]);
    OneTaskKeeps(s, k', p);
  }

  lemma TickTaskOk(k: Kernel, k': Kernel, p: Prio, c: Call)
    requires p in k.tasks && TaskOk(k, p, c) && k' == TickOne(k, p)
    ensures TaskOk(k', p, c)
  {
    if k.tasks[p].dly == 1 { ExpireKeeps(k, k', p, c); }
  }

  lemma DelayResumeKeeps(s: Sys, p: Prio)
    requires Inv(s) && Enabled(s, DoDelayResume(p))
    ensures Inv(Apply(s, DoDelayResume(p)))
  {
    hide TaskOk, ListsOk, NoIdleUnit, Expire;
    if s.k.tasks[p].dly != 0 {
      var k' := DelayResume(s.k, p);
      ExpireKeeps(s.k, k', p, s.calls[p]);
      OneTaskKeeps(s, k', p);
    }
  }

  lemma DelayKeeps(s: Sys, p: Prio, n: nat)
    requires Inv(s) && Enabled(s, DoDelay(p, n))
    ensures Inv(Apply(s, DoDelay(p, n)))
  {
    hide ListsOk, NoIdleUnit;
    var k' := Delay(s.k, p, n);
    assert TaskOk(s.k, p, s.calls[p]);
    assert TaskOk(k', p, s.calls[p]);
    hide TaskOk;
    OneTaskKeeps(s, k', p);
  }

  lemma SuspendKeeps(s: Sys, p: Prio)
    requires Inv(s) && Enabled(s, DoSuspend(p))
    ensures Inv(Apply(s, DoSuspend(p)))
  {
    hide TaskOk, ListsOk, NoIdleUnit;
    var k' := Suspend(s.k, p);
    SuspendTaskOk(s.k, k', p, s.calls[p]);
    OneTaskKeeps(s, k', p);
  }

  lemma SuspendTaskOk(k: Kernel, k': Kernel, p: Prio, c: Call)
    requires p in k.tasks && TaskOk(k, p, c) && k' == Suspend(k, p)
    ensures TaskOk(k', p, c)
  {
  }

  lemma ResumeKeeps(s: Sys, p: Prio)
    requires Inv(s) && Enabled(s, DoResume(p))
    ensures Inv(Apply(s, DoResume(p)))
  {
    hide TaskOk, ListsOk, NoIdleUnit;
    var k' := Resume(s.k, p);
    if Suspended(s.k.tasks[p]) {
      ResumeTaskOk(s.k, k', p, s.calls[p]);
      OneTaskKeeps(s, k', p);
    }
  }

  lemma ResumeTaskOk(k: Kernel, k': Kernel, p: Prio, c: Call)
    requires p in k.tasks && TaskOk(k, p, c) && Suspended(k.tasks[p]) && k' == Resume(k, p)
    ensures TaskOk(k', p, c)
  {
  }

  lemma CreateKeeps(s: Sys, p: Prio)
    requires Inv(s) && Enabled(s, DoCreate(p))
    ensures Inv(Apply(s, DoCreate(p)))
  {
    var s' := Apply(s, DoCreate(p));
    forall q | q in s'.k.tasks ensures TaskOk(s'.k, q, s'.calls[q]) {
      if q != p {
        assert TaskOk(s.k, q, s.calls[q]);
        OthersKeep(s.k, s'.k, q, s.calls[q]);
      }
    }
  }

  lemma StepKeeps(s: Sys, a: Step)
    requires Inv(s) && Enabled(s, a)
    ensures Inv(Apply(s, a))
  {
    match a
    case PendOne(p, e, timeout) => PendOneKeeps(s, p, e, timeout);
    case PendMany(p, es, timeout) => PendManyKeeps(s, p, es, timeout);
    case Wake(p) => WakeKeeps(s, p);
    case DoPost(e, msg) => PostKeeps(s, e, msg);
    case DoAbort(e) => AbortKeeps(s, e);
    case DoTick(p) => TickKeeps(s, p);
    case DoDelay(p, n) => DelayKeeps(s, p, n);
    case DoDelayResume(p) => DelayResumeKeeps(s, p);
    case DoSuspend(p) => SuspendKeeps(s, p);
    case DoResume(p) => ResumeKeeps(s, p);
    case DoCreate(p) => CreateKeeps(s, p);
  }

  // A task that is ready while some wait list still names it has timed out.
  lemma ReadyInListTimedOut(s: Sys, p: Prio, e: EventId)
    requires Inv(s) && e < |s.k.events| && p in s.k.ready && p in s.k.events[e].waiters
    ensures p in s.k.tasks && s.k.tasks[p].statPend == PendTo
  {
    assert WaitsOn(s.calls[p], e);
    assert TaskOk(s.k, p, s.calls[p]);
  }

  // ---------------------------------------------------------------------
  // Suspending a task around the end of its wait.

  ghost predicate WaitIsOver(s: Sys, p: Prio) {
    && p in s.k.tasks && p in s.calls && s.calls[p].Inside?
    && (s.calls[p].done.Some? || Expired(s.k, p, s.k.tasks[p], s.calls[p]))
  }

  // OSTaskResume readies a suspended task whose wait is over if and only if
  // it waited on a single event: OS_STAT_MULTI outlives the wait, and
  // OSTaskResume readies only a task with no status bit left.
  lemma ResumeAfterWait(s: Sys, p: Prio)
    requires Inv(s) && Enabled(s, DoResume(p)) && WaitIsOver(s, p) && Suspended(s.k.tasks[p])
    ensures p in Apply(s, DoResume(p)).k.ready <==> !s.calls[p].multi
  {
    assert TaskOk(s.k, p, s.calls[p]);
    var t := s.k.tasks[p];
    assert t.dly == 0;
    if s.calls[p].multi {
      assert t.stat & !STAT_SUSPEND != 0;
    }
  }

  // A multi-event wait that ended while its task is not ready.
  ghost predicate Lost(s: Sys, p: Prio) {
    p in s.k.tasks && p in s.calls && s.calls[p].Inside? && s.calls[p].multi && s.calls[p].done.Some?
    && p !in s.k.ready
  }

  // Such a task stays like that whatever happens next.
  lemma LostStays(s: Sys, a: Step, p: Prio)
    requires Inv(s) && Enabled(s, a) && Lost(s, p)
    ensures Lost(Apply(s, a), p)
  {
    hide Inv, TaskOk, Deliver, Poll, Await, Unwait;
    LostTask(s, p);
    match a
    case PendOne(_, _, _) =>
    case PendMany(_, _, _) =>
    case Wake(q) =>
    case DoPost(e, msg) => ServedOther(s, p, e, msg, PendOk);
    case DoAbort(e) => ServedOther(s, p, e, NULL_MSG, PendAbort);
    case DoTick(_) =>
    case DoDelay(_, _) =>
    case DoDelayResume(_) =>
    case DoSuspend(_) =>
    case DoResume(_) =>
    case DoCreate(_) =>
  }

  lemma LostTask(s: Sys, p: Prio)
    requires Inv(s) && Lost(s, p)
    ensures s.k.tasks[p].dly == 0 && s.k.tasks[p].stat & !STAT_SUSPEND != 0
  {
    var t := s.k.tasks[p];
    assert TaskOk(s.k, p, s.calls[p]);
    assert t.stat & STAT_MULTI != 0;
  }

  // A post or an abort serves another task than one whose wait has ended.
  lemma ServedOther(s: Sys, p: Prio, e: EventId, msg: Msg, st: PendStat)
    requires Inv(s) && e < |s.k.events| && Lost(s, p)
    ensures s.k.events[e].waiters <= s.k.tasks.Keys
    ensures s.k.events[e].waiters != {} ==>
      var q := Least(s.k.events[e].waiters); var k' := Deliver(s.k, e, msg, TypeBit(s.k.events[e].kind), st);
      q != p && p in k'.tasks && k'.tasks[p] == s.k.tasks[p] && p !in k'.ready
  {
    hide Inv, TaskOk, Deliver;
    InvGivesBounds(s);
    if s.k.events[e].waiters != {} {
      var q := ChosenIsWaiting(s, e);
      DeliverShrinks(s.k, e, msg, TypeBit(s.k.events[e].kind), st);
    }
  }
}
