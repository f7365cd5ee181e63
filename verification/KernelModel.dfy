/** The uC/OS-II kernel core on plain sets.

  One value of type Kernel is the kernel as it stands between two critical
  sections: the task control blocks by priority, the ready list as a set of
  priorities, and every event with its wait list as a set of priorities.
  Each function below is one critical section of the C code.  Module Kernels
  proves that the bitmap code computes exactly these functions; module
  KernelSafety proves what they keep over every run.

  Semaphore units, the mailbox message and the queue entries are all "stored
  units" of an event: a semaphore stores null messages.
*/
module KernelModel {
  import opened Options

  type Prio = nat
  type EventId = nat
  type Msg = int

  const NULL_MSG: Msg := 0

  // OSTCBStat bits.
  const STAT_SEM: bv8 := 0x01
  const STAT_MBOX: bv8 := 0x02
  const STAT_Q: bv8 := 0x04
  const STAT_SUSPEND: bv8 := 0x08
  const STAT_MULTI: bv8 := 0x80
  const STAT_PEND_ANY: bv8 := 0x37

  datatype PendStat = PendOk | PendTo | PendAbort

  datatype Task = Task(
    dly: nat,
    stat: bv8,
    statPend: PendStat,
    eventPtr: Option<EventId>,
    multi: Option<seq<EventId>>,
    msg: Msg)

  const NEW_TASK := Task(0, 0, PendOk, None, None, NULL_MSG)

  // Mutexes, flag groups and unused control blocks are refused by every
  // service modelled here, so they need no further structure.
  datatype Kind = Sem | Mbox | Queue | Other

  datatype Event = Event(kind: Kind, stored: seq<Msg>, cap: nat, waiters: set<Prio>)

  datatype Kernel = Kernel(idle: Prio, tasks: map<Prio, Task>, ready: set<Prio>, events: seq<Event>)

  function TypeBit(kind: Kind): bv8 {
    match kind
    case Sem => STAT_SEM
    case Mbox => STAT_MBOX
    case Queue => STAT_Q
    case Other => 0
  }

  predicate Suspended(t: Task) {
    t.stat & STAT_SUSPEND != 0
  }

  predicate InRange(events: seq<Event>, es: seq<EventId>) {
    forall i :: 0 <= i < |es| ==> es[i] < |events|
  }

  // The type check at the head of OSEventPendMulti.
  predicate Pendable(events: seq<Event>, es: seq<EventId>) {
    InRange(events, es) && forall i :: 0 <= i < |es| ==> events[es[i]].kind != Other
  }

  // ---------------------------------------------------------------------
  // The highest priority of a nonempty set is its least number.

  ghost predicate IsLeast(p: Prio, s: set<Prio>) {
    p in s && forall q :: q in s ==> p <= q
  }

  lemma {:induction false} LeastExists(s: set<Prio>)
    requires s != {}
    ensures exists p :: IsLeast(p, s)
    decreases |s|
  {
    var x :| x in s;
    if s == {x} {
      assert IsLeast(x, s);
    } else {
      var rest := s - {x};
      assert x !in rest && s == rest + {x};
      LeastExists(rest);
      var m :| IsLeast(m, rest);
      assert IsLeast(if x < m then x else m, s);
    }
  }

  ghost function Least(s: set<Prio>): (p: Prio)
    requires s != {}
    ensures IsLeast(p, s)
  {
    LeastExists(s);
    var p :| IsLeast(p, s);
    p
  }

  // ---------------------------------------------------------------------
  // Wait lists.

  // Equal but for the wait list.
  predicate SameUnits(a: Event, b: Event) {
    a.kind == b.kind && a.stored == b.stored && a.cap == b.cap
  }

  function Await(events: seq<Event>, p: Prio, es: seq<EventId>): (r: seq<Event>)
    ensures |r| == |events|
    ensures forall i :: 0 <= i < |r| ==> SameUnits(r[i], events[i])
    ensures forall i, q :: 0 <= i < |r| ==>
              (q in r[i].waiters <==> q in events[i].waiters || (q == p && i in es))
  {
    seq(|events|, i requires 0 <= i < |events| =>
      if i in es then events[i].(waiters := events[i].waiters + {p}) else events[i])
  }

  function Unwait(events: seq<Event>, p: Prio, es: seq<EventId>): (r: seq<Event>)
    ensures |r| == |events|
    ensures forall i :: 0 <= i < |r| ==> SameUnits(r[i], events[i])
    ensures forall i, q :: 0 <= i < |r| ==>
              (q in r[i].waiters <==> q in events[i].waiters && !(q == p && i in es))
  {
    seq(|events|, i requires 0 <= i < |events| =>
      if i in es then events[i].(waiters := events[i].waiters - {p}) else events[i])
  }

  // ---------------------------------------------------------------------
  // Taking stored units.

  function Take(events: seq<Event>, e: EventId): (r: seq<Event>)
    requires e < |events| && events[e].stored != []
    ensures |r| == |events|
  {
    events[e := events[e].(stored := events[e].stored[1..])]
  }

  // The poll of OSEventPendMulti: walk the array, take one unit wherever one
  // is stored, and collect the status bits of the events that had none.
  datatype Polled = Polled(events: seq<Event>, taken: seq<(EventId, Msg)>, stat: bv8)

  function Poll(events: seq<Event>, es: seq<EventId>): (r: Polled)
    requires InRange(events, es)
    ensures |r.events| == |events|
    decreases |es|
  {
    if es == [] then Polled(events, [], 0)
    else
      var before := Poll(events, es[..|es| - 1]);
      var e := es[|es| - 1];
      if before.events[e].stored != [] then
        Polled(Take(before.events, e), before.taken + [(e, before.events[e].stored[0])], before.stat)
      else
        before.(stat := before.stat | TypeBit(before.events[e].kind))
  }

  // The two arrays OSEventPendMulti fills: events and messages, by position.
  function Ids(taken: seq<(EventId, Msg)>): (r: seq<EventId>)
    ensures |r| == |taken|
  {
    seq(|taken|, i requires 0 <= i < |taken| => taken[i].0)
  }

  function Msgs(taken: seq<(EventId, Msg)>): (r: seq<Msg>)
    ensures |r| == |taken|
  {
    seq(|taken|, i requires 0 <= i < |taken| => taken[i].1)
  }

  // ---------------------------------------------------------------------
  // Blocking.

  // OSSemPend, OSMboxPend and OSQPend, from the status update to the end of
  // OS_EventTaskWait.
  function BlockOne(k: Kernel, p: Prio, e: EventId, timeout: nat): Kernel
    requires p in k.tasks && e < |k.events|
  {
    var t := k.tasks[p];
    k.(tasks := k.tasks[p := t.(stat := t.stat | TypeBit(k.events[e].kind), statPend := PendOk,
                                dly := timeout, eventPtr := Some(e))],
       ready := k.ready - {p},
       events := Await(k.events, p, [e]))
  }

  // OSEventPendMulti when nothing is available, with OS_EventTaskWaitMulti.
  function BlockMany(k: Kernel, p: Prio, es: seq<EventId>, stat: bv8, timeout: nat): Kernel
    requires p in k.tasks
  {
    var t := k.tasks[p];
    k.(tasks := k.tasks[p := t.(stat := t.stat | (stat | STAT_MULTI), statPend := PendOk,
                                dly := timeout, eventPtr := None, multi := Some(es))],
       ready := k.ready - {p},
       events := Await(k.events, p, es))
  }

  // ---------------------------------------------------------------------
  // OS_EventTaskRdy: hand a post or an abort to the best waiter.

  ghost function Deliver(k: Kernel, e: EventId, msg: Msg, msk: bv8, st: PendStat): Kernel
    requires e < |k.events| && k.events[e].waiters != {} && k.events[e].waiters <= k.tasks.Keys
  {
    var p := Least(k.events[e].waiters);
    var t := k.tasks[p];
    var stat := t.stat & !msk;
    var freed := Unwait(k.events, p, [e]);
    k.(tasks := k.tasks[p := t.(dly := 0, msg := msg, stat := stat, statPend := st,
                                eventPtr := if t.multi.Some? then Some(e) else t.eventPtr)],
       ready := if stat & STAT_SUSPEND == 0 then k.ready + {p} else k.ready,
       events := if t.multi.Some? then Unwait(freed, p, t.multi.value) else freed)
  }

  // OSSemPost, OSMboxPost, OSQPost: hand the unit to a waiter or store it.
  datatype PostResult = PostOk | PostFull

  ghost function Post(k: Kernel, e: EventId, msg: Msg): (r: (Kernel, PostResult))
    requires e < |k.events| && k.events[e].waiters <= k.tasks.Keys
  {
    var ev := k.events[e];
    if ev.waiters != {} then (Deliver(k, e, msg, TypeBit(ev.kind), PendOk), PostOk)
    else if |ev.stored| < ev.cap then
      (k.(events := k.events[e := ev.(stored := ev.stored + [msg])]), PostOk)
    else (k, PostFull)
  }

  // OSSemPendAbort, OSMboxPendAbort, OSQPendAbort for one waiter.
  ghost function Abort(k: Kernel, e: EventId): Kernel
    requires e < |k.events| && k.events[e].waiters <= k.tasks.Keys
  {
    if k.events[e].waiters != {}
    then Deliver(k, e, NULL_MSG, TypeBit(k.events[e].kind), PendAbort)
    else k
  }

  lemma DeliverShrinks(k: Kernel, e: EventId, msg: Msg, msk: bv8, st: PendStat)
    requires e < |k.events| && k.events[e].waiters != {} && k.events[e].waiters <= k.tasks.Keys
    ensures var k' := Deliver(k, e, msg, msk, st); var p := Least(k.events[e].waiters);
      && |k'.events| == |k.events| && k'.tasks.Keys == k.tasks.Keys && k'.idle == k.idle
      && k'.events[e].waiters == k.events[e].waiters - {p} && k'.events[e].kind == k.events[e].kind
      && k'.tasks == k.tasks[p := k'.tasks[p]]
      && k'.ready == (if k'.tasks[p].stat & STAT_SUSPEND == 0 then k.ready + {p} else k.ready)
      && k'.tasks[p].statPend == st && k'.tasks[p].dly == 0 && k'.tasks[p].msg == msg
      && k'.tasks[p].stat == k.tasks[p].stat & !msk
  {
  }

  // The same with OS_PEND_OPT_BROADCAST: until the wait list is empty.
  ghost function AbortAll(k: Kernel, e: EventId): Kernel
    requires e < |k.events| && k.events[e].waiters <= k.tasks.Keys
    decreases |k.events[e].waiters|
  {
    if k.events[e].waiters == {} then k
    else
      DeliverShrinks(k, e, NULL_MSG, TypeBit(k.events[e].kind), PendAbort);
      AbortAll(Abort(k, e), e)
  }

  lemma AbortStep(k: Kernel, e: EventId)
    requires e < |k.events| && k.events[e].waiters != {} && k.events[e].waiters <= k.tasks.Keys
    ensures var k' := Deliver(k, e, NULL_MSG, TypeBit(k.events[e].kind), PendAbort);
      && |k'.events| == |k.events| && k'.events[e].waiters <= k'.tasks.Keys
      && |k'.events[e].waiters| == |k.events[e].waiters| - 1 && k'.events[e].kind == k.events[e].kind
      && AbortAll(k', e) == AbortAll(k, e)
  {
    DeliverShrinks(k, e, NULL_MSG, TypeBit(k.events[e].kind), PendAbort);
    hide Deliver;
  }

  lemma NoneLeft(k: Kernel, e: EventId)
    requires e < |k.events| && k.events[e].waiters == {}
    ensures AbortAll(k, e) == k
  {
  }

  // From k to k' the tasks of ws were aborted and readied unless suspended,
  // and no other task changed.
  ghost predicate AbortedIn(k: Kernel, k': Kernel, ws: set<Prio>) {
    && ws <= k.tasks.Keys && k'.tasks.Keys == k.tasks.Keys
    && (forall q :: q in ws ==> k'.tasks[q].statPend == PendAbort && k'.tasks[q].dly == 0)
    && (forall q :: q in k.tasks && q !in ws ==> k'.tasks[q] == k.tasks[q])
    && (forall q :: q in k'.ready <==> q in k.ready || (q in ws && !Suspended(k'.tasks[q])))
  }

  lemma AbortedInTurn(k: Kernel, k1: Kernel, k2: Kernel, p: Prio, ws: set<Prio>)
    requires AbortedIn(k, k1, {p}) && AbortedIn(k1, k2, ws) && p !in ws
    ensures AbortedIn(k, k2, ws + {p})
  {
    hide Suspended;
    assert p in {p} && k2.tasks[p] == k1.tasks[p];
    forall q ensures q in k2.ready <==> q in k.ready || (q in ws + {p} && !Suspended(k2.tasks[q])) {
      if q != p { assert q !in {p}; }
    }
  }

  lemma AbortedFirst(k: Kernel, e: EventId)
    requires e < |k.events| && k.events[e].waiters != {} && k.events[e].waiters <= k.tasks.Keys
    ensures AbortedIn(k, Abort(k, e), {Least(k.events[e].waiters)})
  {
    DeliverShrinks(k, e, NULL_MSG, TypeBit(k.events[e].kind), PendAbort);
    hide Deliver;
  }

  lemma {:induction false} AllAbortedIn(k: Kernel, e: EventId)
    requires e < |k.events| && k.events[e].waiters <= k.tasks.Keys
    ensures var k' := AbortAll(k, e);
      |k'.events| == |k.events| && k'.events[e].waiters == {} && AbortedIn(k, k', k.events[e].waiters)
    decreases |k.events[e].waiters|
  {
    if k.events[e].waiters != {} {
      AbortStep(k, e);
      AbortedFirst(k, e);
      var k1 := Abort(k, e);
      var p := Least(k.events[e].waiters);
      assert k1.events[e].waiters == k.events[e].waiters - {p} by {
        DeliverShrinks(k, e, NULL_MSG, TypeBit(k.events[e].kind), PendAbort);
      }
      hide Deliver, AbortedIn;
      AllAbortedIn(k1, e);
      AbortedInTurn(k, k1, AbortAll(k1, e), p, k1.events[e].waiters);
      assert k1.events[e].waiters + {p} == k.events[e].waiters;
    } else {
      assert AbortedIn(k, k, {});
    }
  }

  // Every waiter, and no other task, ends up aborted, and ready unless it is
  // suspended.
  lemma AllAborted(k: Kernel, e: EventId)
    requires e < |k.events| && k.events[e].waiters <= k.tasks.Keys
    ensures var k' := AbortAll(k, e); var ws := k.events[e].waiters;
      && |k'.events| == |k.events| && k'.events[e].waiters == {} && k'.tasks.Keys == k.tasks.Keys
      && (forall q :: q in ws ==> k'.tasks[q].statPend == PendAbort && k'.tasks[q].dly == 0)
      && (forall q :: q in k.tasks && q !in ws ==> k'.tasks[q] == k.tasks[q])
      && k'.ready == k.ready + set q | q in ws && k'.tasks[q].stat & STAT_SUSPEND == 0
  {
    hide AbortAll;
    AllAbortedIn(k, e);
  }

  // ---------------------------------------------------------------------
  // The tick.

  // One control block seen by OSTimeTick; also OSTimeDlyResume's update.
  function Expire(t: Task): Task {
    if t.stat & STAT_PEND_ANY != 0
    then t.(dly := 0, stat := t.stat & !STAT_PEND_ANY, statPend := PendTo)
    else t.(dly := 0, statPend := PendOk)
  }

  function TickTask(t: Task): Task {
    if t.dly == 0 then t
    else if t.dly == 1 then Expire(t)
    else t.(dly := t.dly - 1)
  }

  predicate TickReadies(t: Task) {
    t.dly == 1 && !Suspended(t)
  }

  // OSTimeTick at one task: one critical section.
  function TickOne(k: Kernel, p: Prio): Kernel
    requires p in k.tasks
  {
    var t := k.tasks[p];
    k.(tasks := k.tasks[p := TickTask(t)], ready := if TickReadies(t) then k.ready + {p} else k.ready)
  }

  // OSTimeTick after it has visited the tasks in `seen`.
  function TickSome(k: Kernel, seen: set<Prio>): Kernel {
    k.(tasks := map p | p in k.tasks :: if p in seen then TickTask(k.tasks[p]) else k.tasks[p],
       ready := k.ready + set p | p in k.tasks && p in seen && TickReadies(k.tasks[p]))
  }

  function Tick(k: Kernel): Kernel {
    TickSome(k, k.tasks.Keys - {k.idle})
  }

  lemma NothingTicked(k: Kernel)
    ensures TickSome(k, {}) == k
  {
    assert TickSome(k, {}).tasks == k.tasks && TickSome(k, {}).ready == k.ready;
  }

  lemma TickSomeMore(k: Kernel, seen: set<Prio>, p: Prio)
    requires p in k.tasks && p !in seen
    ensures var k1 := TickSome(k, seen);
      p in k1.tasks && k1.tasks[p] == k.tasks[p] && TickSome(k, seen + {p}) == TickOne(k1, p)
  {
    var k1, k2 := TickSome(k, seen), TickSome(k, seen + {p});
    assert k2.tasks == k1.tasks[p := TickTask(k.tasks[p])];
    assert k2.ready == if TickReadies(k.tasks[p]) then k1.ready + {p} else k1.ready;
  }

  // OSTimeTick at one task after another.
  function TickInOrder(k: Kernel, ps: seq<Prio>): (k': Kernel)
    requires forall i :: 0 <= i < |ps| ==> ps[i] in k.tasks
    ensures k'.tasks.Keys == k.tasks.Keys
  {
    if ps == [] then k else TickOne(TickInOrder(k, ps[..|ps| - 1]), ps[|ps| - 1])
  }

  predicate NoRepeats(ps: seq<Prio>) {
    forall i, j :: 0 <= i < j < |ps| ==> ps[i] != ps[j]
  }

  function Elements(ps: seq<Prio>): (s: set<Prio>)
    ensures forall p :: p in s <==> p in ps
  {
    if ps == [] then {} else Elements(ps[..|ps| - 1]) + {ps[|ps| - 1]}
  }

  lemma {:induction false} InAnyOrder(k: Kernel, ps: seq<Prio>)
    requires NoRepeats(ps) && forall i :: 0 <= i < |ps| ==> ps[i] in k.tasks
    ensures TickInOrder(k, ps) == TickSome(k, Elements(ps))
  {
    hide TickSome, TickOne;
    if ps == [] {
      NothingTicked(k);
    } else {
      InAnyOrder(k, ps[..|ps| - 1]);
      TickSomeMore(k, Elements(ps[..|ps| - 1]), ps[|ps| - 1]);
    }
  }

  // A tick is one visit to every task but the idle one, in any order.
  lemma TickVisitsAll(k: Kernel, ps: seq<Prio>)
    requires NoRepeats(ps) && forall p :: p in ps <==> p in k.tasks && p != k.idle
    ensures TickInOrder(k, ps) == Tick(k)
  {
    InAnyOrder(k, ps);
    assert Elements(ps) == k.tasks.Keys - {k.idle};
  }

  // OSTickStepState; the last value stands for any other state the viewer tool
  // may have written.
  datatype TickStep = StepDis | StepWait | StepOnce | StepInvalid

  // Whether OSTimeTick processes the tick, and the state it leaves.
  predicate Processes(step: TickStep) {
    step != StepWait
  }

  function NextStep(step: TickStep): TickStep {
    match step
    case StepDis => StepDis
    case StepWait => StepWait
    case StepOnce => StepWait
    case StepInvalid => StepDis
  }

  // ---------------------------------------------------------------------
  // Delays, suspension, creation.

  // OSTimeDly by the current task, for a nonzero delay.
  function Delay(k: Kernel, p: Prio, n: nat): Kernel
    requires p in k.tasks
  {
    k.(tasks := k.tasks[p := k.tasks[p].(dly := n)], ready := k.ready - {p})
  }

  // OSTimeDlyResume on an existing task.
  function DelayResume(k: Kernel, p: Prio): Kernel
    requires p in k.tasks
  {
    var t := k.tasks[p];
    if t.dly == 0 then k
    else k.(tasks := k.tasks[p := Expire(t)], ready := if Suspended(t) then k.ready else k.ready + {p})
  }

  // OSTaskSuspend on an existing task.
  function Suspend(k: Kernel, p: Prio): Kernel
    requires p in k.tasks
  {
    var t := k.tasks[p];
    k.(tasks := k.tasks[p := t.(stat := t.stat | STAT_SUSPEND)], ready := k.ready - {p})
  }

  // OSTaskResume on an existing task.
  function Resume(k: Kernel, p: Prio): Kernel
    requires p in k.tasks
  {
    var t := k.tasks[p];
    if !Suspended(t) then k
    else
      var t' := t.(stat := t.stat & !STAT_SUSPEND);
      k.(tasks := k.tasks[p := t'],
         ready := if t'.stat == 0 && t'.dly == 0 then k.ready + {p} else k.ready)
  }

  // OS_TCBInit, seen from the tables indexed by priority.
  function Create(k: Kernel, p: Prio): Kernel {
    k.(tasks := k.tasks[p := NEW_TASK], ready := k.ready + {p})
  }

  // ---------------------------------------------------------------------
  // Waking up inside a pend service.

  datatype PendResult = GotEvent(e: EventId, msg: Msg) | Aborted(e: EventId) | TimedOut

  function Settle(t: Task): Task {
    t.(stat := 0, statPend := PendOk, eventPtr := None, multi := None)
  }

  // The second critical section of OSSemPend, OSMboxPend and OSQPend.
  function WakeOne(k: Kernel, p: Prio, e: EventId): (r: (Kernel, PendResult))
    requires p in k.tasks && e < |k.events|
  {
    var t := k.tasks[p];
    var settled := if k.events[e].kind == Sem then Settle(t) else Settle(t).(msg := NULL_MSG);
    var res := match t.statPend
      case PendOk => GotEvent(e, if k.events[e].kind == Sem then NULL_MSG else t.msg)
      case PendAbort => Aborted(e)
      case PendTo => TimedOut;
    var events := if t.statPend.PendTo? then Unwait(k.events, p, [e]) else k.events;
    (k.(tasks := k.tasks[p := settled], events := events), res)
  }

  // The second critical section of OSEventPendMulti.
  function WakeMany(k: Kernel, p: Prio, es: seq<EventId>): (r: (Kernel, PendResult))
    requires p in k.tasks
    requires k.tasks[p].eventPtr.Some? ==> k.tasks[p].eventPtr.value < |k.events|
  {
    var t := k.tasks[p];
    var settled := Settle(t).(msg := NULL_MSG);
    if t.statPend.PendTo? || t.eventPtr.None? then
      (k.(tasks := k.tasks[p := settled], events := Unwait(k.events, p, es)), TimedOut)
    else
      var e := t.eventPtr.value;
      (k.(tasks := k.tasks[p := settled]),
       if t.statPend.PendAbort? then Aborted(e)
       else GotEvent(e, if k.events[e].kind == Sem then NULL_MSG else t.msg))
  }
}
