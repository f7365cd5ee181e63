/** The uC/OS-II kernel core over its tables, for OS_LOWEST_PRIO <= 63.

  Every method is one C function, one of its critical sections, or an inline
  fragment that several share, and is proved to compute its counterpart in
  KernelModel on the state Abs().
*/
module Kernels {
  import opened Options
  import opened Bits
  import opened PrioBitmap
  import opened KernelModel
  import opened KernelTables
  import opened KernelLists
  import opened SchedNesting
  import MsgQueue

  // Results of the entry section of a pend service; Waiting means the caller
  // is blocked and will go through the exit section.
  datatype PendError = ErrNone | ErrEventType | ErrPendIsr | ErrPendLocked | Waiting

  datatype PostError = PostDone | PostNullPtr | PostEventType | PostNoRoom

  datatype DlyError = DlyDone | DlyPrioInvalid | DlyNotExist | DlyNotDelayed

  datatype CreateError = Created | CreatePrioInvalid | CreateIsr | CreateExists | CreateNoBlock

  datatype TaskError = TaskDone | TaskIsIdle | TaskPrioInvalid | TaskNoPrio | TaskReserved | TaskNotSuspended

  // OS_PRIO_SELF
  const PRIO_SELF: nat := 0xFF

  // OS_TCB_RESERVED
  const RESERVED: int := -2

  const TIME_WRAP: nat := 0x1_0000_0000

  class KernelCore {
    const lowest: nat
    const tcbs: array<Tcb>
    const prioTbl: array<int>
    const ecbs: array<Ecb>
    const rdyTbl: array<bv8>
    var rdyGrp: bv8

    // The running task, the nesting counters, the chosen priority and the
    // number of switches (OSTCBCur, OSPrioCur, OSIntNesting, OSLockNesting,
    // OSPrioHighRdy, OSCtxSwCtr).
    var cur: nat
    var prioCur: Prio
    var intNesting: nat
    var lockNesting: nat
    var prioHighRdy: Prio
    var ctxSwCtr: nat

    // The linked lists of control blocks and their ghost members.
    var tcbList: int
    var freeList: int
    var taskCtr: nat
    ghost var active: seq<nat>
    ghost var free: seq<nat>

    // OSRunning, OSTime and OSTickStepState.
    var running: bool
    var time: nat
    var tickStep: TickStep

    ghost predicate LinksOk()
      reads this, tcbs, prioTbl, ecbs, rdyTbl
    {
      Linked(Raw(), tcbList, freeList, taskCtr, active, free)
    }

    ghost function Raw(): Tables
      reads this, tcbs, prioTbl, ecbs, rdyTbl
    {
      Tables(lowest, tcbs[..], prioTbl[..], ecbs[..], rdyGrp, rdyTbl[..])
    }

    ghost predicate Valid()
      reads this, tcbs, prioTbl, ecbs, rdyTbl
    {
      Apart() && TablesOk(Raw())
    }

    // The tables are different objects.
    ghost predicate Apart() {
      && tcbs as object != ecbs && tcbs as object != rdyTbl && tcbs as object != prioTbl
      && ecbs as object != rdyTbl && ecbs as object != prioTbl && rdyTbl as object != prioTbl
    }

    ghost function Abs(): Kernel
      reads this, tcbs, prioTbl, ecbs, rdyTbl
      requires Valid()
    {
      AbsOf(Raw())
    }

    ghost predicate Is(i: int, p: Prio)
      reads this, tcbs, prioTbl, ecbs, rdyTbl
    {
      IsTask(Raw(), i, p)
    }

    ghost function Nesting(): Nest
      reads this
    {
      Nest(running, intNesting, lockNesting, prioCur)
    }

    // OSTCBCur belongs to OSPrioCur.
    ghost predicate Current()
      reads this, tcbs, prioTbl, ecbs, rdyTbl
    {
      Is(cur, prioCur)
    }

    // -------------------------------------------------------------------
    // Ready list and wait lists.

    // OSRdyGrp |= OSTCBBitY; OSRdyTbl[OSTCBY] |= OSTCBBitX.
    method SetReadyBits(t: Tcb)
      requires t.y < rdyTbl.Length
      modifies this`rdyGrp, rdyTbl
      ensures rdyTbl[..] == AddedRows(old(rdyTbl[..]), t) && rdyGrp == AddedGrp(old(rdyGrp), t)
    {
      hide Or8;
      rdyGrp := Or8(rdyGrp, t.bitY);
      rdyTbl[t.y] := Or8(rdyTbl[t.y], t.bitX);
    }

    method MakeReady(i: nat, ghost p: Prio)
      requires Valid() && Is(i, p)
      modifies this`rdyGrp, rdyTbl
      ensures Valid() && Abs() == old(Abs()).(ready := old(Abs()).ready + {p})
    {
      ghost var before := Raw();
      TaskAt(before, i, p);
      SetReadyBits(tcbs[i]);
      assert Raw() == Readied(before, before.tcbs[i]);
      ReadiedIs(before, Raw(), i, p);
    }

    // OSRdyTbl[y] &= ~OSTCBBitX, and the group bit once the row is empty.
    method ClearReadyBits(t: Tcb)
      requires t.y < rdyTbl.Length
      modifies this`rdyGrp, rdyTbl
      ensures rdyTbl[..] == DroppedRows(old(rdyTbl[..]), t)
      ensures rdyGrp == DroppedGrp(old(rdyGrp), old(rdyTbl[..]), t)
    {
      hide AndNot8;
      var row := AndNot8(rdyTbl[t.y], t.bitX);
      rdyTbl[t.y] := row;
      if row == 0 {
        rdyGrp := AndNot8(rdyGrp, t.bitY);
      }
    }

    method MakeUnready(i: nat, ghost p: Prio)
      requires Valid() && Is(i, p)
      modifies this`rdyGrp, rdyTbl
      ensures Valid() && Abs() == old(Abs()).(ready := old(Abs()).ready - {p})
    {
      ghost var before := Raw();
      TaskAt(before, i, p);
      ClearReadyBits(tcbs[i]);
      assert Raw() == Unreadied(before, before.tcbs[i]);
      UnreadiedIs(before, Raw(), i, p);
    }

    // OSEventTbl[y] &= ~OSTCBBitX, and the group bit once the row is empty.
    method ClearWaitBits(x: Ecb, t: Tcb) returns (x': Ecb)
      requires t.y < |x.tbl|
      ensures x' == Left(x, t)
    {
      hide AndNot8;
      var row := AndNot8(x.tbl[t.y], t.bitX);
      x' := x.(tbl := x.tbl[t.y := row]);
      if row == 0 {
        x' := x'.(grp := AndNot8(x.grp, t.bitY));
      }
    }

    // OS_EventTaskRemove
    method EventTaskRemove(i: nat, ghost p: Prio, e: EventId)
      requires Valid() && Is(i, p) && e < ecbs.Length
      modifies ecbs
      ensures Valid() && Abs() == old(Abs()).(events := Unwait(old(Abs()).events, p, [e]))
    {
      ghost var before := Raw();
      TaskAt(before, i, p);
      var x := ClearWaitBits(ecbs[e], tcbs[i]);
      ecbs[e] := x;
      assert ecbs[..] == before.ecbs[e := x];
      LeftOneIs(before, Raw(), i, p, e);
    }

    // OSEventTbl[y] |= OSTCBBitX; OSEventGrp |= OSTCBBitY.
    method SetWaitBits(x: Ecb, t: Tcb) returns (x': Ecb)
      requires t.y < |x.tbl|
      ensures x' == Joined(x, t)
    {
      hide Or8;
      x' := x.(tbl := x.tbl[t.y := Or8(x.tbl[t.y], t.bitX)]);
      x' := x'.(grp := Or8(x'.grp, t.bitY));
    }

    // The body of the loop that enters a task into wait lists.
    method EventTaskJoin(i: nat, ghost p: Prio, e: EventId)
      requires Valid() && Is(i, p) && e < ecbs.Length
      modifies ecbs
      ensures Valid() && Abs() == old(Abs()).(events := Await(old(Abs()).events, p, [e]))
    {
      ghost var before := Raw();
      TaskAt(before, i, p);
      var x := SetWaitBits(ecbs[e], tcbs[i]);
      ecbs[e] := x;
      assert ecbs[..] == before.ecbs[e := x];
      JoinedOneIs(before, Raw(), i, p, e);
    }

    // OS_EventTaskRemoveMulti
    method EventTaskRemoveMulti(i: nat, ghost p: Prio, es: seq<EventId>)
      requires Valid() && Is(i, p) && forall j :: 0 <= j < |es| ==> es[j] < ecbs.Length
      modifies ecbs
      ensures Valid() && Abs() == old(Abs()).(events := Unwait(old(Abs()).events, p, es))
    {
      hide TablesOk, AbsOf;
      ghost var k0 := Abs();
      var n := 0;
      assert Unwait(k0.events, p, es[..0]) == k0.events;
      hide Unwait;
      while n < |es|
        invariant 0 <= n <= |es| && Valid() && Is(i, p)
        invariant Abs() == k0.(events := Unwait(k0.events, p, es[..n]))
      {
        EventTaskRemove(i, p, es[n]);
        UnwaitMore(k0.events, p, es, n);
        n := n + 1;
      }
      assert es[..n] == es;
    }

    // A status update in one control block.
    method SetTask(i: nat, ghost p: Prio, t: Task)
      requires Valid() && Is(i, p) && RefsOk(t, ecbs.Length)
      modifies tcbs
      ensures Valid() && Abs() == old(Abs()).(tasks := old(Abs()).tasks[p := t])
      ensures tcbs[i].task == t && SameLinks(old(tcbs[..]), tcbs[..])
    {
      ghost var before := Raw();
      tcbs[i] := tcbs[i].(task := t);
      assert tcbs[..] == before.tcbs[i := before.tcbs[i].(task := t)];
      TaskSetIs(before, Raw(), i, p, t);
    }

    // The table lookups of OS_EventTaskRdy.
    method FindBestWaiter(e: EventId) returns (prio: Prio, i: nat)
      requires Valid() && e < ecbs.Length && Abs().events[e].waiters != {}
      ensures prio == Least(Abs().events[e].waiters) && Is(i, prio)
      ensures prio in Abs().tasks && Abs().tasks[prio] == tcbs[i].task && RefsOk(tcbs[i].task, ecbs.Length)
    {
      hide TablesOk, AbsOf, UnMap;
      BestWaiter(Raw(), e);
      var y := UnMap(ecbs[e].grp);
      var x := UnMap(ecbs[e].tbl[y]);
      prio := 8 * y + x;
      i := prioTbl[prio];
      TaskAt(Raw(), i, prio);
    }

    // Store a released task's status, and make it ready unless suspended.
    method Release(i: nat, ghost p: Prio, t: Task)
      requires Valid() && Is(i, p) && RefsOk(t, ecbs.Length)
      modifies this`rdyGrp, rdyTbl, tcbs
      ensures Valid() && tcbs[i].task == t && SameLinks(old(tcbs[..]), tcbs[..])
      ensures Abs() == old(Abs()).(tasks := old(Abs()).tasks[p := t],
                                   ready := if t.stat & STAT_SUSPEND == 0 then old(Abs()).ready + {p}
                                            else old(Abs()).ready)
    {
      SetTask(i, p, t);
      if t.stat & STAT_SUSPEND == 0 {
        MakeReady(i, p);
      }
    }

    // Take a released task out of its wait lists.
    method LeaveLists(i: nat, ghost p: Prio, e: EventId, t: Task)
      requires Valid() && Is(i, p) && tcbs[i].task == t && RefsOk(t, ecbs.Length) && e < ecbs.Length
      modifies ecbs, tcbs
      ensures Valid() && SameLinks(old(tcbs[..]), tcbs[..])
      ensures var freed := Unwait(old(Abs()).events, p, [e]);
        Abs() == if t.multi.Some?
                 then old(Abs()).(tasks := old(Abs()).tasks[p := t.(eventPtr := Some(e))],
                                  events := Unwait(freed, p, t.multi.value))
                 else old(Abs()).(events := freed)
    {
      EventTaskRemove(i, p, e);
      if t.multi.Some? {
        EventTaskRemoveMulti(i, p, t.multi.value);
        SetTask(i, p, t.(eventPtr := Some(e)));
      }
    }

    // OS_EventTaskRdy once the waiter is known: its new status is t.
    method HandTo(i: nat, ghost p: Prio, e: EventId, t: Task)
      requires Valid() && Is(i, p) && RefsOk(t, ecbs.Length) && e < ecbs.Length
      modifies this`rdyGrp, rdyTbl, ecbs, tcbs
      ensures Valid() && SameLinks(old(tcbs[..]), tcbs[..])
      ensures Abs() == HandedOver(old(Abs()), p, e, t)
    {
      Release(i, p, t);
      LeaveLists(i, p, e, t);
    }

    // OS_EventTaskRdy
    method EventTaskRdy(e: EventId, msg: Msg, msk: bv8, st: PendStat) returns (prio: Prio)
      requires Valid() && e < ecbs.Length && Abs().events[e].waiters != {}
      requires Abs().events[e].waiters <= Abs().tasks.Keys
      modifies this`rdyGrp, rdyTbl, ecbs, tcbs
      ensures Valid() && Abs() == Deliver(old(Abs()), e, msg, msk, st)
      ensures prio == Least(old(Abs()).events[e].waiters) && SameLinks(old(tcbs[..]), tcbs[..])
    {
      var i;
      prio, i := FindBestWaiter(e);
      var t := tcbs[i].task;
      t := t.(dly := 0, msg := msg, stat := t.stat & !msk, statPend := st);
      DeliverInSteps(Abs(), e, msg, msk, st, prio, t);
      HandTo(i, prio, e, t);
    }

    // -------------------------------------------------------------------
    // Taking units.

    method TakeUnit(e: EventId) returns (msg: Msg)
      requires Valid() && e < ecbs.Length && HasUnit(ecbs[e])
      modifies ecbs
      ensures Valid() && old(Abs()).events[e].stored != []
      ensures Abs() == old(Abs()).(events := Take(old(Abs()).events, e))
      ensures msg == old(Abs()).events[e].stored[0]
      ensures MsgQueue.RingOk(old(ecbs[e]).q) && match old(ecbs[e]).kind
        case Sem => ecbs[e] == old(ecbs[e]).(cnt := old(ecbs[e]).cnt - 1) && msg == NULL_MSG
        case Mbox => ecbs[e] == old(ecbs[e]).(msg := NULL_MSG) && msg == old(ecbs[e]).msg
        case Queue => ecbs[e] == old(ecbs[e]).(q := ecbs[e].q) && (ecbs[e].q, msg) == MsgQueue.Get(old(ecbs[e]).q)
    {
      ghost var before := Raw();
      var x := ecbs[e];
      HasUnitIs(x);
      match x.kind {
        case Sem =>
          msg := NULL_MSG;
          ecbs[e] := x.(cnt := x.cnt - 1);
        case Mbox =>
          msg := x.msg;
          ecbs[e] := x.(msg := NULL_MSG);
        case Queue =>
          var r := MsgQueue.Get(x.q);
          msg := r.1;
          ecbs[e] := x.(q := r.0);
      }
      assert ecbs[..] == before.ecbs[e := TakenOne(x).0];
      UnitTakenIs(before, Raw(), e, TakenOne(x).0);
    }

    // The poll loop of OSEventPendMulti.
    method PollEvents(es: seq<EventId>) returns (rdy: seq<EventId>, msgs: seq<Msg>, stat: bv8)
      requires Valid() && Pendable(Abs().events, es)
      modifies ecbs
      ensures Valid() && var r := Poll(old(Abs()).events, es);
        Abs() == old(Abs()).(events := r.events) && rdy == Ids(r.taken) && msgs == Msgs(r.taken) && stat == r.stat
    {
      ghost var k0 := Abs();
      rdy, msgs, stat := [], [], 0;
      var n := 0;
      assert es[..0] == [];
      while n < |es|
        invariant 0 <= n <= |es| && Valid()
        invariant var r := Poll(k0.events, es[..n]);
          Abs() == k0.(events := r.events) && rdy == Ids(r.taken) && msgs == Msgs(r.taken) && stat == r.stat
      {
        PollNext(k0.events, es, n);
        EventAt(Raw(), es[n]);
        hide TablesOk, AbsOf, EventOf, Poll, TypeBit;
        var e := es[n];
        if HasUnit(ecbs[e]) {
          var msg := TakeUnit(e);
          rdy, msgs := rdy + [e], msgs + [msg];
        } else {
          stat := stat | TypeBit(ecbs[e].kind);
        }
        n := n + 1;
      }
      assert es[..n] == es;
    }

    // -------------------------------------------------------------------
    // Pending on one event.

    // OS_EventTaskWait
    method EventTaskWait(e: EventId)
      requires Valid() && Is(cur, prioCur) && e < ecbs.Length
      modifies this`rdyGrp, rdyTbl, ecbs
      ensures Valid()
      ensures Abs() == old(Abs()).(ready := old(Abs()).ready - {prioCur},
                                   events := Await(old(Abs()).events, prioCur, [e]))
    {
      hide TablesOk, AbsOf, Await;
      EventTaskJoin(cur, prioCur, e);
      MakeUnready(cur, prioCur);
    }

    // The status update of a pend service and its wait: t is the new status.
    method WaitWith(t: Task, e: EventId)
      requires Valid() && Is(cur, prioCur) && e < ecbs.Length && RefsOk(t, ecbs.Length)
      modifies this`rdyGrp, rdyTbl, ecbs, tcbs
      ensures Valid() && SameLinks(old(tcbs[..]), tcbs[..])
      ensures Abs() == old(Abs()).(tasks := old(Abs()).tasks[prioCur := t], ready := old(Abs()).ready - {prioCur},
                                   events := Await(old(Abs()).events, prioCur, [e]))
    {
      hide TablesOk, AbsOf, Await;
      SetTask(cur, prioCur, t);
      EventTaskWait(e);
    }

    method BlockOnOne(e: EventId, timeout: nat)
      requires Valid() && Is(cur, prioCur) && e < ecbs.Length
      modifies this`rdyGrp, rdyTbl, ecbs, tcbs
      ensures Valid() && Abs() == BlockOne(old(Abs()), prioCur, e, timeout)
      ensures SameLinks(old(tcbs[..]), tcbs[..])
    {
      hide TablesOk, AbsOf, EventOf, Await, TypeBit, BlockOne, IsTask, TcbFor;
      TaskAt(Raw(), cur, prioCur);
      EventAt(Raw(), e);
      var t := tcbs[cur].task;
      t := t.(stat := t.stat | TypeBit(ecbs[e].kind), statPend := PendOk, dly := timeout, eventPtr := Some(e));
      BlockOneInSteps(Abs(), prioCur, e, timeout, t);
      WaitWith(t, e);
    }

    // The entry section of OSSemPend, OSMboxPend and OSQPend: `kind` is the
    // type the service requires.
    method PendEnter(kind: Kind, e: EventId, timeout: nat) returns (err: PendError, msg: Msg)
      requires Valid() && Is(cur, prioCur) && e < ecbs.Length && kind != Other
      modifies this`rdyGrp, rdyTbl, ecbs, tcbs
      ensures Valid() && SameLinks(old(tcbs[..]), tcbs[..])
      ensures err == if old(ecbs[e]).kind != kind then ErrEventType
                     else if intNesting > 0 then ErrPendIsr
                     else if lockNesting > 0 then ErrPendLocked
                     else if old(Abs()).events[e].stored != [] then ErrNone else Waiting
      ensures Abs() == if err == ErrNone then old(Abs()).(events := Take(old(Abs()).events, e))
                       else if err == Waiting then BlockOne(old(Abs()), prioCur, e, timeout)
                       else old(Abs())
      ensures err == ErrNone ==> msg == old(Abs()).events[e].stored[0]
      ensures MsgQueue.RingOk(old(ecbs[e]).q)
      ensures err == ErrNone || err == Waiting ==>
                (err == ErrNone <==> match kind
                 case Sem => old(ecbs[e]).cnt > 0
                 case Mbox => old(ecbs[e]).msg != NULL_MSG
                 case Queue => old(ecbs[e]).q.entries > 0)
      ensures err == ErrNone ==>
                match kind
                case Sem => ecbs[e] == old(ecbs[e]).(cnt := old(ecbs[e]).cnt - 1) && msg == NULL_MSG
                case Mbox => ecbs[e] == old(ecbs[e]).(msg := NULL_MSG) && msg == old(ecbs[e]).msg
                case Queue =>
                  ecbs[e] == old(ecbs[e]).(q := ecbs[e].q) && (ecbs[e].q, msg) == MsgQueue.Get(old(ecbs[e]).q)
    {
      hide TablesOk, AbsOf, EventOf, GroupOk, Members, Stored, BlockOne, Take;
      EcbAt(Raw(), e);
      EventAt(Raw(), e);
      msg := NULL_MSG;
      if ecbs[e].kind != kind {
        return ErrEventType, msg;
      }
      if intNesting > 0 {
        return ErrPendIsr, msg;
      }
      if lockNesting > 0 {
        return ErrPendLocked, msg;
      }
      if HasUnit(ecbs[e]) {
        err := ErrNone;
        msg := TakeUnit(e);
      } else {
        err := Waiting;
        BlockOnOne(e, timeout);
      }
    }

    // The exit section of OSSemPend, OSMboxPend and OSQPend, once the caller
    // runs again.
    method PendExit(e: EventId) returns (res: PendResult)
      requires Valid() && Is(cur, prioCur) && e < ecbs.Length
      modifies ecbs, tcbs
      ensures Valid() && SameLinks(old(tcbs[..]), tcbs[..])
      ensures (Abs(), res) == WakeOne(old(Abs()), prioCur, e)
    {
      hide TablesOk, AbsOf, EventOf, Unwait;
      TaskAt(Raw(), cur, prioCur);
      EventAt(Raw(), e);
      var sem := ecbs[e].kind == Sem;
      var t := tcbs[cur].task;
      match t.statPend {
        case PendOk => res := GotEvent(e, if sem then NULL_MSG else t.msg);
        case PendAbort => res := Aborted(e);
        case PendTo =>
          EventTaskRemove(cur, prioCur, e);
          res := TimedOut;
      }
      t := t.(stat := 0, statPend := PendOk, eventPtr := None, multi := None);
      SetTask(cur, prioCur, if sem then t else t.(msg := NULL_MSG));
    }

    // -------------------------------------------------------------------
    // OSEventPendMulti.

    // OS_EventTaskWaitMulti
    method EventTaskWaitMulti(es: seq<EventId>)
      requires Valid() && Is(cur, prioCur) && forall j :: 0 <= j < |es| ==> es[j] < ecbs.Length
      modifies this`rdyGrp, rdyTbl, ecbs
      ensures Valid()
      ensures Abs() == old(Abs()).(ready := old(Abs()).ready - {prioCur},
                                   events := Await(old(Abs()).events, prioCur, es))
    {
      hide TablesOk, AbsOf;
      ghost var k0 := Abs();
      var n := 0;
      assert Await(k0.events, prioCur, es[..0]) == k0.events;
      hide Await;
      while n < |es|
        invariant 0 <= n <= |es| && Valid() && Is(cur, prioCur)
        invariant Abs() == k0.(events := Await(k0.events, prioCur, es[..n]))
      {
        EventTaskJoin(cur, prioCur, es[n]);
        AwaitMore(k0.events, prioCur, es, n);
        n := n + 1;
      }
      assert es[..n] == es;
      MakeUnready(cur, prioCur);
    }

    // The same for OSEventPendMulti.
    method WaitWithMulti(t: Task, es: seq<EventId>)
      requires Valid() && Is(cur, prioCur) && RefsOk(t, ecbs.Length)
      requires forall j :: 0 <= j < |es| ==> es[j] < ecbs.Length
      modifies this`rdyGrp, rdyTbl, ecbs, tcbs
      ensures Valid() && SameLinks(old(tcbs[..]), tcbs[..])
      ensures Abs() == old(Abs()).(tasks := old(Abs()).tasks[prioCur := t], ready := old(Abs()).ready - {prioCur},
                                   events := Await(old(Abs()).events, prioCur, es))
    {
      hide TablesOk, AbsOf, Await;
      SetTask(cur, prioCur, t);
      EventTaskWaitMulti(es);
    }

    // The status update and the wait when nothing is available.
    method BlockOnMany(es: seq<EventId>, stat: bv8, timeout: nat)
      requires Valid() && Is(cur, prioCur) && forall j :: 0 <= j < |es| ==> es[j] < ecbs.Length
      modifies this`rdyGrp, rdyTbl, ecbs, tcbs
      ensures Valid() && Abs() == BlockMany(old(Abs()), prioCur, es, stat, timeout)
      ensures SameLinks(old(tcbs[..]), tcbs[..])
    {
      hide TablesOk, AbsOf, Await, BlockMany, IsTask, TcbFor;
      TaskAt(Raw(), cur, prioCur);
      var t := tcbs[cur].task;
      t := t.(stat := t.stat | (stat | STAT_MULTI), statPend := PendOk, dly := timeout, eventPtr := None,
              multi := Some(es));
      BlockManyInSteps(Abs(), prioCur, es, stat, timeout, t);
      WaitWithMulti(t, es);
    }

    // The validation loop of OSEventPendMulti.
    method CheckTypes(es: seq<EventId>) returns (ok: bool)
      requires Valid() && InRange(Abs().events, es)
      ensures ok <==> Pendable(Abs().events, es)
    {
      ok := true;
      var n := 0;
      while n < |es|
        invariant 0 <= n <= |es| && ok
        invariant forall j :: 0 <= j < n ==> Abs().events[es[j]].kind != Other
      {
        EventAt(Raw(), es[n]);
        if ecbs[es[n]].kind == Other {
          return false;
        }
        n := n + 1;
      }
    }

    // OSEventPendMulti up to its return or its wait.  rdy and msgs are the
    // arrays it fills.
    method EventPendMultiEnter(es: seq<EventId>, timeout: nat)
      returns (err: PendError, rdy: seq<EventId>, msgs: seq<Msg>)
      requires Valid() && Is(cur, prioCur) && InRange(Abs().events, es)
      modifies this`rdyGrp, rdyTbl, ecbs, tcbs
      ensures Valid() && SameLinks(old(tcbs[..]), tcbs[..])
      ensures err == if !Pendable(old(Abs()).events, es) then ErrEventType
                     else if intNesting > 0 then ErrPendIsr
                     else if lockNesting > 0 then ErrPendLocked
                     else if Poll(old(Abs()).events, es).taken != [] then ErrNone else Waiting
      ensures var r := Poll(old(Abs()).events, es);
        && Abs() == (if err == ErrNone then old(Abs()).(events := r.events)
                     else if err == Waiting then BlockMany(old(Abs()), prioCur, es, r.stat, timeout)
                     else old(Abs()))
        && rdy == (if err == ErrNone then Ids(r.taken) else [])
        && msgs == (if err == ErrNone then Msgs(r.taken) else [])
    {
      rdy, msgs := [], [];
      var ok := CheckTypes(es);
      if !ok {
        return ErrEventType, rdy, msgs;
      }
      if intNesting > 0 {
        return ErrPendIsr, rdy, msgs;
      }
      if lockNesting > 0 {
        return ErrPendLocked, rdy, msgs;
      }
      ghost var k := Abs();
      ghost var r := Poll(k.events, es);
      hide TablesOk, Poll, BlockMany;
      var stat;
      rdy, msgs, stat := PollEvents(es);
      if |rdy| > 0 {
        assert |rdy| == |r.taken|;
        return ErrNone, rdy, msgs;
      }
      assert r.taken == [];
      NothingPolled(k.events, es);
      assert Abs() == k;
      BlockOnMany(es, stat, timeout);
      return Waiting, [], [];
    }

    // The first switch after the wait: a timeout, or no event recorded, takes
    // the task out of every list.  st is the pend status it leaves.
    method SettleOutcome(es: seq<EventId>) returns (st: PendStat)
      requires Valid() && Is(cur, prioCur) && InRange(Abs().events, es)
      modifies ecbs
      ensures Valid() && st == OutcomeOf(tcbs[cur].task)
      ensures Abs() == if st == PendTo then old(Abs()).(events := Unwait(old(Abs()).events, prioCur, es))
                       else old(Abs())
    {
      TaskAt(Raw(), cur, prioCur);
      var t := tcbs[cur].task;
      st := t.statPend;
      if st != PendTo && t.eventPtr.None? {
        st := PendTo;
        EventTaskRemoveMulti(cur, prioCur, es);
      } else if st == PendTo {
        EventTaskRemoveMulti(cur, prioCur, es);
      }
    }

    // The two switches and the clearing of the status.
    method SettleTask(es: seq<EventId>, t: Task)
      requires Valid() && Is(cur, prioCur) && InRange(Abs().events, es) && RefsOk(t, ecbs.Length)
      modifies ecbs, tcbs
      ensures Valid() && SameLinks(old(tcbs[..]), tcbs[..])
      ensures Abs() == old(Abs()).(tasks := old(Abs()).tasks[prioCur := t],
                                   events := if OutcomeOf(old(tcbs[cur]).task) == PendTo
                                             then Unwait(old(Abs()).events, prioCur, es) else old(Abs()).events)
    {
      hide TablesOk, AbsOf, EventOf, Unwait;
      var st := SettleOutcome(es);
      SetTask(cur, prioCur, t);
    }

    // OSEventPendMulti once the caller runs again.
    method EventPendMultiExit(es: seq<EventId>) returns (res: PendResult)
      requires Valid() && Is(cur, prioCur) && InRange(Abs().events, es)
      modifies ecbs, tcbs
      ensures Valid() && SameLinks(old(tcbs[..]), tcbs[..])
      ensures prioCur in old(Abs()).tasks
      ensures var t := old(Abs()).tasks[prioCur];
        && (t.eventPtr.Some? ==> t.eventPtr.value < |old(Abs()).events|)
        && (Abs(), res) == WakeMany(old(Abs()), prioCur, es)
    {
      hide TablesOk, AbsOf, EventOf, Unwait, WakeMany;
      TaskAt(Raw(), cur, prioCur);
      var t := tcbs[cur].task;
      if t.eventPtr.Some? { EventAt(Raw(), t.eventPtr.value); }
      match OutcomeOf(t) {
        case PendOk =>
          res := GotEvent(t.eventPtr.value, if ecbs[t.eventPtr.value].kind == Sem then NULL_MSG else t.msg);
        case PendAbort => res := Aborted(t.eventPtr.value);
        case PendTo => res := TimedOut;
      }
      WakeManyInSteps(Abs(), prioCur, es, t, res);
      SettleTask(es, t.(stat := 0, statPend := PendOk, eventPtr := None, multi := None, msg := NULL_MSG));
    }

    // -------------------------------------------------------------------
    // Posting and aborting.

    method StoreUnit(e: EventId, msg: Msg)
      requires Valid() && e < ecbs.Length && HasRoom(ecbs[e])
      requires (ecbs[e].kind == Sem ==> msg == NULL_MSG) && (ecbs[e].kind == Mbox ==> msg != NULL_MSG)
      modifies ecbs
      ensures Valid()
      ensures var ev := old(Abs()).events[e];
        Abs() == old(Abs()).(events := old(Abs()).events[e := ev.(stored := ev.stored + [msg])])
      ensures MsgQueue.RingOk(old(ecbs[e]).q) && ecbs[e] == match old(ecbs[e]).kind
        case Sem => old(ecbs[e]).(cnt := old(ecbs[e]).cnt + 1)
        case Mbox => old(ecbs[e]).(msg := msg)
        case Queue => old(ecbs[e]).(q := MsgQueue.Put(old(ecbs[e]).q, msg))
    {
      ghost var before := Raw();
      var x := ecbs[e];
      RoomAt(before, e);
      match x.kind {
        case Sem => ecbs[e] := x.(cnt := x.cnt + 1);
        case Mbox => ecbs[e] := x.(msg := msg);
        case Queue => ecbs[e] := x.(q := MsgQueue.Put(x.q, msg));
      }
      assert ecbs[..] == before.ecbs[e := StoredOne(x, msg)];
      UnitStoredIs(before, Raw(), e, msg, StoredOne(x, msg));
    }

    // OSSemPost, OSMboxPost and OSQPost: `kind` is the type the service
    // requires.  The scheduler runs after a hand-over (see Sched).
    method PostTo(kind: Kind, e: EventId, msg: Msg) returns (err: PostError)
      requires Valid() && e < ecbs.Length && kind != Other && (kind == Sem ==> msg == NULL_MSG)
      modifies this`rdyGrp, rdyTbl, ecbs, tcbs
      ensures Valid() && SameLinks(old(tcbs[..]), tcbs[..])
      ensures old(Abs()).events[e].waiters <= old(Abs()).tasks.Keys
      ensures err == if kind == Mbox && msg == NULL_MSG then PostNullPtr
                     else if old(ecbs[e]).kind != kind then PostEventType
                     else if Post(old(Abs()), e, msg).1 == PostFull then PostNoRoom else PostDone
      ensures Abs() == if err == PostDone then Post(old(Abs()), e, msg).0 else old(Abs())
      ensures MsgQueue.RingOk(old(ecbs[e]).q) && (err != PostDone ==> ecbs[..] == old(ecbs[..]))
      ensures old(Abs()).events[e].waiters == {} && err != PostNullPtr && err != PostEventType ==>
                match kind
                case Sem =>
                  && (err == PostNoRoom <==> old(ecbs[e]).cnt == 65535)
                  && (err == PostDone ==> ecbs[e] == old(ecbs[e]).(cnt := old(ecbs[e]).cnt + 1))
                case Mbox =>
                  && (err == PostNoRoom <==> old(ecbs[e]).msg != NULL_MSG)
                  && (err == PostDone ==> ecbs[e] == old(ecbs[e]).(msg := msg))
                case Queue =>
                  && ecbs[e] == old(ecbs[e]).(q := MsgQueue.Offer(old(ecbs[e]).q, msg).0)
                  && (err == PostDone <==> MsgQueue.Offer(old(ecbs[e]).q, msg).1)
    {
      WaitingAt(Raw(), e);
      RoomAt(Raw(), e);
      hide TablesOk, AbsOf, EventOf, Deliver, TypeBit;
      if kind == Mbox && msg == NULL_MSG {
        return PostNullPtr;
      }
      if ecbs[e].kind != kind {
        return PostEventType;
      }
      if ecbs[e].grp != 0 {
        var p := EventTaskRdy(e, msg, TypeBit(kind), PendOk);
        return PostDone;
      }
      EcbAt(Raw(), e);
      if HasRoom(ecbs[e]) {
        StoreUnit(e, msg);
        return PostDone;
      }
      return PostNoRoom;
    }

    // OSSemPendAbort, OSMboxPendAbort and OSQPendAbort without broadcast.
    method PendAbortOne(kind: Kind, e: EventId) returns (err: PostError, nbr: nat)
      requires Valid() && e < ecbs.Length && kind != Other
      modifies this`rdyGrp, rdyTbl, ecbs, tcbs
      ensures Valid() && SameLinks(old(tcbs[..]), tcbs[..])
      ensures old(Abs()).events[e].waiters <= old(Abs()).tasks.Keys
      ensures err == if old(ecbs[e]).kind != kind then PostEventType else PostDone
      ensures nbr == if err == PostDone && old(Abs()).events[e].waiters != {} then 1 else 0
      ensures Abs() == if err == PostDone then Abort(old(Abs()), e) else old(Abs())
    {
      WaitingAt(Raw(), e);
      hide TablesOk, AbsOf, EventOf, Deliver, TypeBit;
      if ecbs[e].kind != kind {
        return PostEventType, 0;
      }
      if ecbs[e].grp != 0 {
        var p := EventTaskRdy(e, NULL_MSG, TypeBit(kind), PendAbort);
        return PostDone, 1;
      }
      return PostDone, 0;
    }

    // The broadcast loop: abort waiters until the group is zero.
    method AbortWaiters(kind: Kind, e: EventId) returns (nbr: nat)
      requires Valid() && e < ecbs.Length && Abs().events[e].kind == kind
      requires Abs().events[e].waiters <= Abs().tasks.Keys
      modifies this`rdyGrp, rdyTbl, ecbs, tcbs
      ensures Valid() && SameLinks(old(tcbs[..]), tcbs[..])
      ensures nbr == |old(Abs()).events[e].waiters| && Abs() == AbortAll(old(Abs()), e)
    {
      hide TablesOk, AbsOf, Deliver, TypeBit, AbortAll;
      ghost var k0 := Abs();
      WaitingAt(Raw(), e);
      nbr := 0;
      while ecbs[e].grp != 0
        invariant Valid() && SameLinks(old(tcbs[..]), tcbs[..])
        invariant |Abs().events| == ecbs.Length && Abs().events[e].waiters <= Abs().tasks.Keys
        invariant Abs().events[e].kind == kind && AbortAll(Abs(), e) == AbortAll(k0, e)
        invariant nbr + |Abs().events[e].waiters| == |k0.events[e].waiters|
        decreases |Abs().events[e].waiters|
      {
        WaitingAt(Raw(), e);
        AbortStep(Abs(), e);
        var p := EventTaskRdy(e, NULL_MSG, TypeBit(kind), PendAbort);
        nbr := nbr + 1;
      }
      WaitingAt(Raw(), e);
      NoneLeft(Abs(), e);
    }

    // The same services with OS_PEND_OPT_BROADCAST.
    method PendAbortAll(kind: Kind, e: EventId) returns (err: PostError, nbr: nat)
      requires Valid() && e < ecbs.Length && kind != Other
      modifies this`rdyGrp, rdyTbl, ecbs, tcbs
      ensures Valid() && SameLinks(old(tcbs[..]), tcbs[..])
      ensures old(Abs()).events[e].waiters <= old(Abs()).tasks.Keys
      ensures err == if old(ecbs[e]).kind != kind then PostEventType else PostDone
      ensures nbr == if err == PostDone then |old(Abs()).events[e].waiters| else 0
      ensures Abs() == if err == PostDone then AbortAll(old(Abs()), e) else old(Abs())
    {
      hide TablesOk, AbsOf, AbortAll;
      WaitingAt(Raw(), e);
      if ecbs[e].kind != kind {
        return PostEventType, 0;
      }
      nbr := AbortWaiters(kind, e);
      return PostDone, nbr;
    }

    // -------------------------------------------------------------------
    // Delays and suspension.

    // OSTimeDly up to OS_Sched, which follows a delay.
    method TimeDly(ticks: nat) returns (delayed: bool)
      requires Valid() && Current()
      modifies this`rdyGrp, rdyTbl, tcbs
      ensures Valid() && SameLinks(old(tcbs[..]), tcbs[..]) && prioCur in old(Abs()).tasks
      ensures delayed <==> intNesting == 0 && ticks > 0
      ensures Abs() == if delayed then Delay(old(Abs()), prioCur, ticks) else old(Abs())
      ensures delayed ==> Abs().tasks[prioCur].dly == ticks && prioCur !in Abs().ready
    {
      hide TablesOk, AbsOf;
      TaskAt(Raw(), cur, prioCur);
      if intNesting > 0 {
        return false;
      }
      if ticks > 0 {
        MakeUnready(cur, prioCur);
        SetTask(cur, prioCur, tcbs[cur].task.(dly := ticks));
        return true;
      }
      return false;
    }

    // The update shared by OSTimeTick and OSTimeDlyResume when a delay ends.
    method EndDelay(i: nat, ghost p: Prio, t: Task)
      requires Valid() && Is(i, p) && t == tcbs[i].task && RefsOk(t, ecbs.Length)
      modifies this`rdyGrp, rdyTbl, tcbs
      ensures Valid() && SameLinks(old(tcbs[..]), tcbs[..])
      ensures Abs() == old(Abs()).(tasks := old(Abs()).tasks[p := Expire(t)],
                                   ready := if Suspended(t) then old(Abs()).ready else old(Abs()).ready + {p})
    {
      var t' := t.(dly := 0);
      if t'.stat & STAT_PEND_ANY != 0 {
        t' := t'.(stat := t'.stat & !STAT_PEND_ANY, statPend := PendTo);
      } else {
        t' := t'.(statPend := PendOk);
      }
      StillSuspended(t);
      assert t' == Expire(t);
      hide TablesOk, AbsOf, Suspended, Expire;
      Release(i, p, t');
    }

    // OSTimeDlyResume on an existing task.
    method TimeDlyResume(p: Prio) returns (err: DlyError)
      requires Valid()
      modifies this`rdyGrp, rdyTbl, tcbs
      ensures Valid() && SameLinks(old(tcbs[..]), tcbs[..])
      ensures err == if p >= lowest then DlyPrioInvalid
                     else if p !in old(Abs()).tasks then DlyNotExist
                     else if old(Abs()).tasks[p].dly == 0 then DlyNotDelayed else DlyDone
      ensures Abs() == if err == DlyDone then DelayResume(old(Abs()), p) else old(Abs())
      ensures err == DlyDone ==>
                Abs().tasks[p].dly == 0 && (old(Abs()).tasks[p].stat & STAT_SUSPEND == 0 ==> p in Abs().ready)
    {
      if p >= lowest {
        return DlyPrioInvalid;
      }
      if prioTbl[p] < 0 {
        return DlyNotExist;
      }
      var i := prioTbl[p];
      TaskAt(Raw(), i, p);
      hide TablesOk, AbsOf, Suspended, Expire;
      if tcbs[i].task.dly == 0 {
        return DlyNotDelayed;
      }
      EndDelay(i, p, tcbs[i].task);
      return DlyDone;
    }

    // OSTaskSuspend up to OS_Sched, which follows if a task suspends itself.
    method TaskSuspend(prio: Prio) returns (err: TaskError)
      requires Valid() && Current()
      modifies this`rdyGrp, rdyTbl, tcbs
      ensures Valid() && SameLinks(old(tcbs[..]), tcbs[..])
      ensures var p := if prio == PRIO_SELF then prioCur else prio;
        && err == (if prio == lowest then TaskIsIdle
                   else if p > lowest then TaskPrioInvalid
                   else if p !in old(Abs()).tasks then (if old(prioTbl[p]) == NULL then TaskNoPrio else TaskReserved)
                   else TaskDone)
        && Abs() == (if err == TaskDone then Suspend(old(Abs()), p) else old(Abs()))
        && (err == TaskDone ==> p !in Abs().ready && Abs().tasks[p].stat & STAT_SUSPEND != 0)
    {
      hide TablesOk, AbsOf;
      WithinRange(Raw());
      if prio == lowest {
        return TaskIsIdle;
      }
      if prio >= lowest {
        if prio != PRIO_SELF {
          return TaskPrioInvalid;
        }
      }
      var p := if prio == PRIO_SELF then prioCur else prio;
      TaskOf(Raw(), p);
      var i := prioTbl[p];
      if i == NULL {
        return TaskNoPrio;
      }
      if i < 0 {
        return TaskReserved;
      }
      SuspendBlock(i, p);
      return TaskDone;
    }

    method SuspendBlock(i: nat, p: Prio)
      requires Valid() && Is(i, p)
      modifies this`rdyGrp, rdyTbl, tcbs
      ensures Valid() && SameLinks(old(tcbs[..]), tcbs[..]) && p in old(Abs()).tasks
      ensures Abs() == Suspend(old(Abs()), p)
    {
      hide TablesOk, AbsOf;
      TaskAt(Raw(), i, p);
      MakeUnready(i, p);
      SetTask(i, p, tcbs[i].task.(stat := tcbs[i].task.stat | STAT_SUSPEND));
    }

    // OSTaskResume up to OS_Sched, which follows if the task became ready.
    method TaskResume(p: Prio) returns (err: TaskError)
      requires Valid()
      modifies this`rdyGrp, rdyTbl, tcbs
      ensures Valid() && SameLinks(old(tcbs[..]), tcbs[..])
      ensures err == (if p >= lowest then TaskPrioInvalid
                      else if p !in old(Abs()).tasks then (if old(prioTbl[p]) == NULL then TaskNoPrio else TaskReserved)
                      else if !Suspended(old(Abs()).tasks[p]) then TaskNotSuspended
                      else TaskDone)
      ensures Abs() == if err == TaskDone then Resume(old(Abs()), p) else old(Abs())
      ensures err == TaskDone ==> var t := old(Abs()).tasks[p];
                && Abs().tasks[p].stat & STAT_SUSPEND == 0
                && (p in Abs().ready <==> p in old(Abs()).ready || (t.stat == STAT_SUSPEND && t.dly == 0))
    {
      hide TablesOk, AbsOf;
      WithinRange(Raw());
      if p >= lowest {
        return TaskPrioInvalid;
      }
      TaskOf(Raw(), p);
      var i := prioTbl[p];
      if i == NULL {
        return TaskNoPrio;
      }
      if i < 0 {
        return TaskReserved;
      }
      TaskAt(Raw(), i, p);
      if tcbs[i].task.stat & STAT_SUSPEND != 0 {
        ResumeBlock(i, p);
        return TaskDone;
      }
      return TaskNotSuspended;
    }

    method ResumeBlock(i: nat, p: Prio)
      requires Valid() && Is(i, p) && Suspended(tcbs[i].task)
      modifies this`rdyGrp, rdyTbl, tcbs
      ensures Valid() && SameLinks(old(tcbs[..]), tcbs[..]) && p in old(Abs()).tasks
      ensures Abs() == Resume(old(Abs()), p)
    {
      hide TablesOk, AbsOf;
      TaskAt(Raw(), i, p);
      var t := tcbs[i].task;
      t := t.(stat := t.stat & !STAT_SUSPEND);
      SetTask(i, p, t);
      if t.stat == 0 && t.dly == 0 {
        MakeReady(i, p);
      }
    }

    // -------------------------------------------------------------------
    // The scheduler and its nesting counters.

    // OS_SchedNew
    method SchedNew()
      requires Valid() && Abs().ready != {}
      modifies this`prioHighRdy
      ensures Raw() == old(Raw()) && prioHighRdy == Least(Abs().ready)
      ensures prioHighRdy < prioTbl.Length && Is(prioTbl[prioHighRdy], prioHighRdy)
    {
      hide TablesOk, AbsOf, UnMap;
      BestReady(Raw());
      var y := UnMap(rdyGrp);
      prioHighRdy := 8 * y + UnMap(rdyTbl[y]);
    }

    // The part of OS_Sched and OSIntExit past the nesting tests, with the
    // switch itself (OS_TASK_SW, OSIntCtxSw).
    method SwitchToBest()
      requires Valid() && Abs().ready != {} && Current()
      modifies this`prioHighRdy, this`ctxSwCtr, this`cur, this`prioCur
      ensures Raw() == old(Raw()) && Current() && prioCur == Least(Abs().ready)
      ensures ctxSwCtr == if prioCur != old(prioCur) then (old(ctxSwCtr) + 1) % TIME_WRAP else old(ctxSwCtr)
    {
      hide TablesOk, AbsOf;
      SchedNew();
      if prioHighRdy != prioCur {
        ctxSwCtr := (ctxSwCtr + 1) % TIME_WRAP;
        cur := prioTbl[prioHighRdy];
        prioCur := prioHighRdy;
      }
    }

    // OS_Sched
    method Sched()
      requires Valid() && Abs().ready != {} && Current()
      modifies this`prioHighRdy, this`ctxSwCtr, this`cur, this`prioCur
      ensures Raw() == old(Raw()) && Current() && Nesting() == Resched(old(Nesting()), Least(Abs().ready))
      ensures ctxSwCtr == if prioCur != old(prioCur) then (old(ctxSwCtr) + 1) % TIME_WRAP else old(ctxSwCtr)
    {
      hide TablesOk, AbsOf;
      if intNesting == 0 {
        if lockNesting == 0 {
          SwitchToBest();
        }
      }
    }

    // OSIntEnter
    method IntEnter()
      modifies this`intNesting
      ensures Raw() == old(Raw()) && Nesting() == IntEntered(old(Nesting()))
    {
      if running {
        if intNesting < NEST_MAX {
          intNesting := intNesting + 1;
        }
      }
    }

    // OSIntExit
    method IntExit()
      requires Valid() && Abs().ready != {} && Current()
      modifies this`intNesting, this`prioHighRdy, this`ctxSwCtr, this`cur, this`prioCur
      ensures Raw() == old(Raw()) && Current() && Nesting() == IntExited(old(Nesting()), Least(Abs().ready))
      ensures ctxSwCtr == if prioCur != old(prioCur) then (old(ctxSwCtr) + 1) % TIME_WRAP else old(ctxSwCtr)
    {
      hide TablesOk, AbsOf;
      if running {
        if intNesting > 0 {
          intNesting := intNesting - 1;
        }
        if intNesting == 0 {
          if lockNesting == 0 {
            SwitchToBest();
          }
        }
      }
    }

    // OSSchedLock
    method SchedLock()
      modifies this`lockNesting
      ensures Raw() == old(Raw()) && Nesting() == SchedLocked(old(Nesting()))
    {
      if running {
        if intNesting == 0 {
          if lockNesting < NEST_MAX {
            lockNesting := lockNesting + 1;
          }
        }
      }
    }

    // The critical section of OSSchedUnlock.
    method DropLock() returns (resched: bool)
      modifies this`lockNesting
      ensures Raw() == old(Raw()) && (Nesting(), resched) == LockDropped(old(Nesting()))
    {
      resched := false;
      if running {
        if lockNesting > 0 {
          lockNesting := lockNesting - 1;
          if lockNesting == 0 {
            if intNesting == 0 {
              resched := true;
            }
          }
        }
      }
    }

    // OSSchedUnlock
    method SchedUnlock()
      requires Valid() && Abs().ready != {} && Current()
      modifies this`lockNesting, this`prioHighRdy, this`ctxSwCtr, this`cur, this`prioCur
      ensures Raw() == old(Raw()) && Current() && Nesting() == SchedUnlocked(old(Nesting()), Least(Abs().ready))
      ensures ctxSwCtr == if prioCur != old(prioCur) then (old(ctxSwCtr) + 1) % TIME_WRAP else old(ctxSwCtr)
    {
      hide TablesOk, AbsOf;
      var resched := DropLock();
      if resched {
        Sched();
      }
    }

    // -------------------------------------------------------------------
    // Creation.

    // OS_TCBInit on the control block i taken off the free list, up to the
    // link into the active list.
    method LinkBlock(i: nat, p: Prio)
      requires Apart() && i < tcbs.Length && p < prioTbl.Length && p < 64
      requires tcbList == NULL || (0 <= tcbList < tcbs.Length && tcbList != i)
      modifies tcbs, prioTbl
      ensures BlockInserted(old(tcbs[..]), tcbs[..], i, tcbList, p)
      ensures prioTbl[..] == old(prioTbl[..])[p := i]
    {
      ShiftIsMask(p % 8);
      ShiftIsMask(p / 8);
      tcbs[i] := Tcb(p, p / 8, 1 << (p % 8), 1 << (p / 8), tcbs[i].next, tcbs[i].prev, NEW_TASK);
      hide IsMask;
      prioTbl[p] := i;
      tcbs[i] := tcbs[i].(next := tcbList, prev := NULL);
      if tcbList != NULL {
        tcbs[tcbList] := tcbs[tcbList].(prev := i);
      }
    }

    // The control block moves to the head of the active list.
    method Enlist(i: nat, p: Prio)
      requires Valid() && LinksOk() && free != [] && i == free[0] && p <= lowest && prioTbl[p] < 0
      requires active == [] ==> p == lowest
      modifies this`tcbList, this`freeList, this`taskCtr, this`active, this`free, tcbs, prioTbl
      ensures Valid() && LinksOk() && active == [i] + old(active) && free == old(free)[1..] && Is(i, p)
      ensures Abs() == old(Abs()).(tasks := old(Abs()).tasks[p := NEW_TASK])
    {
      hide TablesOk, AbsOf, Linked, BlockInserted;
      ghost var before := Raw();
      FreeBlock(before, tcbList, freeList, taskCtr, active, free);
      WithinRange(before);
      freeList := tcbs[i].next;
      LinkBlock(i, p);
      CreatedLinks(before, Raw(), tcbList, i, taskCtr, active, free, p);
      CreatedTasks(before, Raw(), tcbList, i, p);
      tcbList := i;
      taskCtr := taskCtr + 1;
      active, free := [i] + active, free[1..];
    }

    // OS_TCBInit
    method TCBInit(p: Prio) returns (ok: bool)
      requires Valid() && LinksOk() && p <= lowest && prioTbl[p] < 0
      requires active == [] ==> p == lowest
      modifies this`rdyGrp, this`tcbList, this`freeList, this`taskCtr, this`active, this`free, rdyTbl, tcbs, prioTbl
      ensures Valid() && LinksOk() && (ok <==> old(free) != [])
      ensures Abs() == if ok then Create(old(Abs()), p) else old(Abs())
      ensures active == (if ok then [old(free)[0]] + old(active) else old(active))
      ensures free == (if ok then old(free)[1..] else [])
      ensures !ok ==> unchanged(this) && unchanged(rdyTbl) && unchanged(tcbs) && unchanged(prioTbl)
    {
      hide TablesOk, AbsOf, Linked;
      ghost var before := Raw();
      FreeBlock(before, tcbList, freeList, taskCtr, active, free);
      var ptcb := freeList;
      if ptcb == NULL {
        return false;
      }
      Enlist(ptcb, p);
      ghost var now := Raw();
      MakeReady(ptcb, p);
      LinksKept(now, Raw(), tcbList, freeList, taskCtr, active, free);
      return true;
    }

    // The reservation of a priority by OSTaskCreate, and its end.
    method Reserve(p: Prio, v: int)
      requires Valid() && LinksOk() && p <= lowest && prioTbl[p] < 0 && v < 0
      modifies prioTbl
      ensures Valid() && LinksOk() && Abs() == old(Abs()) && prioTbl[..] == old(prioTbl[..])[p := v]
    {
      hide TablesOk, AbsOf, Linked;
      ghost var before := Raw();
      WithinRange(before);
      prioTbl[p] := v;
      ReservedIs(before, Raw(), p, v);
      ReservedLinks(before, Raw(), tcbList, freeList, taskCtr, active, free, p, v);
    }

    // OSTaskCreate up to the call of OS_Sched, which follows a creation when
    // multitasking has started.
    method TaskCreate(p: Prio) returns (err: CreateError)
      requires Valid() && LinksOk() && (active == [] ==> p >= lowest)
      modifies this`rdyGrp, this`tcbList, this`freeList, this`taskCtr, this`active, this`free, rdyTbl, tcbs, prioTbl
      ensures Valid() && LinksOk()
      ensures err == if p > lowest then CreatePrioInvalid
                     else if intNesting > 0 then CreateIsr
                     else if old(prioTbl[p]) != NULL then CreateExists
                     else if old(free) == [] then CreateNoBlock else Created
      ensures err == Created ==>
                Abs() == Create(old(Abs()), p) && active == [old(free)[0]] + old(active) && free == old(free)[1..]
      ensures err != Created ==> Raw() == old(Raw()) && active == old(active) && free == old(free)
      ensures Nesting() == old(Nesting())
    {
      hide TablesOk, AbsOf, Linked, Create;
      WithinRange(Raw());
      if p > lowest {
        return CreatePrioInvalid;
      }
      if intNesting > 0 {
        return CreateIsr;
      }
      if prioTbl[p] == NULL {
        Reserve(p, RESERVED);
        var ok := TCBInit(p);
        if ok {
          return Created;
        }
        Reserve(p, NULL);
        assert prioTbl[..] == old(prioTbl[..]);
        return CreateNoBlock;
      }
      return CreateExists;
    }

    // OSInit: OS_InitMisc, OS_InitRdyList, OS_InitTCBList, OS_InitEventList.
    constructor (lowest: nat, nTcbs: nat, nEvents: nat)
      requires lowest < 64 && nTcbs > 0
      ensures Valid() && LinksOk() && this.lowest == lowest
      ensures Abs() == Kernel(lowest, map[], {}, seq(nEvents, _ => UNUSED_EVENT))
      ensures active == [] && |free| == nTcbs && forall n :: 0 <= n < nTcbs ==> free[n] == n
      ensures Nesting() == Nest(false, 0, 0, 0)
      ensures fresh(tcbs) && fresh(prioTbl) && fresh(ecbs) && fresh(rdyTbl)
    {
      var rows := lowest / 8 + 1;
      this.lowest := lowest;
      tcbs := new Tcb[nTcbs](_ => UNUSED_TCB);
      prioTbl := new int[lowest + 1](_ => NULL);
      var unused := UnusedEcb(rows);
      ecbs := new Ecb[nEvents](_ => unused);
      rdyTbl := new bv8[rows](_ => 0);
      rdyGrp := 0;
      cur, prioCur, prioHighRdy, ctxSwCtr := 0, 0, 0, 0;
      intNesting, lockNesting := 0, 0;
      tcbList, freeList, taskCtr := NULL, 0, 0;
      active, free := [], seq(nTcbs, n => n);
      running, time, tickStep := false, 0, StepDis;
      new;
      hide UnusedEcb;
      ChainFreeList();
      EmptyTables(Raw());
      AllFree(Raw(), free);
    }

    // The loop of OS_InitTCBList.
    method ChainFreeList()
      requires tcbs.Length > 0
      modifies tcbs
      ensures forall n :: 0 <= n < tcbs.Length ==> tcbs[n].next == if n + 1 < tcbs.Length then n + 1 else NULL
    {
      var i := 0;
      while i < tcbs.Length - 1
        invariant 0 <= i <= tcbs.Length - 1
        invariant forall n :: 0 <= n < i ==> tcbs[n].next == n + 1
      {
        tcbs[i] := tcbs[i].(next := i + 1);
        i := i + 1;
      }
      tcbs[i] := tcbs[i].(next := NULL);
    }

    // OS_EventWaitListInit
    method EventWaitListInit(x: Ecb) returns (x': Ecb)
      requires |x.tbl| <= 8
      ensures x' == x.(grp := 0, tbl := x'.tbl) && |x'.tbl| == |x.tbl|
      ensures GroupOk(x'.grp, x'.tbl) && Members(x'.tbl) == {}
    {
      x' := x.(grp := 0);
      var i := 0;
      while i < |x.tbl|
        invariant 0 <= i <= |x.tbl| == |x'.tbl| && x' == x.(grp := 0, tbl := x'.tbl)
        invariant forall y :: 0 <= y < i ==> x'.tbl[y] == 0
      {
        x' := x'.(tbl := x'.tbl[i := 0]);
        i := i + 1;
      }
      Cleared(x'.tbl);
    }

    // OSSemCreate, OSMboxCreate and OSQCreate on the event block e taken off
    // the free list.
    method EventCreate(e: EventId, kind: Kind, cnt: nat, msg: Msg, q: MsgQueue.Ring)
      requires Valid() && e < ecbs.Length && ecbs[e].kind == Other && cnt <= SEM_MAX && MsgQueue.RingOk(q)
      modifies ecbs
      ensures Valid() && MsgQueue.RingOk(ecbs[e].q) && EventOf(ecbs[e]).waiters == {}
      ensures Abs() == old(Abs()).(events := old(Abs()).events[e := EventOf(ecbs[e])])
      ensures ecbs[e] == old(ecbs[e]).(kind := kind, cnt := cnt, msg := msg, q := q, grp := ecbs[e].grp,
                                       tbl := ecbs[e].tbl)
    {
      hide TablesOk, AbsOf, GroupOk, Members;
      ghost var before := Raw();
      WithinRange(before);
      EcbAt(before, e);
      var x := EventWaitListInit(ecbs[e].(kind := kind, cnt := cnt, msg := msg, q := q));
      ecbs[e] := x;
      assert ecbs[..] == before.ecbs[e := x];
      EcbSetIs(before, Raw(), e, x);
    }

    // -------------------------------------------------------------------
    // OSTimeTick.

    // The loop body: one control block.
    method TickOne(i: nat, ghost p: Prio)
      requires Valid() && Is(i, p)
      modifies this`rdyGrp, rdyTbl, tcbs
      ensures Valid() && SameLinks(old(tcbs[..]), tcbs[..]) && p in old(Abs()).tasks
      ensures Abs() == KernelModel.TickOne(old(Abs()), p)
    {
      hide TablesOk, AbsOf, Expire, Suspended, IsTask, TcbFor;
      TaskAt(Raw(), i, p);
      var t := tcbs[i].task;
      ghost var k := Abs();
      if t.dly != 0 {
        if t.dly - 1 == 0 {
          EndDelay(i, p, t);
        } else {
          SetTask(i, p, t.(dly := t.dly - 1));
        }
      } else {
        assert k.tasks[p := t] == k.tasks;
      }
    }

    // The loop body and the step to the next control block.
    method TickNext(i: nat, ghost before: Tables, ghost k0: Kernel, ghost n: nat) returns (next: int)
      requires Valid() && LinksOk() && TablesOk(before) && k0 == AbsOf(before)
      requires Linked(before, tcbList, freeList, taskCtr, active, free) && SameLinks(before.tcbs, tcbs[..])
      requires before.prioTbl == prioTbl[..] && before.lowest == lowest
      requires n < |active| && i == active[n] < tcbs.Length && tcbs[i].prio != lowest
      requires Abs() == TickSome(k0, PriosOf(before.tcbs, active, n))
      modifies this`rdyGrp, rdyTbl, tcbs
      ensures Valid() && LinksOk() && SameLinks(before.tcbs, tcbs[..])
      ensures n + 1 < |active| && next == active[n + 1] < tcbs.Length
      ensures Abs() == TickSome(k0, PriosOf(before.tcbs, active, n + 1))
    {
      hide TablesOk, AbsOf, TickSome, TickTask, TickReadies, Linked, PriosOf;
      ghost var now := Raw();
      ghost var p := tcbs[i].prio;
      NextToVisit(before, now, n, p);
      TickSomeMore(k0, PriosOf(before.tcbs, active, n), p);
      TickOne(i, p);
      LinksKept(now, Raw(), tcbList, freeList, taskCtr, active, free);
      next := tcbs[i].next;
    }

    // The walk down the active list to the idle task.
    method TickAll()
      requires Valid() && LinksOk() && active != []
      modifies this`rdyGrp, rdyTbl, tcbs
      ensures Valid() && LinksOk() && Abs() == Tick(old(Abs()))
    {
      hide TablesOk, AbsOf, TickSome, Linked, PriosOf;
      ghost var before := Raw();
      ghost var k0 := Abs();
      ghost var n := 0;
      var ptcb := tcbList;
      TickStarts(before, tcbList, freeList, taskCtr, active, free);
      while tcbs[ptcb].prio != lowest
        invariant 0 <= n < |active| && ptcb == active[n] && ptcb < tcbs.Length
        invariant Valid() && LinksOk() && SameLinks(before.tcbs, tcbs[..])
        invariant Abs() == TickSome(k0, PriosOf(before.tcbs, active, n))
        decreases |active| - n
      {
        ptcb := TickNext(ptcb, before, k0, n);
        n := n + 1;
      }
      AtIdle(Raw(), tcbList, freeList, taskCtr, active, free, n);
    }

    // The n-th active control block is an existing task not met before.
    lemma NextToVisit(before: Tables, now: Tables, n: nat, p: Prio)
      requires TablesOk(before) && Linked(before, tcbList, freeList, taskCtr, active, free)
      requires Linked(now, tcbList, freeList, taskCtr, active, free)
      requires SameLinks(before.tcbs, now.tcbs) && now.prioTbl == before.prioTbl && now.lowest == before.lowest
      requires n < |active| && p == now.tcbs[active[n]].prio && p != now.lowest
      ensures IsTask(now, active[n], p) && p in AbsOf(before).tasks
      ensures forall m :: 0 <= m < |active| ==> active[m] < |before.tcbs|
      ensures p !in PriosOf(before.tcbs, active, n)
      ensures n + 1 < |active| && now.tcbs[active[n]].next == active[n + 1] < |now.tcbs|
      ensures PriosOf(before.tcbs, active, n + 1) == PriosOf(before.tcbs, active, n) + {p}
    {
      IdleAtEnd(now, active, n);
      PriosGrow(before, active, n);
    }

    method TimeTick()
      requires Valid() && LinksOk() && (running ==> active != [])
      modifies this`rdyGrp, this`time, this`tickStep, rdyTbl, tcbs
      ensures Valid() && LinksOk() && time == (old(time) + 1) % TIME_WRAP
      ensures Abs() == if running && Processes(old(tickStep)) then Tick(old(Abs())) else old(Abs())
      ensures tickStep == if running then NextStep(old(tickStep)) else old(tickStep)
    {
      hide TablesOk, AbsOf, Linked, Tick;
      time := (time + 1) % TIME_WRAP;
      if running {
        var step := true;
        match tickStep {
          case StepDis =>
          case StepWait => step := false;
          case StepOnce => tickStep := StepWait;
          case StepInvalid => tickStep := StepDis;
        }
        if !step {
          return;
        }
        TickAll();
      }
    }
  }

  lemma UnwaitMore(events: seq<Event>, p: Prio, es: seq<EventId>, n: nat)
    requires n < |es|
    ensures Unwait(Unwait(events, p, es[..n]), p, [es[n]]) == Unwait(events, p, es[..n + 1])
  {
    var a, b := Unwait(Unwait(events, p, es[..n]), p, [es[n]]), Unwait(events, p, es[..n + 1]);
    assert es[..n + 1] == es[..n] + [es[n]];
    forall e | 0 <= e < |events| ensures a[e] == b[e] {
      assert a[e].waiters == b[e].waiters;
    }
  }

  lemma PollNext(events: seq<Event>, es: seq<EventId>, n: nat)
    requires InRange(events, es) && n < |es|
    ensures es[..n + 1][..n] == es[..n] && es[..n + 1][n] == es[n]
    ensures var r, r' := Poll(events, es[..n]), Poll(events, es[..n + 1]);
      if r.events[es[n]].stored != []
      then && r' == Polled(Take(r.events, es[n]), r.taken + [(es[n], r.events[es[n]].stored[0])], r.stat)
           && Ids(r'.taken) == Ids(r.taken) + [es[n]] && Msgs(r'.taken) == Msgs(r.taken) + [r.events[es[n]].stored[0]]
      else r' == r.(stat := r.stat | TypeBit(r.events[es[n]].kind))
  {
    assert es[..n + 1][..n] == es[..n];
  }

  lemma AwaitMore(events: seq<Event>, p: Prio, es: seq<EventId>, n: nat)
    requires n < |es|
    ensures Await(Await(events, p, es[..n]), p, [es[n]]) == Await(events, p, es[..n + 1])
  {
    var a, b := Await(Await(events, p, es[..n]), p, [es[n]]), Await(events, p, es[..n + 1]);
    assert es[..n + 1] == es[..n] + [es[n]];
    forall e | 0 <= e < |events| ensures a[e] == b[e] {
      assert a[e].waiters == b[e].waiters;
    }
  }

  lemma NothingPolled(events: seq<Event>, es: seq<EventId>)
    requires InRange(events, es) && Poll(events, es).taken == []
    ensures Poll(events, es).events == events
    decreases |es|
  {
    if es != [] { NothingPolled(events, es[..|es| - 1]); }
  }

  // Clearing the pend bits leaves the suspension as it was.
  lemma StillSuspended(t: Task)
    ensures Suspended(Expire(t)) <==> Suspended(t)
  {
    assert (t.stat & !STAT_PEND_ANY) & STAT_SUSPEND == t.stat & STAT_SUSPEND;
  }
}
