/** The kernel's tables as values: control blocks, event blocks, and what set
  of tasks, ready priorities and events they stand for. */
module KernelTables {
  import opened Options
  import opened Bits
  import opened PrioBitmap
  import opened KernelModel
  import MsgQueue

  // OS_TCB.  Pointers are indexes into OSTCBTbl; -1 is the null pointer.
  datatype Tcb = Tcb(prio: nat, y: nat, bitX: bv8, bitY: bv8, next: int, prev: int, task: Task)

  // OS_EVENT.  OSEventPtr holds the mailbox message or the queue.
  datatype Ecb = Ecb(kind: Kind, cnt: nat, msg: Msg, q: MsgQueue.Ring, grp: bv8, tbl: seq<bv8>)

  const NULL: int := -1
  const SEM_MAX: nat := 65535

  // The precomputed fields of a control block belong to its priority.
  predicate TcbFor(t: Tcb, p: nat) {
    p < 64 && t.prio == p && t.y == p / 8 && IsMask(t.bitX, p % 8) && IsMask(t.bitY, p / 8)
  }

  // OSTCBPrioTbl points each used priority at its own control block.
  predicate IndexOk(tcbs: seq<Tcb>, prioTbl: seq<int>) {
    forall p :: 0 <= p < |prioTbl| && prioTbl[p] >= 0 ==> prioTbl[p] < |tcbs| && TcbFor(tcbs[prioTbl[p]], p)
  }

  function UsedPrios(prioTbl: seq<int>): set<Prio> {
    set p: nat | p < |prioTbl| && prioTbl[p] >= 0
  }

  function TasksOf(tcbs: seq<Tcb>, prioTbl: seq<int>): map<Prio, Task>
    requires IndexOk(tcbs, prioTbl)
  {
    map p: nat | p < |prioTbl| && prioTbl[p] >= 0 :: tcbs[prioTbl[p]].task
  }

  lemma TasksUpdated(tcbs: seq<Tcb>, prioTbl: seq<int>, p: Prio, t: Task)
    requires IndexOk(tcbs, prioTbl) && p in UsedPrios(prioTbl)
    ensures var i := prioTbl[p]; var tcbs' := tcbs[i := tcbs[i].(task := t)];
      IndexOk(tcbs', prioTbl) && TasksOf(tcbs', prioTbl) == TasksOf(tcbs, prioTbl)[p := t]
  {
  }

  // ---------------------------------------------------------------------
  // Events.

  predicate EcbOk(x: Ecb, rows: nat, used: set<Prio>) {
    && GroupOk(x.grp, x.tbl) && |x.tbl| == rows && Members(x.tbl) <= used
    && MsgQueue.RingOk(x.q) && x.cnt <= SEM_MAX
  }

  function Stored(x: Ecb): seq<Msg>
    requires MsgQueue.RingOk(x.q)
  {
    match x.kind
    case Sem => seq(x.cnt, _ => NULL_MSG)
    case Mbox => if x.msg == NULL_MSG then [] else [x.msg]
    case Queue => MsgQueue.Contents(x.q)
    case Other => []
  }

  function EventOf(x: Ecb): Event
    requires MsgQueue.RingOk(x.q)
  {
    Event(x.kind, Stored(x), match x.kind case Sem => SEM_MAX case Mbox => 1 case Queue => |x.q.buf| case Other => 0,
          Members(x.tbl))
  }

  predicate EcbsOk(ecbs: seq<Ecb>, rows: nat, used: set<Prio>) {
    forall e :: 0 <= e < |ecbs| ==> EcbOk(ecbs[e], rows, used)
  }

  function EventsOf(ecbs: seq<Ecb>): (r: seq<Event>)
    requires forall e :: 0 <= e < |ecbs| ==> MsgQueue.RingOk(ecbs[e].q)
    ensures |r| == |ecbs|
  {
    seq(|ecbs|, e requires 0 <= e < |ecbs| => EventOf(ecbs[e]))
  }

  // Putting the task of t into and out of a bitmap.
  function AddedRows(tbl: seq<bv8>, t: Tcb): seq<bv8>
    requires t.y < |tbl|
  {
    tbl[t.y := Or8(tbl[t.y], t.bitX)]
  }

  function AddedGrp(grp: bv8, t: Tcb): bv8 {
    Or8(grp, t.bitY)
  }

  function DroppedRows(tbl: seq<bv8>, t: Tcb): seq<bv8>
    requires t.y < |tbl|
  {
    tbl[t.y := AndNot8(tbl[t.y], t.bitX)]
  }

  function DroppedGrp(grp: bv8, tbl: seq<bv8>, t: Tcb): bv8
    requires t.y < |tbl|
  {
    if AndNot8(tbl[t.y], t.bitX) == 0 then AndNot8(grp, t.bitY) else grp
  }

  lemma AddedIs(grp: bv8, tbl: seq<bv8>, t: Tcb, p: Prio)
    requires GroupOk(grp, tbl) && TcbFor(t, p) && p / 8 < |tbl|
    ensures GroupOk(AddedGrp(grp, t), AddedRows(tbl, t)) && Members(AddedRows(tbl, t)) == Members(tbl) + {p}
  {
    hide Or8, Bit8, IsMask;
    Inserted(grp, tbl, p, t.bitX, t.bitY);
  }

  lemma DroppedIs(grp: bv8, tbl: seq<bv8>, t: Tcb, p: Prio)
    requires GroupOk(grp, tbl) && TcbFor(t, p) && p / 8 < |tbl|
    ensures GroupOk(DroppedGrp(grp, tbl, t), DroppedRows(tbl, t))
    ensures Members(DroppedRows(tbl, t)) == Members(tbl) - {p}
  {
    hide AndNot8, Bit8, IsMask;
    Removed(grp, tbl, p, t.bitX, t.bitY);
  }

  function Joined(x: Ecb, t: Tcb): Ecb
    requires t.y < |x.tbl|
  {
    x.(tbl := AddedRows(x.tbl, t), grp := AddedGrp(x.grp, t))
  }

  function Left(x: Ecb, t: Tcb): Ecb
    requires t.y < |x.tbl|
  {
    x.(tbl := DroppedRows(x.tbl, t), grp := DroppedGrp(x.grp, x.tbl, t))
  }

  lemma JoinedIs(x: Ecb, x': Ecb, t: Tcb, p: Prio, rows: nat, used: set<Prio>)
    requires EcbOk(x, rows, used) && TcbFor(t, p) && p / 8 < rows && p in used && x' == Joined(x, t)
    ensures EcbOk(x', rows, used)
    ensures EventOf(x') == EventOf(x).(waiters := EventOf(x).waiters + {p})
  {
    AddedIs(x.grp, x.tbl, t, p);
    Rewritten(x, x', rows, used);
  }

  lemma LeftIs(x: Ecb, x': Ecb, t: Tcb, p: Prio, rows: nat, used: set<Prio>)
    requires EcbOk(x, rows, used) && TcbFor(t, p) && p / 8 < rows && x' == Left(x, t)
    ensures EcbOk(x', rows, used)
    ensures EventOf(x') == EventOf(x).(waiters := EventOf(x).waiters - {p})
  {
    DroppedIs(x.grp, x.tbl, t, p);
    Rewritten(x, x', rows, used);
  }

  // Only the wait list of x changed.
  lemma Rewritten(x: Ecb, x': Ecb, rows: nat, used: set<Prio>)
    requires EcbOk(x, rows, used) && x' == x.(grp := x'.grp, tbl := x'.tbl)
    requires GroupOk(x'.grp, x'.tbl) && |x'.tbl| == rows && Members(x'.tbl) <= used
    ensures EcbOk(x', rows, used)
    ensures EventOf(x') == EventOf(x).(waiters := Members(x'.tbl))
  {
  }

  // One event of the table replaced.
  lemma EventsUpdated(ecbs: seq<Ecb>, e: EventId, x: Ecb)
    requires e < |ecbs| && MsgQueue.RingOk(x.q)
    requires forall e :: 0 <= e < |ecbs| ==> MsgQueue.RingOk(ecbs[e].q)
    ensures EventsOf(ecbs[e := x]) == EventsOf(ecbs)[e := EventOf(x)]
  {
  }

  // ---------------------------------------------------------------------
  // All tables together.

  datatype Tables = Tables(
    lowest: nat,             // OS_LOWEST_PRIO, the idle task's priority
    tcbs: seq<Tcb>,          // OSTCBTbl
    prioTbl: seq<int>,       // OSTCBPrioTbl
    ecbs: seq<Ecb>,          // OSEventTbl
    grp: bv8,                // OSRdyGrp
    rows: seq<bv8>)          // OSRdyTbl

  // Event pointers in a control block point at event blocks.
  predicate RefsOk(t: Task, nEvents: nat) {
    && (t.eventPtr.Some? ==> t.eventPtr.value < nEvents)
    && (t.multi.Some? ==> forall i :: 0 <= i < |t.multi.value| ==> t.multi.value[i] < nEvents)
  }

  predicate ReadyOk(r: Tables) {
    GroupOk(r.grp, r.rows) && Members(r.rows) <= UsedPrios(r.prioTbl)
  }

  predicate TablesOk(r: Tables) {
    && r.lowest < 64 && |r.prioTbl| == r.lowest + 1 && |r.rows| == r.lowest / 8 + 1
    && IndexOk(r.tcbs, r.prioTbl)
    && ReadyOk(r)
    && EcbsOk(r.ecbs, |r.rows|, UsedPrios(r.prioTbl))
    && forall p :: p in UsedPrios(r.prioTbl) ==> RefsOk(r.tcbs[r.prioTbl[p]].task, |r.ecbs|)
  }

  lemma WithinRange(r: Tables)
    requires TablesOk(r)
    ensures r.lowest < 64 && |r.prioTbl| == r.lowest + 1 && |r.rows| == r.lowest / 8 + 1
  {
  }

  function AbsOf(r: Tables): Kernel
    requires TablesOk(r)
  {
    Kernel(r.lowest, TasksOf(r.tcbs, r.prioTbl), Members(r.rows), EventsOf(r.ecbs))
  }

  // Empty tables: no task, nothing ready, every event block unused.
  const UNUSED_TCB := Tcb(0, 0, 0, 0, NULL, NULL, NEW_TASK)

  function UnusedEcb(rows: nat): Ecb {
    Ecb(Other, 0, NULL_MSG, MsgQueue.EMPTY, 0, seq(rows, _ => 0))
  }

  const UNUSED_EVENT := Event(Other, [], 0, {})

  lemma EmptyTables(r: Tables)
    requires r.lowest < 64 && |r.prioTbl| == r.lowest + 1 && |r.rows| == r.lowest / 8 + 1
    requires forall p :: 0 <= p < |r.prioTbl| ==> r.prioTbl[p] == NULL
    requires r.grp == 0 && forall y :: 0 <= y < |r.rows| ==> r.rows[y] == 0
    requires forall e :: 0 <= e < |r.ecbs| ==> r.ecbs[e] == UnusedEcb(|r.rows|)
    ensures TablesOk(r) && AbsOf(r) == Kernel(r.lowest, map[], {}, seq(|r.ecbs|, _ => UNUSED_EVENT))
  {
    Cleared(r.rows);
    Cleared(UnusedEcb(|r.rows|).tbl);
  }

  // A priority reserved for a task that is being created, or given back.
  lemma ReservedIs(r: Tables, r': Tables, p: Prio, v: int)
    requires TablesOk(r) && p < |r.prioTbl| && r.prioTbl[p] < 0 && v < 0
    requires r' == r.(prioTbl := r.prioTbl[p := v])
    ensures TablesOk(r') && AbsOf(r') == AbsOf(r)
  {
    hide GroupOk, Members, TcbFor, RefsOk;
    assert UsedPrios(r'.prioTbl) == UsedPrios(r.prioTbl);
    assert IndexOk(r'.tcbs, r'.prioTbl);
    assert TasksOf(r'.tcbs, r'.prioTbl) == TasksOf(r.tcbs, r.prioTbl);
  }

  // Control block i is the existing task p.
  predicate IsTask(r: Tables, i: int, p: Prio) {
    0 <= i < |r.tcbs| && p < |r.prioTbl| && r.prioTbl[p] == i
  }

  // The four elementary changes the kernel makes to its tables, and what each
  // does to the abstract kernel.

  // OSRdyGrp |= OSTCBBitY; OSRdyTbl[OSTCBY] |= OSTCBBitX.
  function Readied(r: Tables, t: Tcb): Tables
    requires t.y < |r.rows|
  {
    r.(grp := AddedGrp(r.grp, t), rows := AddedRows(r.rows, t))
  }

  // OSRdyTbl[y] &= ~OSTCBBitX, and the group bit once the row is empty.
  function Unreadied(r: Tables, t: Tcb): Tables
    requires t.y < |r.rows|
  {
    r.(grp := DroppedGrp(r.grp, r.rows, t), rows := DroppedRows(r.rows, t))
  }

  lemma ReadiedIs(r: Tables, r': Tables, i: nat, p: Prio)
    requires TablesOk(r) && IsTask(r, i, p) && r' == Readied(r, r.tcbs[i])
    ensures TablesOk(r') && AbsOf(r') == AbsOf(r).(ready := AbsOf(r).ready + {p})
  {
    AddedIs(r.grp, r.rows, r.tcbs[i], p);
  }

  lemma UnreadiedIs(r: Tables, r': Tables, i: nat, p: Prio)
    requires TablesOk(r) && IsTask(r, i, p) && r' == Unreadied(r, r.tcbs[i])
    ensures TablesOk(r') && AbsOf(r') == AbsOf(r).(ready := AbsOf(r).ready - {p})
  {
    DroppedIs(r.grp, r.rows, r.tcbs[i], p);
  }

  // A new status in one control block.
  lemma TaskSetIs(r: Tables, r': Tables, i: nat, p: Prio, t: Task)
    requires TablesOk(r) && IsTask(r, i, p) && r' == r.(tcbs := r.tcbs[i := r.tcbs[i].(task := t)])
    requires RefsOk(t, |r.ecbs|)
    ensures TablesOk(r') && AbsOf(r') == AbsOf(r).(tasks := AbsOf(r).tasks[p := t])
  {
    TasksUpdated(r.tcbs, r.prioTbl, p, t);
    forall q | q in UsedPrios(r.prioTbl) ensures RefsOk(r'.tcbs[r'.prioTbl[q]].task, |r'.ecbs|) {
      if r.prioTbl[q] == i { assert TcbFor(r.tcbs[i], q); }
    }
  }

  // A new event block that keeps the shape.
  lemma EcbSetIs(r: Tables, r': Tables, e: EventId, x: Ecb)
    requires TablesOk(r) && e < |r.ecbs| && r' == r.(ecbs := r.ecbs[e := x])
    requires EcbOk(x, |r.rows|, UsedPrios(r.prioTbl))
    ensures TablesOk(r') && AbsOf(r') == AbsOf(r).(events := AbsOf(r).events[e := EventOf(x)])
  {
    EventsUpdated(r.ecbs, e, x);
  }

  lemma LeftOneIs(r: Tables, r': Tables, i: nat, p: Prio, e: EventId)
    requires TablesOk(r) && IsTask(r, i, p) && e < |r.ecbs| && r' == r.(ecbs := r.ecbs[e := Left(r.ecbs[e], r.tcbs[i])])
    ensures TablesOk(r') && AbsOf(r') == AbsOf(r).(events := Unwait(AbsOf(r).events, p, [e]))
  {
    var x' := Left(r.ecbs[e], r.tcbs[i]);
    LeftIs(r.ecbs[e], x', r.tcbs[i], p, |r.rows|, UsedPrios(r.prioTbl));
    EcbSetIs(r, r', e, x');
    assert AbsOf(r).events[e := EventOf(x')] == Unwait(AbsOf(r).events, p, [e]);
  }

  lemma JoinedOneIs(r: Tables, r': Tables, i: nat, p: Prio, e: EventId)
    requires TablesOk(r) && IsTask(r, i, p) && e < |r.ecbs|
    requires r' == r.(ecbs := r.ecbs[e := Joined(r.ecbs[e], r.tcbs[i])])
    ensures TablesOk(r') && AbsOf(r') == AbsOf(r).(events := Await(AbsOf(r).events, p, [e]))
  {
    var x' := Joined(r.ecbs[e], r.tcbs[i]);
    JoinedIs(r.ecbs[e], x', r.tcbs[i], p, |r.rows|, UsedPrios(r.prioTbl));
    EcbSetIs(r, r', e, x');
    assert AbsOf(r).events[e := EventOf(x')] == Await(AbsOf(r).events, p, [e]);
  }

  // The links between control blocks, which no status update touches.
  predicate SameLinks(a: seq<Tcb>, b: seq<Tcb>) {
    |a| == |b| && forall i :: 0 <= i < |a| ==>
      b[i].next == a[i].next && b[i].prev == a[i].prev && b[i].prio == a[i].prio
  }

  // The task of an existing priority.
  lemma TaskAt(r: Tables, i: nat, p: Prio)
    requires TablesOk(r) && IsTask(r, i, p)
    ensures i < |r.tcbs| && p in AbsOf(r).tasks && AbsOf(r).tasks[p] == r.tcbs[i].task
    ensures TcbFor(r.tcbs[i], p) && p / 8 < |r.rows| && RefsOk(r.tcbs[i].task, |r.ecbs|)
  {
  }

  lemma TaskOf(r: Tables, p: Prio)
    requires TablesOk(r)
    ensures p in AbsOf(r).tasks <==> p < |r.prioTbl| && r.prioTbl[p] >= 0
    ensures p in AbsOf(r).tasks ==> IsTask(r, r.prioTbl[p], p)
  {
  }

  lemma EcbAt(r: Tables, e: EventId)
    requires TablesOk(r) && e < |r.ecbs|
    ensures EcbOk(r.ecbs[e], |r.rows|, UsedPrios(r.prioTbl)) && |AbsOf(r).events| == |r.ecbs|
  {
  }

  lemma EventAt(r: Tables, e: EventId)
    requires TablesOk(r) && e < |r.ecbs|
    ensures |AbsOf(r).events| == |r.ecbs| && AbsOf(r).events[e].kind == r.ecbs[e].kind
    ensures HasUnit(r.ecbs[e]) <==> AbsOf(r).events[e].stored != []
  {
    HasUnitIs(r.ecbs[e]);
  }

  // What an event block stores and how much it can: a semaphore as many null
  // units as its count, a mailbox its message unless that is null, a queue the
  // entries from OSQOut on.
  lemma UnitsAre(r: Tables, e: EventId)
    requires TablesOk(r) && e < |r.ecbs|
    ensures |AbsOf(r).events| == |r.ecbs|
    ensures var x, ev := r.ecbs[e], AbsOf(r).events[e];
      match x.kind
      case Sem => |ev.stored| == x.cnt && (forall i :: 0 <= i < x.cnt ==> ev.stored[i] == 0) && ev.cap == 65535
      case Mbox => ev.stored == (if x.msg == 0 then [] else [x.msg]) && ev.cap == 1
      case Queue =>
        && |ev.stored| == x.q.entries && ev.cap == |x.q.buf|
        && forall i :: 0 <= i < x.q.entries ==> ev.stored[i] == x.q.buf[(x.q.outAt + i) % |x.q.buf|]
      case Other => ev.stored == [] && ev.cap == 0
  {
    var q, ev := r.ecbs[e].q, AbsOf(r).events[e];
    if r.ecbs[e].kind == Queue {
      forall i | 0 <= i < q.entries ensures ev.stored[i] == q.buf[(q.outAt + i) % |q.buf|] {
        Wrapped(q.outAt + i, |q.buf|);
      }
    }
  }

  lemma Wrapped(i: nat, size: nat)
    requires i < 2 * size
    ensures MsgQueue.Wrap(i, size) == i % size
  {
    if i >= size { assert (i - size) % size == i - size; }
  }

  // The table lookups on a nonempty wait list find its best waiter.
  lemma BestWaiter(r: Tables, e: EventId)
    requires TablesOk(r) && e < |r.ecbs| && AbsOf(r).events[e].waiters != {}
    ensures var x := r.ecbs[e];
      && UnMap(x.grp) < |x.tbl| && Highest(x.grp, x.tbl) == Least(AbsOf(r).events[e].waiters)
      && Highest(x.grp, x.tbl) < |r.prioTbl|
      && IsTask(r, r.prioTbl[Highest(x.grp, x.tbl)], Highest(x.grp, x.tbl))
    ensures AbsOf(r).events[e].waiters <= AbsOf(r).tasks.Keys
  {
    var x := r.ecbs[e];
    EmptyIff(x.grp, x.tbl);
    Top(x.grp, x.tbl);
  }

  // and on the ready list the highest ready task.
  lemma BestReady(r: Tables)
    requires TablesOk(r) && AbsOf(r).ready != {}
    ensures UnMap(r.grp) < |r.rows| && Highest(r.grp, r.rows) == Least(AbsOf(r).ready)
    ensures Highest(r.grp, r.rows) < |r.prioTbl| && IsTask(r, r.prioTbl[Highest(r.grp, r.rows)], Highest(r.grp, r.rows))
  {
    EmptyIff(r.grp, r.rows);
    Top(r.grp, r.rows);
  }

  // Deliver as the kernel performs it: status and ready list first, then the
  // wait lists, then the event pointer.
  function HandedOver(k: Kernel, p: Prio, e: EventId, t: Task): Kernel {
    var freed := Unwait(k.events, p, [e]);
    var k1 := k.(tasks := k.tasks[p := t],
                 ready := if t.stat & STAT_SUSPEND == 0 then k.ready + {p} else k.ready);
    if t.multi.Some?
    then k1.(tasks := k1.tasks[p := t.(eventPtr := Some(e))], events := Unwait(freed, p, t.multi.value))
    else k1.(events := freed)
  }

  lemma DeliverInSteps(k: Kernel, e: EventId, msg: Msg, msk: bv8, st: PendStat, p: Prio, t: Task)
    requires e < |k.events| && k.events[e].waiters != {} && k.events[e].waiters <= k.tasks.Keys
    requires p == Least(k.events[e].waiters)
    requires t == k.tasks[p].(dly := 0, msg := msg, stat := k.tasks[p].stat & !msk, statPend := st)
    ensures Deliver(k, e, msg, msk, st) == HandedOver(k, p, e, t)
  {
    hide Unwait;
    SamePair(k.tasks, p, t, t.(eventPtr := Some(e)));
    if t.multi.Some? {
      assert k.tasks[p].multi.Some?;
    } else {
      assert t.(eventPtr := t.eventPtr) == t;
    }
  }

  lemma SamePair(tasks: map<Prio, Task>, p: Prio, t: Task, t': Task)
    ensures tasks[p := t][p := t'] == tasks[p := t']
  {
  }

  // ---------------------------------------------------------------------
  // Units in an event block.

  // Taking one: decrement the count, empty the mailbox, or advance the queue.
  function TakenOne(x: Ecb): (Ecb, Msg)
    requires MsgQueue.RingOk(x.q) && Stored(x) != []
  {
    match x.kind
    case Sem => (x.(cnt := x.cnt - 1), NULL_MSG)
    case Mbox => (x.(msg := NULL_MSG), x.msg)
    case Queue => var r := MsgQueue.Get(x.q); (x.(q := r.0), r.1)
  }

  lemma TakenOneIs(x: Ecb, rows: nat, used: set<Prio>)
    requires EcbOk(x, rows, used) && Stored(x) != []
    ensures var r := TakenOne(x);
      && EcbOk(r.0, rows, used) && r.1 == Stored(x)[0]
      && EventOf(r.0) == EventOf(x).(stored := Stored(x)[1..])
  {
    var r := TakenOne(x);
    match x.kind
    case Sem => assert Stored(r.0) == Stored(x)[1..];
    case Mbox =>
    case Queue =>
      assert MsgQueue.Contents(x.q) == [r.1] + MsgQueue.Contents(r.0.q);
      assert Stored(r.0) == Stored(x)[1..];
  }

  // Storing one: increment the count, fill the mailbox, or append.
  function StoredOne(x: Ecb, msg: Msg): Ecb
    requires MsgQueue.RingOk(x.q) && |Stored(x)| < EventOf(x).cap
  {
    match x.kind
    case Sem => x.(cnt := x.cnt + 1)
    case Mbox => x.(msg := msg)
    case Queue => x.(q := MsgQueue.Put(x.q, msg))
  }

  lemma StoredOneIs(x: Ecb, msg: Msg, rows: nat, used: set<Prio>)
    requires EcbOk(x, rows, used) && |Stored(x)| < EventOf(x).cap
    requires (x.kind == Sem ==> msg == NULL_MSG) && (x.kind == Mbox ==> msg != NULL_MSG)
    ensures var x' := StoredOne(x, msg);
      EcbOk(x', rows, used) && EventOf(x') == EventOf(x).(stored := Stored(x) + [msg])
  {
    var x' := StoredOne(x, msg);
    assert Stored(x') == Stored(x) + [msg];
  }

  // The availability tests: count > 0, message not null, entries > 0.
  predicate HasUnit(x: Ecb) {
    match x.kind
    case Sem => x.cnt > 0
    case Mbox => x.msg != NULL_MSG
    case Queue => x.q.entries > 0
    case Other => false
  }

  lemma HasUnitIs(x: Ecb)
    requires MsgQueue.RingOk(x.q)
    ensures HasUnit(x) <==> Stored(x) != []
  {
  }

  lemma UnitTakenIs(r: Tables, r': Tables, e: EventId, x: Ecb)
    requires TablesOk(r) && e < |r.ecbs| && HasUnit(r.ecbs[e]) && Stored(r.ecbs[e]) != []
    requires x == TakenOne(r.ecbs[e]).0 && r' == r.(ecbs := r.ecbs[e := x])
    ensures TablesOk(r') && AbsOf(r).events[e].stored != []
    ensures AbsOf(r') == AbsOf(r).(events := Take(AbsOf(r).events, e))
    ensures TakenOne(r.ecbs[e]).1 == AbsOf(r).events[e].stored[0]
  {
    TakenOneIs(r.ecbs[e], |r.rows|, UsedPrios(r.prioTbl));
    EcbSetIs(r, r', e, x);
  }

  // BlockOne and BlockMany as the kernel performs them: the new status t,
  // then the wait lists and the ready list.
  lemma BlockOneInSteps(k: Kernel, p: Prio, e: EventId, timeout: nat, t: Task)
    requires p in k.tasks && e < |k.events|
    requires t == k.tasks[p].(stat := k.tasks[p].stat | TypeBit(k.events[e].kind), statPend := PendOk,
                              dly := timeout, eventPtr := Some(e))
    ensures BlockOne(k, p, e, timeout) ==
      k.(tasks := k.tasks[p := t], ready := k.ready - {p}, events := Await(k.events, p, [e]))
  {
  }

  lemma BlockManyInSteps(k: Kernel, p: Prio, es: seq<EventId>, stat: bv8, timeout: nat, t: Task)
    requires p in k.tasks
    requires t == k.tasks[p].(stat := k.tasks[p].stat | (stat | STAT_MULTI), statPend := PendOk,
                              dly := timeout, eventPtr := None, multi := Some(es))
    ensures BlockMany(k, p, es, stat, timeout) ==
      k.(tasks := k.tasks[p := t], ready := k.ready - {p}, events := Await(k.events, p, es))
  {
  }

  // WakeMany in the order of the C code: the outcome st first, then the
  // result, then the cleared status.
  function OutcomeOf(t: Task): PendStat {
    if t.statPend.PendTo? || t.eventPtr.None? then PendTo else t.statPend
  }

  lemma WakeManyInSteps(k: Kernel, p: Prio, es: seq<EventId>, t: Task, res: PendResult)
    requires p in k.tasks && t == k.tasks[p] && (t.eventPtr.Some? ==> t.eventPtr.value < |k.events|)
    requires match OutcomeOf(t)
             case PendTo => res == TimedOut
             case PendAbort => res == Aborted(t.eventPtr.value)
             case PendOk => res == GotEvent(t.eventPtr.value,
                                            if k.events[t.eventPtr.value].kind == Sem then NULL_MSG else t.msg)
    ensures WakeMany(k, p, es) ==
      (k.(tasks := k.tasks[p := Settle(t).(msg := NULL_MSG)],
          events := if OutcomeOf(t) == PendTo then Unwait(k.events, p, es) else k.events), res)
  {
  }

  lemma UnitStoredIs(r: Tables, r': Tables, e: EventId, msg: Msg, x: Ecb)
    requires TablesOk(r) && e < |r.ecbs| && |Stored(r.ecbs[e])| < EventOf(r.ecbs[e]).cap
    requires (r.ecbs[e].kind == Sem ==> msg == NULL_MSG) && (r.ecbs[e].kind == Mbox ==> msg != NULL_MSG)
    requires x == StoredOne(r.ecbs[e], msg) && r' == r.(ecbs := r.ecbs[e := x])
    ensures TablesOk(r')
    ensures var ev := AbsOf(r).events[e];
      AbsOf(r') == AbsOf(r).(events := AbsOf(r).events[e := ev.(stored := ev.stored + [msg])])
  {
    StoredOneIs(r.ecbs[e], msg, |r.rows|, UsedPrios(r.prioTbl));
    EcbSetIs(r, r', e, x);
  }

  // The room tests: count < 65535, mailbox empty, entries < size.
  predicate HasRoom(x: Ecb) {
    match x.kind
    case Sem => x.cnt < SEM_MAX
    case Mbox => x.msg == NULL_MSG
    case Queue => x.q.entries < |x.q.buf|
    case Other => false
  }

  lemma RoomAt(r: Tables, e: EventId)
    requires TablesOk(r) && e < |r.ecbs|
    ensures |AbsOf(r).events| == |r.ecbs|
    ensures HasRoom(r.ecbs[e]) <==> |AbsOf(r).events[e].stored| < AbsOf(r).events[e].cap
    ensures HasRoom(r.ecbs[e]) <==> |Stored(r.ecbs[e])| < EventOf(r.ecbs[e]).cap
  {
  }

  // The test OSEventGrp != 0, and who may be in the list.
  lemma WaitingAt(r: Tables, e: EventId)
    requires TablesOk(r) && e < |r.ecbs|
    ensures |AbsOf(r).events| == |r.ecbs| && AbsOf(r).events[e].kind == r.ecbs[e].kind
    ensures r.ecbs[e].grp != 0 <==> AbsOf(r).events[e].waiters != {}
    ensures AbsOf(r).events[e].waiters <= AbsOf(r).tasks.Keys
  {
    EmptyIff(r.ecbs[e].grp, r.ecbs[e].tbl);
  }
}
