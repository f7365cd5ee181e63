/** The linked lists of control blocks.

  OSTCBTbl is threaded twice: the active list (OSTCBList, doubly linked, newest
  task first, idle task last) and the free list (OSTCBFreeList, through
  OSTCBNext).  The ghost sequences `active` and `free` name their members.
*/
module KernelLists {
  import opened Options
  import opened Bits
  import opened PrioBitmap
  import opened KernelModel
  import opened KernelTables

  // The n-th member, or the null pointer outside the list.
  function At(l: seq<nat>, n: int): int {
    if 0 <= n < |l| then l[n] else NULL
  }

  ghost predicate Chain(tcbs: seq<Tcb>, head: int, l: seq<nat>) {
    && head == At(l, 0)
    && (forall n :: 0 <= n < |l| ==>
          l[n] < |tcbs| && tcbs[l[n]].next == At(l, n + 1))
  }

  ghost predicate BackChain(tcbs: seq<Tcb>, l: seq<nat>) {
    forall n :: 0 <= n < |l| ==> l[n] < |tcbs| && tcbs[l[n]].prev == At(l, n - 1)
  }

  ghost predicate Distinct(l: seq<nat>) {
    forall m, n :: 0 <= m < n < |l| ==> l[m] != l[n]
  }

  // Every control block is in exactly one of the two lists.
  ghost predicate Partition(count: nat, active: seq<nat>, free: seq<nat>) {
    && Distinct(active) && Distinct(free)
    && (forall i :: 0 <= i < count ==> (i in active <==> i !in free))
  }

  // OSTCBPrioTbl is the exact index of the active list.
  ghost predicate Indexed(tcbs: seq<Tcb>, prioTbl: seq<int>, active: seq<nat>) {
    && (forall p :: 0 <= p < |prioTbl| && prioTbl[p] >= 0 ==> prioTbl[p] in active)
    && (forall n :: 0 <= n < |active| ==>
          active[n] < |tcbs| && tcbs[active[n]].prio < |prioTbl| && prioTbl[tcbs[active[n]].prio] == active[n])
  }

  ghost predicate IdleLast(tcbs: seq<Tcb>, lowest: nat, active: seq<nat>) {
    active != [] ==> active[|active| - 1] < |tcbs| && tcbs[active[|active| - 1]].prio == lowest
  }

  ghost predicate Linked(r: Tables, list: int, freeList: int, taskCtr: nat, active: seq<nat>, free: seq<nat>) {
    && Chain(r.tcbs, list, active) && BackChain(r.tcbs, active)
    && Chain(r.tcbs, freeList, free)
    && Partition(|r.tcbs|, active, free)
    && Indexed(r.tcbs, r.prioTbl, active)
    && IdleLast(r.tcbs, r.lowest, active)
    && taskCtr == |active|
  }

  // Status updates keep the lists.
  lemma LinksKept(r: Tables, r': Tables, list: int, freeList: int, taskCtr: nat, active: seq<nat>, free: seq<nat>)
    requires Linked(r, list, freeList, taskCtr, active, free)
    requires SameLinks(r.tcbs, r'.tcbs) && r'.prioTbl == r.prioTbl && r'.lowest == r.lowest
    ensures Linked(r', list, freeList, taskCtr, active, free)
  {
  }

  // The idle task is met exactly at the end of the active list.
  lemma IdleAtEnd(r: Tables, active: seq<nat>, n: nat)
    requires Indexed(r.tcbs, r.prioTbl, active) && IdleLast(r.tcbs, r.lowest, active) && Distinct(active)
    requires n < |active|
    ensures r.tcbs[active[n]].prio == r.lowest <==> n == |active| - 1
  {
  }

  // The priorities of the first n active tasks.
  function PriosOf(tcbs: seq<Tcb>, active: seq<nat>, n: nat): set<Prio>
    requires n <= |active| && forall m :: 0 <= m < |active| ==> active[m] < |tcbs|
  {
    set m: nat | m < n :: tcbs[active[m]].prio
  }

  lemma PriosGrow(r: Tables, active: seq<nat>, n: nat)
    requires n < |active| && Indexed(r.tcbs, r.prioTbl, active) && Distinct(active)
    ensures PriosOf(r.tcbs, active, n + 1) == PriosOf(r.tcbs, active, n) + {r.tcbs[active[n]].prio}
    ensures r.tcbs[active[n]].prio !in PriosOf(r.tcbs, active, n)
  {
    var a, b := PriosOf(r.tcbs, active, n + 1), PriosOf(r.tcbs, active, n) + {r.tcbs[active[n]].prio};
    forall p ensures p in a <==> p in b {
      if p in b && p !in PriosOf(r.tcbs, active, n) { assert p == r.tcbs[active[n]].prio; }
    }
  }

  // All active tasks but the last are all existing tasks but the idle one.
  lemma AllButIdle(r: Tables, active: seq<nat>)
    requires TablesOk(r) && active != [] && Indexed(r.tcbs, r.prioTbl, active) && IdleLast(r.tcbs, r.lowest, active)
    requires Distinct(active)
    ensures PriosOf(r.tcbs, active, |active| - 1) == AbsOf(r).tasks.Keys - {r.lowest}
  {
    hide Distinct, GroupOk, Members, RefsOk, IsMask;
    var a, b := PriosOf(r.tcbs, active, |active| - 1), AbsOf(r).tasks.Keys - {r.lowest};
    forall p: Prio ensures p in a <==> p in b {
      if p in a {
        var m: nat :| m < |active| - 1 && r.tcbs[active[m]].prio == p;
        IdleAtEnd(r, active, m);
      }
      if p in b {
        var i := r.prioTbl[p];
        assert i in active;
        var m: nat :| m < |active| && active[m] == i;
        assert TcbFor(r.tcbs[i], p);
        IdleAtEnd(r, active, m);
        assert m < |active| - 1;
      }
    }
  }

  // ---------------------------------------------------------------------
  // Creation: control block i moves from the free list to the active list.

  lemma ChainKept(tcbs: seq<Tcb>, tcbs': seq<Tcb>, head: int, l: seq<nat>)
    requires Chain(tcbs, head, l) && |tcbs'| == |tcbs|
    requires forall n :: 0 <= n < |l| ==> tcbs'[l[n]].next == tcbs[l[n]].next
    ensures Chain(tcbs', head, l)
  {
  }

  lemma ChainGrown(tcbs: seq<Tcb>, head: int, l: seq<nat>, i: nat)
    requires Chain(tcbs, head, l) && i < |tcbs| && tcbs[i].next == head
    ensures Chain(tcbs, i, [i] + l)
  {
    var l' := [i] + l;
    forall n | 0 <= n < |l'|
      ensures l'[n] < |tcbs| && tcbs[l'[n]].next == At(l', n + 1)
    {
      if n > 0 { assert l'[n] == l[n - 1]; }
      if n < |l| { assert l'[n + 1] == l[n]; }
    }
  }

  lemma ChainCut(tcbs: seq<Tcb>, head: int, l: seq<nat>)
    requires Chain(tcbs, head, l) && l != []
    ensures l[0] < |tcbs| && Chain(tcbs, tcbs[l[0]].next, l[1..])
  {
    var l' := l[1..];
    forall n | 0 <= n < |l'|
      ensures l'[n] < |tcbs| && tcbs[l'[n]].next == At(l', n + 1)
    {
      assert l'[n] == l[n + 1];
      if n + 1 < |l'| { assert l'[n + 1] == l[n + 2]; }
    }
    assert l[0] < |tcbs| && tcbs[l[0]].next == At(l, 1);
  }

  lemma PartitionMoved(count: nat, active: seq<nat>, free: seq<nat>, i: nat)
    requires Partition(count, active, free) && free != [] && i == free[0] && i < count
    ensures Partition(count, [i] + active, free[1..])
  {
    assert free == [i] + free[1..];
    assert i !in active;
  }

  lemma BackChainGrown(tcbs: seq<Tcb>, tcbs': seq<Tcb>, l: seq<nat>, i: nat)
    requires BackChain(tcbs, l) && i < |tcbs'| == |tcbs| && tcbs'[i].prev == NULL
    requires forall n :: 0 <= n < |l| ==> tcbs'[l[n]].prev == if n == 0 then i else tcbs[l[n]].prev
    ensures BackChain(tcbs', [i] + l)
  {
    var l' := [i] + l;
    forall n | 0 <= n < |l'|
      ensures l'[n] < |tcbs'| && tcbs'[l'[n]].prev == At(l', n - 1)
    {
      if n > 0 {
        assert l'[n] == l[n - 1];
        assert l[n - 1] < |tcbs| && tcbs[l[n - 1]].prev == At(l, n - 2);
        BeforeGrown(l, i, n);
      }
    }
  }

  lemma BeforeGrown(l: seq<nat>, i: nat, n: nat)
    requires 0 < n <= |l|
    ensures At([i] + l, n - 1) == if n == 1 then i else At(l, n - 2)
  {
    if n > 1 { assert ([i] + l)[n - 1] == l[n - 2]; }
  }

  lemma IndexGrown(tcbs: seq<Tcb>, tcbs': seq<Tcb>, prioTbl: seq<int>, l: seq<nat>, i: nat, p: Prio)
    requires Indexed(tcbs, prioTbl, l) && i < |tcbs'| == |tcbs| && i !in l
    requires p < |prioTbl| && prioTbl[p] < 0 && tcbs'[i].prio == p
    requires forall n :: 0 <= n < |l| ==> tcbs'[l[n]].prio == tcbs[l[n]].prio
    ensures Indexed(tcbs', prioTbl[p := i], [i] + l)
  {
    var l' := [i] + l;
    forall n | 0 <= n < |l'|
      ensures l'[n] < |tcbs'| && tcbs'[l'[n]].prio < |prioTbl| && prioTbl[p := i][tcbs'[l'[n]].prio] == l'[n]
    {
      if n > 0 { assert l'[n] == l[n - 1]; }
    }
    assert i in l' && forall x :: x in l ==> x in l';
  }

  // OS_InitTCBList: every control block is free, in order.
  lemma AllFree(r: Tables, free: seq<nat>)
    requires |free| == |r.tcbs| && forall n :: 0 <= n < |free| ==> free[n] == n
    requires forall n :: 0 <= n < |r.tcbs| ==> r.tcbs[n].next == if n + 1 < |r.tcbs| then n + 1 else NULL
    requires forall p :: 0 <= p < |r.prioTbl| ==> r.prioTbl[p] == NULL
    ensures Linked(r, NULL, if |r.tcbs| > 0 then 0 else NULL, 0, [], free)
  {
    forall i | 0 <= i < |r.tcbs| ensures i in free { assert free[i] == i; }
  }

  lemma ReservedLinks(r: Tables, r': Tables, list: int, freeList: int, taskCtr: nat, active: seq<nat>, free: seq<nat>,
                      p: Prio, v: int)
    requires Linked(r, list, freeList, taskCtr, active, free) && p < |r.prioTbl| && r.prioTbl[p] < 0 && v < 0
    requires r' == r.(prioTbl := r.prioTbl[p := v])
    ensures Linked(r', list, freeList, taskCtr, active, free)
  {
  }

  // The head of the free list is a control block no priority points at.
  lemma FreeBlock(r: Tables, list: int, freeList: int, taskCtr: nat, active: seq<nat>, free: seq<nat>)
    requires Linked(r, list, freeList, taskCtr, active, free)
    ensures freeList == At(free, 0) && (free != [] ==> free[0] < |r.tcbs| && r.tcbs[free[0]].next == At(free, 1))
    ensures list == NULL || (0 <= list < |r.tcbs| && (free != [] ==> list != free[0]))
    ensures free != [] ==> forall q :: 0 <= q < |r.prioTbl| ==> r.prioTbl[q] != free[0]
  {
    assert active != [] ==> active[0] in active;
    assert free != [] ==> free[0] in free;
  }

  // What OS_TCBInit does to the control blocks: block i is filled in and
  // linked before the old head of the active list.
  predicate BlockInserted(a: seq<Tcb>, b: seq<Tcb>, i: nat, list: int, p: Prio) {
    && |b| == |a| && i < |a| && TcbFor(b[i], p) && b[i].next == list && b[i].prev == NULL && b[i].task == NEW_TASK
    && (forall j :: 0 <= j < |a| && j != i ==> b[j] == if j == list then a[j].(prev := i) else a[j])
  }

  lemma FreeCut(a: seq<Tcb>, b: seq<Tcb>, freeList: int, free: seq<nat>, list: int, p: Prio)
    requires Chain(a, freeList, free) && Distinct(free) && free != [] && BlockInserted(a, b, free[0], list, p)
    ensures Chain(b, a[free[0]].next, free[1..])
  {
    hide TcbFor;
    ChainCut(a, freeList, free);
    forall n | 0 <= n < |free[1..]| ensures b[free[1..][n]].next == a[free[1..][n]].next {
      assert free[1..][n] == free[n + 1] && free[n + 1] != free[0];
    }
    ChainKept(a, b, a[free[0]].next, free[1..]);
  }

  lemma ActiveGrown(a: seq<Tcb>, b: seq<Tcb>, list: int, active: seq<nat>, i: nat, p: Prio)
    requires Chain(a, list, active) && BackChain(a, active) && Distinct(active) && i !in active
    requires BlockInserted(a, b, i, list, p)
    ensures Chain(b, i, [i] + active) && BackChain(b, [i] + active)
  {
    hide TcbFor;
    ChainKept(a, b, list, active);
    ChainGrown(b, list, active, i);
    forall n | 0 <= n < |active| ensures b[active[n]].prev == if n == 0 then i else a[active[n]].prev {
      assert active[n] != i && (n > 0 ==> active[n] != active[0]);
    }
    BackChainGrown(a, b, active, i);
  }

  lemma CreatedLinks(r: Tables, r': Tables, list: int, freeList: int, taskCtr: nat, active: seq<nat>, free: seq<nat>,
                     p: Prio)
    requires Linked(r, list, freeList, taskCtr, active, free) && free != [] && p < |r.prioTbl| && r.prioTbl[p] < 0
    requires active == [] ==> p == r.lowest
    requires BlockInserted(r.tcbs, r'.tcbs, free[0], list, p)
    requires r'.prioTbl == r.prioTbl[p := free[0]] && r'.lowest == r.lowest
    ensures Linked(r', free[0], r.tcbs[free[0]].next, taskCtr + 1, [free[0]] + active, free[1..])
  {
    hide IsMask, Chain, BackChain;
    var i := free[0];
    PartitionMoved(|r.tcbs|, active, free, i);
    FreeCut(r.tcbs, r'.tcbs, freeList, free, list, p);
    ActiveGrown(r.tcbs, r'.tcbs, list, active, i, p);
    IndexGrown(r.tcbs, r'.tcbs, r.prioTbl, active, i, p);
    var active' := [i] + active;
    assert active != [] ==> active'[|active'| - 1] == active[|active| - 1];
    assert At(active', 0) == i && At(free, 0) == i;
  }

  // and what it does to the tasks.
  lemma CreatedIndex(r: Tables, b: seq<Tcb>, list: int, i: nat, p: Prio)
    requires IndexOk(r.tcbs, r.prioTbl) && p < |r.prioTbl| && r.prioTbl[p] < 0
    requires forall q :: 0 <= q < |r.prioTbl| ==> r.prioTbl[q] != i
    requires BlockInserted(r.tcbs, b, i, list, p)
    ensures IndexOk(b, r.prioTbl[p := i]) && UsedPrios(r.prioTbl[p := i]) == UsedPrios(r.prioTbl) + {p}
    ensures TasksOf(b, r.prioTbl[p := i]) == TasksOf(r.tcbs, r.prioTbl)[p := NEW_TASK]
  {
    hide IsMask, TcbFor;
    var prioTbl' := r.prioTbl[p := i];
    forall q | 0 <= q < |prioTbl'| && prioTbl'[q] >= 0
      ensures prioTbl'[q] < |b| && TcbFor(b[prioTbl'[q]], q)
      ensures b[prioTbl'[q]].task == if q == p then NEW_TASK else r.tcbs[r.prioTbl[q]].task
    {
      if q != p { SameBlock(r.tcbs[r.prioTbl[q]], b[r.prioTbl[q]], q); }
    }
  }

  lemma SameBlock(t: Tcb, t': Tcb, q: Prio)
    requires TcbFor(t, q) && (t' == t || t' == t.(prev := t'.prev))
    ensures TcbFor(t', q)
  {
  }

  lemma CreatedTasks(r: Tables, r': Tables, list: int, i: nat, p: Prio)
    requires TablesOk(r) && p < |r.prioTbl| && r.prioTbl[p] < 0
    requires forall q :: 0 <= q < |r.prioTbl| ==> r.prioTbl[q] != i
    requires BlockInserted(r.tcbs, r'.tcbs, i, list, p)
    requires r' == r.(tcbs := r'.tcbs, prioTbl := r.prioTbl[p := i])
    ensures TablesOk(r') && AbsOf(r') == AbsOf(r).(tasks := AbsOf(r).tasks[p := NEW_TASK])
  {
    CreatedIndex(r, r'.tcbs, list, i, p);
    hide GroupOk, Members, TcbFor;
    forall q | q in UsedPrios(r'.prioTbl) ensures RefsOk(r'.tcbs[r'.prioTbl[q]].task, |r'.ecbs|) {
      assert r'.tcbs[r'.prioTbl[q]].task == TasksOf(r'.tcbs, r'.prioTbl)[q];
    }
  }

  // ---------------------------------------------------------------------
  // The tick, one task at a time.
  // The walk starts at the head of the active list with no task visited, and
  // has visited every task but the idle one when it is at the last.
  lemma TickStarts(r: Tables, list: int, freeList: int, taskCtr: nat, active: seq<nat>, free: seq<nat>)
    requires TablesOk(r) && Linked(r, list, freeList, taskCtr, active, free) && active != []
    ensures list == active[0] && forall n :: 0 <= n < |active| ==> active[n] < |r.tcbs|
    ensures AbsOf(r) == TickSome(AbsOf(r), PriosOf(r.tcbs, active, 0))
    ensures Tick(AbsOf(r)) == TickSome(AbsOf(r), PriosOf(r.tcbs, active, |active| - 1))
  {
    hide TablesOk, TickSome, BackChain;
    AllButIdle(r, active);
    hide Indexed, IdleLast, Distinct;
    assert AbsOf(r).idle == r.lowest && PriosOf(r.tcbs, active, 0) == {};
    NothingTicked(AbsOf(r));
  }

  lemma AtIdle(r: Tables, list: int, freeList: int, taskCtr: nat, active: seq<nat>, free: seq<nat>, n: nat)
    requires Linked(r, list, freeList, taskCtr, active, free) && n < |active|
    ensures active[n] < |r.tcbs| && (r.tcbs[active[n]].prio == r.lowest <==> n == |active| - 1)
  {
    IdleAtEnd(r, active, n);
  }
}
