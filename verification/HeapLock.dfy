/** The newlib heap lock: a re-entrant lock made of a plain semaphore.

  Tasks may be preempted between any two steps, so the calls of
  __malloc_lock and __malloc_unlock are cut where another task can run:
  around the semaphore services, at the critical sections, and between the
  two plain stores after OSSemPend.  A task's priority is its identity.
*/
module HeapLock {
  import opened Options
  import opened KernelModel

  // Where a task is.  Queried holds the semaphore count OSSemQuery returned,
  // which may be out of date when it is used.
  datatype Place =
    | Outside             // not inside either function
    | Queried(cnt: nat)   // before the critical section of __malloc_lock
    | ToPend              // before OSSemPend
    | Waiting             // blocked in OSSemPend
    | Acquired            // OSSemPend has returned
    | Counted             // locks = 1 is done, lockid = id is not
    | Posting             // before OSSemPost in __malloc_unlock

  // depth is the number of completed locks not yet undone by an unlock.
  datatype Client = Client(at: Place, depth: nat)

  datatype Lock = Lock(tasks: map<Prio, Client>, cnt: nat, locks: nat, lockid: Option<Prio>)

  datatype Step =
    | Query(t: Prio)
    | Check(t: Prio)
    | Pend(t: Prio)
    | SetLocks(t: Prio)
    | SetId(t: Prio)
    | Unlock(t: Prio)
    | Post(t: Prio)

  function Waiters(s: Lock): set<Prio> {
    set t | t in s.tasks && s.tasks[t].at.Waiting?
  }

  // Only a task that holds the lock calls __malloc_unlock.
  predicate Enabled(s: Lock, a: Step) {
    a.t in s.tasks &&
    match a
    case Query(t) => s.tasks[t].at.Outside?
    case Check(t) => s.tasks[t].at.Queried?
    case Pend(t) => s.tasks[t].at.ToPend?
    case SetLocks(t) => s.tasks[t].at.Acquired?
    case SetId(t) => s.tasks[t].at.Counted?
    case Unlock(t) => s.tasks[t].at.Outside? && s.tasks[t].depth > 0
    case Post(t) => s.tasks[t].at.Posting?
  }

  function Moved(s: Lock, t: Prio, at: Place): Lock
    requires t in s.tasks
  {
    s.(tasks := s.tasks[t := s.tasks[t].(at := at)])
  }

  // The critical section of __malloc_unlock.
  function UnlockStep(s: Lock, t: Prio): Lock
    requires t in s.tasks
  {
    if s.locks == 0 then s
    else
      var depth := if s.tasks[t].depth > 0 then s.tasks[t].depth - 1 else 0;
      if s.locks - 1 == 0 then s.(locks := 0, lockid := None, tasks := s.tasks[t := Client(Posting, depth)])
      else s.(locks := s.locks - 1, tasks := s.tasks[t := s.tasks[t].(depth := depth)])
  }

  ghost function Apply(s: Lock, a: Step): Lock
    requires Enabled(s, a)
  {
    match a
    case Query(t) => Moved(s, t, Queried(s.cnt))
    case Check(t) =>
      if s.tasks[t].at.cnt == 0 && s.lockid == Some(t)
      then s.(locks := s.locks + 1, tasks := s.tasks[t := Client(Outside, s.tasks[t].depth + 1)])
      else Moved(s, t, ToPend)
    case Pend(t) =>
      if s.cnt > 0 then Moved(s, t, Acquired).(cnt := s.cnt - 1) else Moved(s, t, Waiting)
    case SetLocks(t) => Moved(s, t, Counted).(locks := 1)
    case SetId(t) => s.(lockid := Some(t), tasks := s.tasks[t := Client(Outside, s.tasks[t].depth + 1)])
    case Unlock(t) => UnlockStep(s, t)
    case Post(t) =>
      if Waiters(s) != {} then Moved(Moved(s, t, Outside), Least(Waiters(s)), Acquired)
      else Moved(s, t, Outside).(cnt := s.cnt + 1)
  }

  // ---------------------------------------------------------------------
  // The invariant.

  // Between the acquisition of the semaphore and the post.
  predicate Holding(x: Client) {
    x.depth > 0 || x.at.Acquired? || x.at.Counted? || x.at.Posting?
  }

  function Holders(s: Lock): set<Prio> {
    set t | t in s.tasks && Holding(s.tasks[t])
  }

  // The variables are the holder's.
  predicate HolderOk(s: Lock, t: Prio)
    requires t in s.tasks
  {
    var x := s.tasks[t];
    match x.at
    case Outside => x.depth == s.locks && s.lockid == Some(t)
    case Queried(c) => c == 0 && x.depth == s.locks && s.lockid == Some(t)
    case ToPend => false
    case Waiting => false
    case Acquired => x.depth == 0 && s.locks == 0 && s.lockid == None
    case Counted => x.depth == 0 && s.locks == 1 && s.lockid == None
    case Posting => x.depth == 0 && s.locks == 0 && s.lockid == None
  }

  predicate Inv(s: Lock) {
    && s.cnt + |Holders(s)| == 1
    && (forall t :: t in Holders(s) ==> HolderOk(s, t))
    && (s.cnt == 1 ==> s.locks == 0 && s.lockid == None && Waiters(s) == {})
  }

  // After OSSemCreate(1), before the first call.
  predicate Init(s: Lock) {
    s.cnt == 1 && s.locks == 0 && s.lockid == None && forall t :: t in s.tasks ==> s.tasks[t] == Client(Outside, 0)
  }

  lemma OneHolder(s: Lock, a: Prio, b: Prio)
    requires Inv(s) && a in Holders(s) && b in Holders(s)
    ensures a == b
  {
    if a != b {
      assert {a, b} <= Holders(s);
      SubsetSize({a, b}, Holders(s));
    }
  }

  lemma {:induction false} SubsetSize(a: set<Prio>, b: set<Prio>)
    requires a <= b
    ensures |a| <= |b|
    decreases |a|
  {
    if a != {} {
      var x :| x in a;
      SubsetSize(a - {x}, b - {x});
    }
  }

  // ---------------------------------------------------------------------
  // Every step keeps the invariant.

  // A step of t that neither acquires nor gives up the lock.
  lemma SameHolders(s: Lock, s': Lock, t: Prio)
    requires t in s.tasks && s'.tasks.Keys == s.tasks.Keys
    requires forall q :: q in s.tasks && q != t ==> Holding(s'.tasks[q]) == Holding(s.tasks[q])
    ensures Holders(s') - {t} == Holders(s) - {t}
    ensures Holding(s.tasks[t]) == Holding(s'.tasks[t]) ==> Holders(s') == Holders(s)
    ensures !Holding(s.tasks[t]) && Holding(s'.tasks[t]) ==> Holders(s') == Holders(s) + {t}
    ensures Holding(s.tasks[t]) && !Holding(s'.tasks[t]) ==> Holders(s') == Holders(s) - {t}
  {
  }

  // The holder's own steps between the acquisition and the post.
  lemma HolderSteps(s: Lock, a: Step)
    requires Inv(s) && Enabled(s, a) && a.t in Holders(s) && !a.Post?
    ensures Inv(Apply(s, a)) && Holders(Apply(s, a)) == Holders(s)
  {
    var s' := Apply(s, a);
    SameHolders(s, s', a.t);
    forall q | q in Holders(s) ensures q == a.t { OneHolder(s, q, a.t); }
  }

  // The semaphore is taken, or the task joins the waiters.
  lemma PendSteps(s: Lock, a: Step)
    requires Inv(s) && Enabled(s, a) && a.Pend?
    ensures Inv(Apply(s, a))
  {
    var s', t := Apply(s, a), a.t;
    assert !HolderOk(s, t) && t !in Holders(s);
    SameHolders(s, s', t);
    if s.cnt > 0 {
      assert Holders(s) == {};
      assert Holders(s') == {t} && HolderOk(s', t);
    } else {
      assert forall h :: h in Holders(s) ==> s'.tasks[h] == s.tasks[h];
    }
  }

  lemma OthersSteps(s: Lock, a: Step)
    requires Inv(s) && Enabled(s, a) && a.t !in Holders(s) && !a.Pend?
    ensures Inv(Apply(s, a))
  {
    var s' := Apply(s, a);
    SameHolders(s, s', a.t);
    if a.Check? { Stranger(s, a.t); }
    assert forall h :: h in Holders(s) ==> s'.tasks[h] == s.tasks[h];
  }

  // The recorded owner is a holder.
  lemma Stranger(s: Lock, t: Prio)
    requires Inv(s) && t in s.tasks && t !in Holders(s)
    ensures s.lockid != Some(t)
  {
    if s.cnt == 0 {
      var h :| h in Holders(s);
      assert HolderOk(s, h);
    }
  }

  lemma PostSteps(s: Lock, a: Step)
    requires Inv(s) && Enabled(s, a) && a.Post?
    ensures Inv(Apply(s, a))
    ensures Waiters(s) != {} ==> Holders(Apply(s, a)) == {Least(Waiters(s))} && Apply(s, a).cnt == 0
  {
    var t, s' := a.t, Apply(s, a);
    assert t in Holders(s);
    forall q | q in Holders(s) ensures q == t { OneHolder(s, q, t); }
    assert Holders(s) == {t};
    var s1 := Moved(s, t, Outside);
    SameHolders(s, s1, t);
    assert Holders(s1) == {};
    if Waiters(s) != {} {
      var w := Least(Waiters(s));
      assert w !in Holders(s);
      SameHolders(s1, s', w);
      assert Holders(s') == {w};
    } else {
      assert Holders(s') == Holders(s1);
      assert Waiters(s') == {};
    }
  }

  lemma StepKeeps(s: Lock, a: Step)
    requires Inv(s) && Enabled(s, a)
    ensures Inv(Apply(s, a))
  {
    if a.Post? { PostSteps(s, a); }
    else if a.Pend? { PendSteps(s, a); }
    else if a.t in Holders(s) { HolderSteps(s, a); }
    else { OthersSteps(s, a); }
  }

  ghost predicate IsRun(states: seq<Lock>, steps: seq<Step>) {
    && |states| == |steps| + 1 && Init(states[0])
    && forall i {:trigger steps[i]} :: 0 <= i < |steps| ==>
         Enabled(states[i], steps[i]) && states[i + 1] == Apply(states[i], steps[i])
  }

  lemma {:induction false} RunKeeps(states: seq<Lock>, steps: seq<Step>, k: nat)
    requires IsRun(states, steps) && k < |states|
    ensures Inv(states[k])
    decreases k
  {
    if k == 0 {
      assert Holders(states[0]) == {} && Waiters(states[0]) == {};
    } else {
      RunKeeps(states, steps, k - 1);
      StepKeeps(states[k - 1], steps[k - 1]);
      assert states[k - 1 + 1] == Apply(states[k - 1], steps[k - 1]);
    }
  }

  // ---------------------------------------------------------------------
  // What the lock promises, in every state of every run.

  // At most one task is past its lock, it is the recorded owner, and `locks`
  // is its nesting depth; the semaphore has its unit exactly when nobody is
  // between an acquisition and the post; nobody waits for a free lock.
  lemma MutualExclusion(states: seq<Lock>, steps: seq<Step>, k: nat)
    requires IsRun(states, steps) && k < |states|
    ensures var s := states[k];
      && (forall a, b :: a in Holders(s) && b in Holders(s) ==> a == b)
      && (forall t :: t in s.tasks && s.tasks[t].depth > 0 ==> s.lockid == Some(t) && s.locks == s.tasks[t].depth)
      && (s.cnt == 1 <==> Holders(s) == {}) && (s.cnt == 0 <==> Holders(s) != {})
      && (Waiters(s) != {} ==> Holders(s) != {})
  {
    var s := states[k];
    RunKeeps(states, steps, k);
    forall a, b | a in Holders(s) && b in Holders(s) ensures a == b { OneHolder(s, a, b); }
    forall t | t in s.tasks && s.tasks[t].depth > 0 ensures s.lockid == Some(t) && s.locks == s.tasks[t].depth {
      assert t in Holders(s) && HolderOk(s, t);
    }
  }

  // The critical section lets a task in without the semaphore if and only if
  // the task already holds the lock, however old its query is: the owner
  // never blocks on its own lock and nobody else gets past it.
  lemma QueryNeverMisleads(states: seq<Lock>, steps: seq<Step>, k: nat)
    requires IsRun(states, steps) && k < |steps| && steps[k].Check?
    ensures var (t, s, s') := (steps[k].t, states[k], states[k + 1]);
      if s.tasks[t].depth > 0
      then s'.tasks[t] == Client(Outside, s.tasks[t].depth + 1) && s'.locks == s.locks + 1
      else s'.tasks[t] == Client(ToPend, 0) && s'.locks == s.locks
  {
    var t, s := steps[k].t, states[k];
    RunKeeps(states, steps, k);
    assert states[k + 1] == Apply(s, steps[k]);
    if s.tasks[t].depth > 0 {
      assert t in Holders(s) && HolderOk(s, t);
    } else {
      Stranger(s, t);
    }
  }

  // Step a completes a lock of t: past the semaphore, or as the owner already.
  predicate Locks(a: Step, s': Lock, t: Prio) {
    a == SetId(t) || (a == Check(t) && t in s'.tasks && s'.tasks[t].at.Outside?)
  }

  // The completed locks of t less its unlocks.
  function Balance(states: seq<Lock>, steps: seq<Step>, k: nat, t: Prio): int
    requires |states| == |steps| + 1 && k <= |steps|
  {
    if k == 0 then 0
    else
      Balance(states, steps, k - 1, t) + (if Locks(steps[k - 1], states[k], t) then 1 else 0)
      - (if steps[k - 1] == Unlock(t) then 1 else 0)
  }

  lemma {:induction false} DepthIsBalance(states: seq<Lock>, steps: seq<Step>, k: nat, t: Prio)
    requires IsRun(states, steps) && k < |states| && t in states[0].tasks
    ensures t in states[k].tasks && states[k].tasks[t].depth == Balance(states, steps, k, t)
    decreases k
  {
    if k > 0 {
      DepthIsBalance(states, steps, k - 1, t);
      RunKeeps(states, steps, k - 1);
      assert states[k - 1 + 1] == Apply(states[k - 1], steps[k - 1]);
      DepthStep(states[k - 1], steps[k - 1], t);
    }
  }

  lemma DepthStep(s: Lock, a: Step, t: Prio)
    requires Inv(s) && Enabled(s, a) && t in s.tasks
    ensures var s' := Apply(s, a);
      && t in s'.tasks
      && s'.tasks[t].depth ==
           s.tasks[t].depth + (if Locks(a, s', t) then 1 else 0) - (if a == Unlock(t) then 1 else 0)
  {
    if a == Unlock(t) { assert t in Holders(s) && HolderOk(s, t); }
  }

  // Nested locks: while a task has completed more locks than unlocks it holds
  // the lock, and each unlock but the one that makes them equal leaves it so;
  // that one goes on to the post.
  lemma ReleasedByLastUnlock(states: seq<Lock>, steps: seq<Step>, k: nat, t: Prio)
    requires IsRun(states, steps) && k < |steps| && t in states[0].tasks
    ensures Balance(states, steps, k, t) >= 0
    ensures Balance(states, steps, k, t) > 0 ==> t in Holders(states[k])
    ensures steps[k] == Unlock(t) ==>
              && Balance(states, steps, k, t) > 0 && t in states[k + 1].tasks
              && states[k + 1].tasks[t].at == if Balance(states, steps, k, t) == 1 then Posting else Outside
  {
    DepthIsBalance(states, steps, k, t);
    RunKeeps(states, steps, k);
    assert states[k + 1] == Apply(states[k], steps[k]);
    if steps[k] == Unlock(t) { assert t in Holders(states[k]) && HolderOk(states[k], t); }
  }

  // A post hands the lock to the best waiter if there is one, and no task
  // can slip in between.
  lemma PostHandsOver(states: seq<Lock>, steps: seq<Step>, k: nat)
    requires IsRun(states, steps) && k < |steps| && steps[k].Post? && Waiters(states[k]) != {}
    ensures Holders(states[k + 1]) == {Least(Waiters(states[k]))} && states[k + 1].cnt == 0
  {
    RunKeeps(states, steps, k);
    PostSteps(states[k], steps[k]);
    assert states[k + 1] == Apply(states[k], steps[k]);
  }

  // __malloc_unlock does not look at its caller.  Called by any task that is
  // not inside either function, it keeps the lock sound if and only if the
  // caller holds the lock or no lock is counted.
  lemma UnlockTrustsItsCaller(s: Lock, t: Prio)
    requires Inv(s) && t in s.tasks && s.tasks[t].at.Outside?
    ensures Inv(UnlockStep(s, t)) <==> s.tasks[t].depth > 0 || s.locks == 0
  {
    if s.tasks[t].depth > 0 {
      HolderSteps(s, Unlock(t));
    } else if s.locks > 0 {
      var s' := UnlockStep(s, t);
      assert t !in Holders(s) && s.cnt == 0 && Holders(s) != {};
      var h :| h in Holders(s);
      assert HolderOk(s, h) && h != t && s'.tasks[h] == s.tasks[h] && h in Holders(s');
      assert !HolderOk(s', h);
    }
  }

  // The failure is reachable.  Two tasks: task 1 locks the heap, task 2 calls
  // __malloc_unlock and then locks the heap too.
  function Two(a: Client, b: Client, cnt: nat, locks: nat, lockid: Option<Prio>): Lock {
    Lock(map[1 := a, 2 := b], cnt, locks, lockid)
  }

  const IDLE := Client(Outside, 0)

  function ExampleStates(): seq<Lock> {
    [Two(IDLE, IDLE, 1, 0, None),
     Two(Client(Queried(1), 0), IDLE, 1, 0, None),
     Two(Client(ToPend, 0), IDLE, 1, 0, None),
     Two(Client(Acquired, 0), IDLE, 0, 0, None),
     Two(Client(Counted, 0), IDLE, 0, 1, None),
     Two(Client(Outside, 1), IDLE, 0, 1, Some(1))]
  }

  function ExampleRun(): seq<Step> {
    [Query(1), Check(1), Pend(1), SetLocks(1), SetId(1)]
  }

  lemma ExampleLocked()
    ensures IsRun(ExampleStates(), ExampleRun()) && ExampleStates()[5].tasks[1] == Client(Outside, 1)
  {
    var ss, run := ExampleStates(), ExampleRun();
    ExampleAcquires();
    ExampleOwns();
    hide Enabled, Apply;
    assert ss[0 + 1] == Apply(ss[0], run[0]) && ss[1 + 1] == Apply(ss[1], run[1]) && ss[2 + 1] == Apply(ss[2], run[2]);
    assert ss[3 + 1] == Apply(ss[3], run[3]) && ss[4 + 1] == Apply(ss[4], run[4]);
  }

  lemma ExampleAcquires()
    ensures var ss, run := ExampleStates(), ExampleRun();
      && Enabled(ss[0], run[0]) && ss[1] == Apply(ss[0], run[0])
      && Enabled(ss[1], run[1]) && ss[2] == Apply(ss[1], run[1])
      && Enabled(ss[2], run[2]) && ss[3] == Apply(ss[2], run[2])
  {
    var ss := ExampleStates();
    assert Moved(ss[0], 1, Queried(1)) == ss[1];
    assert Moved(ss[1], 1, ToPend) == ss[2];
    assert Moved(ss[2], 1, Acquired).(cnt := 0) == ss[3];
  }

  lemma ExampleOwns()
    ensures var ss, run := ExampleStates(), ExampleRun();
      && Enabled(ss[3], run[3]) && ss[4] == Apply(ss[3], run[3])
      && Enabled(ss[4], run[4]) && ss[5] == Apply(ss[4], run[4])
  {
    var ss := ExampleStates();
    assert Moved(ss[3], 1, Counted).(locks := 1) == ss[4];
    assert ss[5].tasks == ss[4].tasks[1 := Client(Outside, 1)];
  }

  // A stranger's unlock, its post, and its own lock up to the semaphore.
  lemma StrangerGetsIn()
    ensures var u := UnlockStep(ExampleStates()[5], 2);
      && u == Two(Client(Outside, 1), Client(Posting, 0), 0, 0, None)
      && Enabled(u, Post(2)) && Apply(u, Post(2)) == Two(Client(Outside, 1), IDLE, 1, 0, None)
    ensures var v := Two(Client(Outside, 1), IDLE, 1, 0, None);
      var w := Two(Client(Outside, 1), Client(ToPend, 0), 1, 0, None);
      && Enabled(v, Query(2)) && Enabled(Apply(v, Query(2)), Check(2)) && Apply(Apply(v, Query(2)), Check(2)) == w
      && Enabled(w, Pend(2)) && Holders(Apply(w, Pend(2))) == {1, 2}
  {
    var u := UnlockStep(ExampleStates()[5], 2);
    assert u.tasks == map[1 := Client(Outside, 1), 2 := Client(Posting, 0)];
    assert Waiters(u) == {};
    var v, w := Two(Client(Outside, 1), IDLE, 1, 0, None), Two(Client(Outside, 1), Client(ToPend, 0), 1, 0, None);
    assert Moved(u, 2, Outside).(cnt := 1) == v;
    var q := Two(Client(Outside, 1), Client(Queried(1), 0), 1, 0, None);
    assert Moved(v, 2, Queried(1)) == q && Moved(q, 2, ToPend) == w;
    assert Moved(w, 2, Acquired).(cnt := 0) == Two(Client(Outside, 1), Client(Acquired, 0), 0, 0, None);
  }
}
