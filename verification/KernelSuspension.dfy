/** A multi-event wait and OSTaskSuspend.

  OSTaskResume readies a task only if no status bit is left, and a task that
  OS_EventTaskRdy released from OSEventPendMulti still carries OS_STAT_MULTI.
  So a released task runs again if and only if nobody suspends it before it
  does; otherwise no later call, OSTaskResume included, makes it ready.
*/
module KernelSuspension {
  import opened Options
  import opened KernelModel
  import opened KernelSafety
  import opened KernelRuns

  ghost predicate MultiReleased(s: Sys, p: Prio) {
    p in s.k.tasks && p in s.calls && s.calls[p].Inside? && s.calls[p].multi && s.calls[p].done.Some?
  }

  // Until it wakes, a released task leaves the ready list by suspension only
  // and never comes back.
  lemma ReleasedStep(s: Sys, a: Step, s': Sys, p: Prio)
    requires Inv(s) && Next(s, a, s') && MultiReleased(s, p) && a != Wake(p)
    ensures MultiReleased(s', p)
    ensures p in s'.k.ready <==> p in s.k.ready && a != DoSuspend(p)
  {
    assert TaskOk(s.k, p, s.calls[p]);
    hide ListsOk, NoIdleUnit, Deliver;
    if HandedTo(s, a, p).Some? { Served(s, a, p); }
    if !Touches(s, a, p) {
      Untouched(s, a, p);
    } else {
      match a
      case DoTick(_) =>
      case DoDelayResume(_) =>
      case DoSuspend(_) =>
      case DoResume(_) => assert s.k.tasks[p].stat & !STAT_SUSPEND != 0;
    }
  }

  predicate SuspendedIn(run: seq<Step>, i: nat, j: nat, p: Prio)
    requires i <= j <= |run|
  {
    exists m :: i <= m < j && run[m] == DoSuspend(p)
  }

  // The exact condition for a released task to be able to run.
  lemma {:induction false} ReleasedRunsIffNotSuspended(ss: seq<Sys>, run: seq<Step>, i: nat, j: nat, p: Prio)
    requires IsTrace(ss, run) && i <= j <= |run| && MultiReleased(ss[i], p)
    requires forall m :: i <= m < j ==> run[m] != Wake(p)
    ensures MultiReleased(ss[j], p)
    ensures p in ss[j].k.ready <==> p in ss[i].k.ready && !SuspendedIn(run, i, j, p)
    decreases j
  {
    hide Inv, Next, MultiReleased;
    if i < j {
      ReleasedRunsIffNotSuspended(ss, run, i, j - 1, p);
      TraceKeeps(ss, run, j - 1);
      assert Next(ss[j - 1], run[j - 1], ss[j]);
      ReleasedStep(ss[j - 1], run[j - 1], ss[j], p);
      assert SuspendedIn(run, i, j, p) <==> SuspendedIn(run, i, j - 1, p) || run[j - 1] == DoSuspend(p);
    }
  }

  // A waiting task that is ready is not suspended.
  lemma ReadyNotSuspended(s: Sys, p: Prio)
    requires Inv(s) && p in s.k.tasks && s.calls[p].Inside? && s.calls[p].done.None? && p in s.k.ready
    ensures !Suspended(s.k.tasks[p])
  {
    assert TaskOk(s.k, p, s.calls[p]);
  }

  lemma DeliveryReadies(s: Sys, e: EventId, msg: Msg, st: PendStat)
    requires Inv(s) && e < |s.k.events| && s.k.events[e].waiters != {}
    ensures s.k.events[e].waiters <= s.k.tasks.Keys
    ensures var p := Least(s.k.events[e].waiters);
      p in Deliver(s.k, e, msg, TypeBit(s.k.events[e].kind), st).ready <==> !Suspended(s.k.tasks[p])
  {
    InvGivesBounds(s);
    var p := ChosenIsWaiting(s, e);
    DeliverShrinks(s.k, e, msg, TypeBit(s.k.events[e].kind), st);
    SuspendKept(s.k.tasks[p].stat, s.k.events[e].kind);
    if p in s.k.ready { ReadyNotSuspended(s, p); }
  }

  // The release itself readies the task if and only if it is not suspended at
  // that moment, whether it is still blocked or its wait has already timed out.
  lemma ReleaseReadies(s: Sys, a: Step, s': Sys, p: Prio)
    requires Inv(s) && Next(s, a, s') && HandedTo(s, a, p).Some?
    ensures p in s.k.tasks && p in s.calls && s.calls[p].Inside?
    ensures p in s'.k.ready <==> !Suspended(s.k.tasks[p])
    ensures s.calls[p].multi ==> MultiReleased(s', p)
  {
    Served(s, a, p);
    StepKeeps(s, a);
    ReleasedKernel(s, a, p);
    var d := HandedTo(s, a, p).value;
    DeliveryReadies(s, d.e, d.msg, d.st);
    assert p in s'.calls && s'.calls.Keys == s'.k.tasks.Keys;
    hide Deliver, Inv, Suspended, Apply;
  }

  lemma ReleasedKernel(s: Sys, a: Step, p: Prio)
    requires Inv(s) && Enabled(s, a) && HandedTo(s, a, p).Some?
    ensures var d := HandedTo(s, a, p).value;
      && d.e < |s.k.events| && s.k.events[d.e].waiters != {} && s.k.events[d.e].waiters <= s.k.tasks.Keys
      && p == Least(s.k.events[d.e].waiters)
      && Apply(s, a).k == Deliver(s.k, d.e, d.msg, TypeBit(s.k.events[d.e].kind), d.st)
  {
    InvGivesBounds(s);
    hide Inv, Deliver;
  }

  lemma SuspendKept(stat: bv8, kind: Kind)
    ensures (stat & !TypeBit(kind)) & STAT_SUSPEND == stat & STAT_SUSPEND
  {
  }

  // So from its release at step h to its wake-up, a task that waited on
  // several events is ready if and only if it was not suspended at step h and
  // nobody suspends it afterwards.
  lemma ReleaseDecides(ss: seq<Sys>, run: seq<Step>, h: nat, j: nat, p: Prio)
    requires IsTrace(ss, run) && h < j <= |run| && HandedTo(ss[h], run[h], p).Some?
    requires p in ss[h].calls && ss[h].calls[p].Inside? && ss[h].calls[p].multi
    requires forall m :: h < m < j ==> run[m] != Wake(p)
    ensures p in ss[h].k.tasks
    ensures p in ss[j].k.ready <==> !Suspended(ss[h].k.tasks[p]) && !SuspendedIn(run, h + 1, j, p)
  {
    TraceKeeps(ss, run, h);
    assert Next(ss[h], run[h], ss[h + 1]);
    ReleaseReadies(ss[h], run[h], ss[h + 1], p);
    hide Inv, Next, HandedTo, Suspended, MultiReleased;
    ReleasedRunsIffNotSuspended(ss, run, h + 1, j, p);
  }

  // A wait on several events that has timed out, with nothing handed over yet.
  ghost predicate MultiTimedOut(s: Sys, p: Prio) {
    p in s.k.tasks && p in s.calls && s.calls[p].Inside? && s.calls[p].multi && s.calls[p].done.None?
    && Expired(s.k, p, s.k.tasks[p], s.calls[p])
  }

  lemma TimedOutStep(s: Sys, a: Step, s': Sys, p: Prio)
    requires Inv(s) && Next(s, a, s') && MultiTimedOut(s, p) && a != Wake(p) && HandedTo(s, a, p).None?
    ensures MultiTimedOut(s', p)
    ensures p in s'.k.ready <==> p in s.k.ready && a != DoSuspend(p)
  {
    assert TaskOk(s.k, p, s.calls[p]);
    if !Touches(s, a, p) {
      Untouched(s, a, p);
    } else {
      match a
      case DoTick(_) =>
      case DoDelayResume(_) =>
      case DoSuspend(_) =>
      case DoResume(_) => assert s.k.tasks[p].stat & !STAT_SUSPEND != 0;
    }
  }

  // The same for a wait that timed out: until a late post or abort reaches it
  // (see ReleaseDecides), the task is ready if and only if it was and nobody
  // suspends it; OSTaskResume does not bring it back.
  lemma {:induction false} TimedOutRunsIffNotSuspended(ss: seq<Sys>, run: seq<Step>, i: nat, j: nat, p: Prio)
    requires IsTrace(ss, run) && i <= j <= |run| && MultiTimedOut(ss[i], p)
    requires forall m :: i <= m < j ==> run[m] != Wake(p) && HandedTo(ss[m], run[m], p).None?
    ensures MultiTimedOut(ss[j], p)
    ensures p in ss[j].k.ready <==> p in ss[i].k.ready && !SuspendedIn(run, i, j, p)
    decreases j
  {
    hide Inv, Next, HandedTo, MultiTimedOut;
    if i < j {
      TimedOutRunsIffNotSuspended(ss, run, i, j - 1, p);
      TraceKeeps(ss, run, j - 1);
      assert Next(ss[j - 1], run[j - 1], ss[j]);
      TimedOutStep(ss[j - 1], run[j - 1], ss[j], p);
      assert SuspendedIn(run, i, j, p) <==> SuspendedIn(run, i, j - 1, p) || run[j - 1] == DoSuspend(p);
    }
  }

  // Once lost, lost in every continuation.
  lemma {:induction false} LostForever(ss: seq<Sys>, run: seq<Step>, n: nat, p: Prio)
    requires IsTrace(ss, run) && n < |ss| && Lost(ss[0], p)
    ensures Lost(ss[n], p)
  {
    if n > 0 {
      LostForever(ss, run, n - 1, p);
      TraceKeeps(ss, run, n - 1);
      assert Next(ss[n - 1], run[n - 1], ss[n]);
      LostStays(ss[n - 1], run[n - 1], p);
    }
  }

  // A run that loses a task: wait on a semaphore and a mailbox, be suspended,
  // be posted to, be resumed.  Task 5 and its events after each step:
  function Example(t: Task, ready: set<Prio>, waiters: set<Prio>, c: Call): Sys {
    Sys(Kernel(20, map[20 := NEW_TASK, 5 := t], ready,
               [Event(Sem, [], 65535, waiters), Event(Mbox, [], 1, waiters)]),
        map[20 := Outside, 5 := c])
  }

  const TASK_BLOCKED := Task(0, 0x83, PendOk, None, Some([0, 1]), NULL_MSG)
  const TASK_POSTED := Task(0, 0x8A, PendOk, Some(0), Some([0, 1]), NULL_MSG)
  const CALL_DONE := Inside([0, 1], true, Some(Delivery(0, NULL_MSG, PendOk)))

  function ExampleStates(): seq<Sys> {
    [Sys(Kernel(20, map[20 := NEW_TASK], {20}, [Event(Sem, [], 65535, {}), Event(Mbox, [], 1, {})]),
         map[20 := Outside]),
     Example(NEW_TASK, {20, 5}, {}, Outside),
     Example(TASK_BLOCKED, {20}, {5}, Inside([0, 1], true, None)),
     Example(TASK_BLOCKED.(stat := 0x8B), {20}, {5}, Inside([0, 1], true, None)),
     Example(TASK_POSTED, {20}, {}, CALL_DONE),
     Example(TASK_POSTED.(stat := 0x82), {20}, {}, CALL_DONE)]
  }

  function ExampleRun(): seq<Step> {
    [DoCreate(5), PendMany(5, [0, 1], 0), DoSuspend(5), DoPost(0, NULL_MSG), DoResume(5)]
  }

  lemma ExamplePolls(events: seq<Event>)
    requires |events| == 2 && events[0].kind == Sem && events[1].kind == Mbox
    requires events[0].stored == [] && events[1].stored == []
    ensures Poll(events, [0, 1]) == Polled(events, [], 0x03)
  {
    assert [0, 1][..1] == [0] && [0][..0] == [];
    assert Poll(events, [0]) == Polled(events, [], STAT_SEM);
  }

  lemma ExampleWaits(k: Kernel, k': Kernel)
    requires k == Example(NEW_TASK, {20, 5}, {}, Outside).k
    requires k' == Example(TASK_BLOCKED, {20}, {5}, Outside).k
    ensures BlockMany(k, 5, [0, 1], 0x03, 0) == k'
  {
    var b := BlockMany(k, 5, [0, 1], 0x03, 0);
    assert forall e :: 0 <= e < 2 ==> b.events[e].waiters == {5};
    assert b.tasks == k'.tasks && b.events == k'.events && b.ready == k'.ready;
  }

  lemma ExampleBlocks()
    ensures Next(Example(NEW_TASK, {20, 5}, {}, Outside), PendMany(5, [0, 1], 0),
                 Example(TASK_BLOCKED, {20}, {5}, Inside([0, 1], true, None)))
  {
    hide Inv, Poll, BlockMany;
    var s := Example(NEW_TASK, {20, 5}, {}, Outside);
    ExamplePolls(s.k.events);
    ExampleWaits(s.k, Example(TASK_BLOCKED, {20}, {5}, Outside).k);
  }

  lemma ExamplePosts()
    ensures Next(Example(TASK_BLOCKED.(stat := 0x8B), {20}, {5}, Inside([0, 1], true, None)), DoPost(0, NULL_MSG),
                 Example(TASK_POSTED, {20}, {}, CALL_DONE))
  {
    var s := Example(TASK_BLOCKED.(stat := 0x8B), {20}, {5}, Inside([0, 1], true, None));
    var s' := Example(TASK_POSTED, {20}, {}, CALL_DONE);
    ExampleDelivers(s.k, s'.k);
    ExampleHands(s, s');
    assert Enabled(s, DoPost(0, NULL_MSG));
    hide Example, Post;
    if Inv(s) { PostApplied(s, 0, NULL_MSG); }
  }

  lemma ExampleHands(s: Sys, s': Sys)
    requires s == Example(TASK_BLOCKED.(stat := 0x8B), {20}, {5}, Inside([0, 1], true, None))
    requires s' == Example(TASK_POSTED, {20}, {}, CALL_DONE)
    ensures s.k.events[0].waiters == {5} && HandOver(s, s'.k, 0, NULL_MSG, PendOk) == s'
  {
    assert Least(s.k.events[0].waiters) == 5;
  }

  lemma PostApplied(s: Sys, e: EventId, msg: Msg)
    requires Inv(s) && Enabled(s, DoPost(e, msg))
    ensures s.k.events[e].waiters <= s.k.tasks.Keys
    ensures Apply(s, DoPost(e, msg)) == HandOver(s, Post(s.k, e, msg).0, e, msg, PendOk)
  {
    InvGivesBounds(s);
  }

  lemma ExampleDelivers(k: Kernel, k': Kernel)
    requires k == Example(TASK_BLOCKED.(stat := 0x8B), {20}, {5}, Outside).k
    requires k' == Example(TASK_POSTED, {20}, {}, Outside).k
    ensures Post(k, 0, NULL_MSG).0 == k'
  {
    assert Least(k.events[0].waiters) == 5;
    var d := Deliver(k, 0, NULL_MSG, STAT_SEM, PendOk);
    assert d.tasks == k'.tasks && d.ready == k'.ready;
    assert forall e :: 0 <= e < 2 ==> d.events[e].waiters == {};
    assert d.events == k'.events;
  }

  lemma ExampleSuspends()
    ensures Next(Example(TASK_BLOCKED, {20}, {5}, Inside([0, 1], true, None)), DoSuspend(5),
                 Example(TASK_BLOCKED.(stat := 0x8B), {20}, {5}, Inside([0, 1], true, None)))
  {
    var s := Example(TASK_BLOCKED, {20}, {5}, Inside([0, 1], true, None));
    assert Suspend(s.k, 5) == Example(TASK_BLOCKED.(stat := 0x8B), {20}, {5}, Outside).k;
  }

  lemma ExampleResumes()
    ensures Next(Example(TASK_POSTED, {20}, {}, CALL_DONE), DoResume(5),
                 Example(TASK_POSTED.(stat := 0x82), {20}, {}, CALL_DONE))
  {
    var s := Example(TASK_POSTED, {20}, {}, CALL_DONE);
    assert Resume(s.k, 5) == Example(TASK_POSTED.(stat := 0x82), {20}, {}, Outside).k;
  }

  lemma ExampleCreates()
    ensures Init(ExampleStates()[0])
    ensures Next(ExampleStates()[0], DoCreate(5), Example(NEW_TASK, {20, 5}, {}, Outside))
  {
    var s := ExampleStates()[0];
    assert Create(s.k, 5) == Example(NEW_TASK, {20, 5}, {}, Outside).k;
  }

  lemma ExampleIsTrace(ss: seq<Sys>, run: seq<Step>)
    requires ss == ExampleStates() && run == ExampleRun()
    ensures Init(ss[0]) && IsTrace(ss, run)
  {
    hide Next, Inv, Init, Example;
    ExampleCreates();
    InitKeeps(ss[0]);
    ExampleBlocks();
    ExampleSuspends();
    ExamplePosts();
    ExampleResumes();
    assert Next(ss[0], run[0], ss[1]) && Next(ss[1], run[1], ss[2]) && Next(ss[2], run[2], ss[3]);
    assert Next(ss[3], run[3], ss[4]) && Next(ss[4], run[4], ss[5]);
  }

  lemma LostExample(ss: seq<Sys>, run: seq<Step>)
    requires ss == ExampleStates() && run == ExampleRun()
    ensures Init(ss[0]) && IsTrace(ss, run) && Lost(ss[5], 5) && !Suspended(ss[5].k.tasks[5])
  {
    ExampleIsTrace(ss, run);
    hide IsTrace, Init;
    assert ss[5] == Example(TASK_POSTED.(stat := 0x82), {20}, {}, CALL_DONE);
  }
}
