/** Nesting of interrupts and scheduler locks, over every run.

  OSIntNesting and OSLockNesting are 8-bit counters that stop at 255.  The
  functions are OSIntEnter, OSIntExit, OSSchedLock, OSSchedUnlock and OS_Sched
  on the counters and the running task; `best` is the highest ready priority.
  Class KernelCore is proved to compute them from the ready list.
*/
module SchedNesting {
  import opened KernelModel

  const NEST_MAX: nat := 255

  datatype Nest = Nest(running: bool, ints: nat, locks: nat, cur: Prio)

  // OS_Sched
  function Resched(n: Nest, best: Prio): Nest {
    if n.ints == 0 && n.locks == 0 then n.(cur := best) else n
  }

  // OSIntEnter
  function IntEntered(n: Nest): Nest {
    if n.running && n.ints < NEST_MAX then n.(ints := n.ints + 1) else n
  }

  // OSIntExit
  function IntExited(n: Nest, best: Prio): Nest {
    if n.running then Resched(n.(ints := if n.ints > 0 then n.ints - 1 else 0), best) else n
  }

  // OSSchedLock
  function SchedLocked(n: Nest): Nest {
    if n.running && n.ints == 0 && n.locks < NEST_MAX then n.(locks := n.locks + 1) else n
  }

  // The critical section of OSSchedUnlock, and whether it is to be followed by
  // OS_Sched.
  function LockDropped(n: Nest): (r: (Nest, bool)) {
    if n.running && n.locks > 0
    then (n.(locks := n.locks - 1), n.locks == 1 && n.ints == 0)
    else (n, false)
  }

  // OSSchedUnlock without an interruption in between.
  function SchedUnlocked(n: Nest, best: Prio): Nest {
    var (n', resched) := LockDropped(n);
    if resched then Resched(n', best) else n'
  }

  // ---------------------------------------------------------------------
  // Runs.

  // The counters beside the true nesting depths and the ready list.  A task
  // owes a rescheduling between the critical section of a service and the call
  // of OS_Sched that follows it; `late` says that a task called OSTimeTick and
  // nothing has rescheduled since.
  datatype State = State(n: Nest, isrDepth: nat, lockDepth: nat, ready: set<Prio>, owes: set<Prio>, late: bool)

  // One critical section each; interrupts may come between any two.
  datatype Step =
    | Enter                     // OSIntEnter
    | Exit                      // OSIntExit
    | Lock                      // OSSchedLock
    | Drop                      // OSSchedUnlock up to OS_Sched
    | Ready(ready: set<Prio>)   // a service up to OS_Sched
    | Sched                     // OS_Sched
    | TickReady(ready: set<Prio>) // OSTimeTick, from an interrupt or from a task

  // Entries and exits pair up; the scheduler is locked and unlocked by tasks,
  // in pairs; some task is always ready.
  predicate Enabled(s: State, a: Step) {
    match a
    case Enter => true
    case Exit => s.isrDepth > 0
    case Lock => s.isrDepth == 0
    case Drop => s.isrDepth == 0 && s.lockDepth > 0
    case Ready(ready) => ready != {}
    case Sched => s.isrDepth == 0 && s.n.cur in s.owes
    case TickReady(ready) => ready != {}
  }

  // A rescheduling point was reached with both counters at zero.
  function StillLate(s: State, n: Nest): bool {
    s.late && !(n.ints == 0 && n.locks == 0)
  }

  // In an interrupt the OS_Sched of a service does nothing, and is left out.
  ghost function Apply(s: State, a: Step): State
    requires Enabled(s, a) && s.ready != {}
  {
    match a
    case Enter => s.(n := IntEntered(s.n), isrDepth := s.isrDepth + 1)
    case Exit =>
      var n := IntExited(s.n, Least(s.ready));
      s.(n := n, isrDepth := s.isrDepth - 1, late := StillLate(s, n))
    case Lock => s.(n := SchedLocked(s.n), lockDepth := s.lockDepth + 1)
    case Drop =>
      var (n, resched) := LockDropped(s.n);
      s.(n := n, lockDepth := s.lockDepth - 1, owes := if resched then s.owes + {n.cur} else s.owes)
    case Ready(ready) => s.(ready := ready, owes := if s.isrDepth == 0 then s.owes + {s.n.cur} else s.owes)
    case Sched =>
      var n := Resched(s.n, Least(s.ready));
      s.(n := n, owes := s.owes - {s.n.cur}, late := StillLate(s, n))
    case TickReady(ready) => s.(ready := ready, late := s.late || s.isrDepth == 0)
  }

  // Multitasking has just started.
  ghost predicate Started(s: State) {
    s.n.running && s.n.ints == 0 && s.n.locks == 0 && s.isrDepth == 0 && s.lockDepth == 0 &&
    s.ready != {} && s.n.cur == Least(s.ready) && s.owes == {} && !s.late
  }

  // states[i + 1] follows states[i] by steps[i].
  ghost predicate IsRun(states: seq<State>, steps: seq<Step>) {
    && |states| == |steps| + 1 && Started(states[0])
    && forall i {:trigger steps[i]} :: 0 <= i < |steps| ==>
         states[i].ready != {} && Enabled(states[i], steps[i]) && states[i + 1] == Apply(states[i], steps[i])
  }

  predicate Shallow(s: State) {
    s.isrDepth <= 255 && s.lockDepth <= 255
  }

  predicate Counted(s: State) {
    s.n.ints == s.isrDepth && s.n.locks == s.lockDepth
  }

  // The scheduler is behind only inside interrupts and locks, between a
  // service and its OS_Sched, and after OSTimeTick from a task: otherwise the
  // highest ready task is the running one.
  ghost predicate BestRuns(s: State)
    requires s.ready != {}
  {
    s.isrDepth == 0 && s.lockDepth == 0 && s.n.cur !in s.owes && !s.late ==> s.n.cur == Least(s.ready)
  }

  lemma StepCounts(s: State, a: Step)
    requires s.ready != {} && Enabled(s, a) && s.n.running && Counted(s) && Shallow(s) && BestRuns(s)
    ensures var s' := Apply(s, a);
      && s'.n.running && s'.ready != {} && (Counted(s') <==> Shallow(s'))
      && (Shallow(s') ==> BestRuns(s'))
  {
  }

  ghost predicate AllShallow(states: seq<State>, k: nat) {
    forall i :: 0 <= i < |states| && i < k ==> Shallow(states[i])
  }

  ghost predicate AllCounted(states: seq<State>, k: nat) {
    forall i :: 0 <= i < |states| && i < k ==> Counted(states[i])
  }

  // The counters are the true depths in the first k states of a run if and
  // only if no depth among them exceeds 255, and then the highest ready task
  // runs whenever both depths are zero and the running task owes nothing.
  lemma {:induction false} CountersAreDepths(states: seq<State>, steps: seq<Step>, k: nat)
    requires IsRun(states, steps) && k <= |states|
    ensures AllCounted(states, k) <==> AllShallow(states, k)
    ensures AllShallow(states, k) ==>
              forall i :: 0 <= i < k ==> states[i].ready != {} && states[i].n.running && BestRuns(states[i])
    decreases k
  {
    if k > 1 {
      CountersAreDepths(states, steps, k - 1);
      var s, a := states[k - 2], steps[k - 2];
      assert states[k - 2 + 1] == Apply(s, a);
      if AllShallow(states, k - 1) { StepCounts(s, a); }
    }
  }

  // No switch while a counter is nonzero, and only by OS_Sched and OSIntExit;
  // these leave the highest ready task running if they leave both at zero.
  lemma SwitchOnlyAtZero(s: State, a: Step)
    requires s.ready != {} && Enabled(s, a) && s.n.running
    ensures var s' := Apply(s, a);
      && (s'.n.cur != s.n.cur ==> (a.Sched? || a.Exit?) && s'.n.ints == 0 && s'.n.locks == 0)
      && ((a.Sched? || a.Exit?) && s'.n.ints == 0 && s'.n.locks == 0 ==> s'.n.cur == Least(s'.ready) && !s'.late)
      && (a.Drop? && s.n.locks > 0 && s'.n.ints == 0 && s'.n.locks == 0 ==> s'.n.cur in s'.owes)
  {
  }

  // The scheduler can be behind in between: after the critical section of a
  // service, and after OSTimeTick from a task, the running task is the highest
  // ready one if and only if the new ready list makes it so; the OS_Sched of
  // the service, or any interrupt, puts it right.
  lemma BehindInBetween(s: State, ready: set<Prio>)
    requires Started(s) && ready != {}
    ensures var r := Apply(s, Ready(ready)); var t := Apply(s, TickReady(ready));
      && r.isrDepth == r.lockDepth == 0 && (r.n.cur == Least(r.ready) <==> s.n.cur == Least(ready))
      && t.isrDepth == t.lockDepth == 0 && t.owes == {} && (t.n.cur == Least(t.ready) <==> s.n.cur == Least(ready))
      && Enabled(r, Sched) && Apply(r, Sched).n.cur == Least(ready) && Apply(r, Sched).owes == {}
      && Apply(Apply(r, Enter), Exit).n.cur == Least(ready) && Apply(Apply(t, Enter), Exit).n.cur == Least(ready)
  {
  }

  // While an interrupt is being serviced, or a task holds the scheduler, the
  // running task stays the same whatever becomes ready.
  lemma {:induction false} SameTaskInside(states: seq<State>, steps: seq<Step>, first: nat, last: nat)
    requires IsRun(states, steps) && first <= last < |states| && AllShallow(states, last + 1)
    requires forall i :: first <= i <= last ==> states[i].isrDepth > 0 || states[i].lockDepth > 0
    ensures states[last].n.cur == states[first].n.cur
    decreases last
  {
    if first < last {
      SameTaskInside(states, steps, first, last - 1);
      CountersAreDepths(states, steps, last + 1);
      assert Counted(states[last]);
      assert states[last - 1 + 1] == Apply(states[last - 1], steps[last - 1]);
      SwitchOnlyAtZero(states[last - 1], steps[last - 1]);
    }
  }

  // ---------------------------------------------------------------------
  // Beyond the assumptions.

  // Nested n deeper and then n back.
  ghost function Entered(s: State, n: nat): State
    requires s.ready != {}
    ensures Entered(s, n).ready == s.ready && Entered(s, n).isrDepth == s.isrDepth + n
  {
    if n == 0 then s else Apply(Entered(s, n - 1), Enter)
  }

  ghost function Exited(s: State, n: nat): State
    requires s.ready != {} && s.isrDepth >= n
    ensures Exited(s, n).ready == s.ready && Exited(s, n).isrDepth == s.isrDepth - n
  {
    if n == 0 then s else Apply(Exited(s, n - 1), Exit)
  }

  // The counter saturates: d entries from depth 0 count min(d, 255).
  lemma {:induction false} EntriesCount(s: State, d: nat)
    requires Started(s)
    ensures Entered(s, d) == s.(n := s.n.(ints := if d < NEST_MAX then d else NEST_MAX), isrDepth := d)
  {
    if d > 0 { EntriesCount(s, d - 1); }
  }

  lemma {:induction false} ExitsCount(s: State, e: nat)
    requires s.ready != {} && s.n.running && e < s.n.ints && s.n.ints <= s.isrDepth
    ensures Exited(s, e) == s.(n := s.n.(ints := s.n.ints - e), isrDepth := s.isrDepth - e)
  {
    if e > 0 { ExitsCount(s, e - 1); }
  }

  // Beyond 255 levels the kernel reschedules inside an interrupt: after d
  // entries, the 255th exit switches with d - 255 levels still open.
  lemma DeepNestingReschedules(s: State, d: nat, ready: set<Prio>)
    requires Started(s) && ready != {} && d > 255
    ensures var inside := Apply(Entered(s, d), Ready(ready));
      var out := Exited(inside, 255);
      out.isrDepth == d - 255 > 0 && out.n.cur == Least(ready)
  {
    EntriesCount(s, d);
    var inside := Apply(Entered(s, d), Ready(ready));
    ExitsCount(inside, NEST_MAX - 1);
    assert Exited(inside, NEST_MAX) == Apply(Exited(inside, NEST_MAX - 1), Exit);
  }

  // OSSchedLock refuses to count inside an interrupt but OSSchedUnlock counts
  // everywhere, so a pair called by an interrupt takes away the lock of the
  // interrupted task: it does so exactly when that task holds a lock.
  lemma IsrPairDropsLock(n: Nest, best: Prio)
    requires n.running && n.ints > 0
    ensures SchedUnlocked(SchedLocked(n), best) == n.(locks := if n.locks > 0 then n.locks - 1 else 0)
    ensures SchedUnlocked(SchedLocked(n), best) == n <==> n.locks == 0
  {
  }

  // Before multitasking starts none of the four calls counts or switches; nor
  // does an unlock without a lock; an exit without an entry switches like the
  // last exit does.
  lemma UnmatchedCalls(n: Nest, best: Prio)
    ensures !n.running ==>
              IntEntered(n) == n && IntExited(n, best) == n && SchedLocked(n) == n && SchedUnlocked(n, best) == n
    ensures n.locks == 0 ==> SchedUnlocked(n, best) == n
    ensures n.running && n.ints == 0 ==>
              IntExited(n, best) == if n.locks == 0 then n.(cur := best) else n
  {
  }
}
