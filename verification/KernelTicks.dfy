/** Calls of OSTimeTick in runs.

  A run shows a tick as one visit to each task, with other steps in between.
  Here the visits are put together into calls, some of which process nothing
  because the viewer tool steps the kernel.
*/
module KernelTicks {
  import opened KernelModel
  import opened KernelSafety
  import opened KernelRuns
  import KernelServices

  // ---------------------------------------------------------------------
  // A call that nothing interrupts.

  function Walk(ps: seq<Prio>): seq<Step> {
    seq(|ps|, i requires 0 <= i < |ps| => DoTick(ps[i]))
  }

  function WalkStates(s: Sys, ps: seq<Prio>): seq<Sys>
    requires forall i :: 0 <= i < |ps| ==> ps[i] in s.k.tasks
  {
    seq(|ps| + 1, i requires 0 <= i <= |ps| => s.(k := TickInOrder(s.k, ps[..i])))
  }

  lemma {:induction false} TickKeepsIdle(k: Kernel, ps: seq<Prio>)
    requires forall i :: 0 <= i < |ps| ==> ps[i] in k.tasks
    ensures TickInOrder(k, ps).idle == k.idle
  {
    if ps != [] { TickKeepsIdle(k, ps[..|ps| - 1]); }
  }

  lemma NothingInOrder(k: Kernel)
    ensures TickInOrder(k, []) == k
  {
  }

  lemma OneMoreInOrder(k: Kernel, ps: seq<Prio>, n: nat)
    requires n < |ps| && forall i :: 0 <= i < |ps| ==> ps[i] in k.tasks
    ensures TickInOrder(k, ps[..n + 1]) == TickOne(TickInOrder(k, ps[..n]), ps[n])
  {
    assert ps[..n + 1][..n] == ps[..n] && ps[..n + 1][n] == ps[n];
  }

  lemma VisitIsStep(s: Sys, k: Kernel, p: Prio)
    requires p in k.tasks && p != k.idle
    ensures Next(s.(k := k), DoTick(p), s.(k := TickOne(k, p)))
  {
    hide Inv;
  }

  // Visiting every task but the idle one is a run, and does what Tick says.
  lemma TickIsRun(s: Sys, ps: seq<Prio>)
    requires Inv(s) && NoRepeats(ps) && forall p :: p in ps <==> p in s.k.tasks && p != s.k.idle
    ensures forall i :: 0 <= i < |ps| ==> ps[i] in s.k.tasks
    ensures IsTrace(WalkStates(s, ps), Walk(ps)) && WalkStates(s, ps)[|ps|] == s.(k := Tick(s.k))
  {
    hide Inv, TickOne, Next, TickInOrder;
    assert forall i :: 0 <= i < |ps| ==> ps[i] in ps;
    var ss, run := WalkStates(s, ps), Walk(ps);
    assert ps[..0] == [] && ps[..|ps|] == ps;
    TickVisitsAll(s.k, ps);
    NothingInOrder(s.k);
    forall n | 0 <= n < |run| ensures Next(ss[n], run[n], ss[n + 1]) {
      OneMoreInOrder(s.k, ps, n);
      TickKeepsIdle(s.k, ps[..n]);
      VisitIsStep(s, TickInOrder(s.k, ps[..n]), ps[n]);
    }
  }

  // ---------------------------------------------------------------------
  // Calls among other steps.

  // The tasks OSTimeTick came to in run[i..j], in order.
  function VisitedIn(run: seq<Step>, i: nat, j: nat): seq<Prio>
    requires i <= j <= |run|
    decreases j
  {
    if i == j then []
    else if run[j - 1].DoTick? then VisitedIn(run, i, j - 1) + [run[j - 1].p]
    else VisitedIn(run, i, j - 1)
  }

  // The run from cuts[0] up to cuts[|steps|] contains one call of OSTimeTick in
  // each stretch between two cuts; steps[m] is the state the m-th call found.  A
  // call that processes its tick visits no task twice, and every task that
  // exists when the stretch begins, except the idle task.
  ghost predicate CallsIn(ss: seq<Sys>, run: seq<Step>, cuts: seq<nat>, steps: seq<TickStep>) {
    && |ss| == |run| + 1 && |cuts| == |steps| + 1 && cuts[0] <= |run|
    && forall m {:trigger steps[m]} :: 0 <= m < |steps| ==>
         && cuts[m] <= cuts[m + 1] <= |run|
         && CallIn(ss[cuts[m]].k, VisitedIn(run, cuts[m], cuts[m + 1]), steps[m])
  }

  ghost predicate CallIn(k: Kernel, ps: seq<Prio>, step: TickStep) {
    if Processes(step) then NoRepeats(ps) && forall p :: p in k.tasks && p != k.idle ==> p in ps
    else ps == []
  }

  function Processed(steps: seq<TickStep>): nat {
    if steps == [] then 0
    else Processed(steps[..|steps| - 1]) + if Processes(steps[|steps| - 1]) then 1 else 0
  }

  lemma OneMoreVisit(ps: seq<Prio>, q: Prio, p: Prio)
    ensures multiset(ps + [q])[p] == multiset(ps)[p] + if q == p then 1 else 0
  {
    var m := multiset([q]);
    assert m[p] == if q == p then 1 else 0;
  }

  lemma {:induction false} VisitsCounted(run: seq<Step>, i: nat, j: nat, p: Prio)
    requires i <= j <= |run|
    ensures Ticks(run, i, j, p) == multiset(VisitedIn(run, i, j))[p]
    decreases j
  {
    if i < j {
      VisitsCounted(run, i, j - 1, p);
      match run[j - 1]
      case DoTick(q) => OneMoreVisit(VisitedIn(run, i, j - 1), q, p);
      case _ =>
    }
  }

  lemma {:induction false} OnceEach(ps: seq<Prio>, p: Prio)
    requires NoRepeats(ps)
    ensures multiset(ps)[p] == if p in ps then 1 else 0
  {
    if ps != [] {
      var init, last := ps[..|ps| - 1], ps[|ps| - 1];
      OnceEach(init, p);
      assert ps == init + [last];
      assert last !in init;
    }
  }

  lemma VisitsInCall(k: Kernel, run: seq<Step>, i: nat, j: nat, step: TickStep, p: Prio)
    requires i <= j <= |run| && CallIn(k, VisitedIn(run, i, j), step) && p in k.tasks && p != k.idle
    ensures Ticks(run, i, j, p) == if Processes(step) then 1 else 0
  {
    VisitsCounted(run, i, j, p);
    hide VisitedIn;
    if Processes(step) { OnceEach(VisitedIn(run, i, j), p); }
  }

  lemma {:induction false} TicksSplit(run: seq<Step>, i: nat, j: nat, l: nat, p: Prio)
    requires i <= j <= l <= |run|
    ensures Ticks(run, i, l, p) == Ticks(run, i, j, p) + Ticks(run, j, l, p)
    decreases l
  {
    if j < l { TicksSplit(run, i, j, l - 1, p); }
  }

  // No step removes a task or changes which one is idle.
  lemma TasksStay(s: Sys, a: Step, s': Sys)
    requires Inv(s) && Next(s, a, s')
    ensures s.k.tasks.Keys <= s'.k.tasks.Keys && s'.k.idle == s.k.idle
  {
    InvGivesBounds(s);
    hide Inv, Deliver, Poll;
    match a
    case DoPost(e, msg) =>
      if s.k.events[e].waiters != {} { DeliverShrinks(s.k, e, msg, TypeBit(s.k.events[e].kind), PendOk); }
    case DoAbort(e) =>
      if s.k.events[e].waiters != {} { DeliverShrinks(s.k, e, NULL_MSG, TypeBit(s.k.events[e].kind), PendAbort); }
    case _ =>
  }

  lemma {:induction false} AllTasksStay(ss: seq<Sys>, run: seq<Step>, i: nat, n: nat)
    requires IsTrace(ss, run) && i <= n < |ss|
    ensures ss[i].k.tasks.Keys <= ss[n].k.tasks.Keys && ss[n].k.idle == ss[i].k.idle
    decreases n
  {
    hide Inv, Next;
    if i < n {
      AllTasksStay(ss, run, i, n - 1);
      TraceKeeps(ss, run, n - 1);
      assert Next(ss[n - 1], run[n - 1], ss[n]);
      TasksStay(ss[n - 1], run[n - 1], ss[n]);
    }
  }

  lemma Cuts(ss: seq<Sys>, run: seq<Step>, cuts: seq<nat>, steps: seq<TickStep>)
    requires CallsIn(ss, run, cuts, steps)
    ensures |ss| == |run| + 1 && |cuts| == |steps| + 1 && cuts[0] <= |run|
  {
  }

  lemma CallOf(ss: seq<Sys>, run: seq<Step>, cuts: seq<nat>, steps: seq<TickStep>, m: nat)
    requires CallsIn(ss, run, cuts, steps) && m < |steps|
    ensures |ss| == |run| + 1 && m + 1 < |cuts| && cuts[m] <= cuts[m + 1] <= |run|
    ensures CallIn(ss[cuts[m]].k, VisitedIn(run, cuts[m], cuts[m + 1]), steps[m])
  {
    var step := steps[m];
  }

  // OSTimeTick comes to a task once in every call that processes its tick.
  lemma {:induction false} VisitsAreCalls(ss: seq<Sys>, run: seq<Step>, cuts: seq<nat>, steps: seq<TickStep>, n: nat,
                                          p: Prio)
    requires IsTrace(ss, run) && CallsIn(ss, run, cuts, steps) && n <= |steps|
    requires p in ss[cuts[0]].k.tasks && p != ss[cuts[0]].k.idle
    ensures cuts[0] <= cuts[n] <= |run| && Ticks(run, cuts[0], cuts[n], p) == Processed(steps[..n])
    decreases n
  {
    hide IsTrace, CallsIn, CallIn, VisitedIn, Processes;
    Cuts(ss, run, cuts, steps);
    if n > 0 {
      var m := n - 1;
      var i, j := cuts[m], cuts[m + 1];
      VisitsAreCalls(ss, run, cuts, steps, m, p);
      CallOf(ss, run, cuts, steps, m);
      AllTasksStay(ss, run, cuts[0], i);
      VisitsInCall(ss[i].k, run, i, j, steps[m], p);
      TicksSplit(run, cuts[0], i, j, p);
      assert steps[..n][..m] == steps[..m] && steps[..n][m] == steps[m];
    }
  }

  // A delay of n expires on exactly the n-th call that processes its tick, and
  // the task is ready from then on unless it is suspended.
  lemma DelayInCalls(ss: seq<Sys>, run: seq<Step>, cuts: seq<nat>, steps: seq<TickStep>, p: Prio)
    requires IsTrace(ss, run) && CallsIn(ss, run, cuts, steps) && p in ss[cuts[0]].k.tasks && p != ss[cuts[0]].k.idle
    requires cuts[0] <= cuts[|steps|] <= |run| && LeftAlone(ss, run, cuts[0], cuts[|steps|], p)
    requires ss[cuts[0]].k.tasks[p].dly > 0
    ensures var s := ss[cuts[|steps|]]; var t := ss[cuts[0]].k.tasks[p]; var m := Processed(steps);
      && p in s.k.tasks
      && s.k.tasks[p] == (if m < t.dly then t.(dly := t.dly - m) else Expire(t))
      && s.k.tasks[p].dly == (if m < t.dly then t.dly - m else 0)
      && (p in s.k.ready <==> p in ss[cuts[0]].k.ready || (m >= t.dly && !Suspended(t)))
  {
    hide IsTrace, LeftAlone;
    VisitsAreCalls(ss, run, cuts, steps, |steps|, p);
    assert steps[..|steps|] == steps;
    hide CallsIn;
    DelayRunsOut(ss, run, cuts[0], cuts[|steps|], p);
  }

  // In calls: a task that delays itself for n ticks is ready again exactly from
  // the n-th following call that processes its tick on.
  lemma SleepsForCalls(ss: seq<Sys>, run: seq<Step>, i: nat, cuts: seq<nat>, steps: seq<TickStep>, p: Prio, n: nat)
    requires IsTrace(ss, run) && CallsIn(ss, run, cuts, steps) && cuts[0] == i + 1 && run[i] == DoDelay(p, n)
    requires cuts[0] <= cuts[|steps|] <= |run| && LeftAlone(ss, run, cuts[0], cuts[|steps|], p)
    ensures p in ss[cuts[|steps|]].k.ready <==> Processed(steps) >= n
  {
    TraceKeeps(ss, run, i);
    assert Next(ss[i], run[i], ss[i + 1]);
    KernelServices.DelayStarts(ss[i], p, n, ss[i + 1]);
    assert p != ss[i].k.idle;
    hide Inv, Next, IsTrace, LeftAlone;
    VisitsAreCalls(ss, run, cuts, steps, |steps|, p);
    assert steps[..|steps|] == steps;
    hide CallsIn;
    KernelServices.DelaySleeps(ss, run, i, cuts[|steps|], p, n);
  }

  // ---------------------------------------------------------------------
  // Stepping.

  // What n calls find one after another if nobody else writes the state.
  function Found(step: TickStep, n: nat): (steps: seq<TickStep>)
    ensures |steps| == n
    decreases n
  {
    if n == 0 then [] else [step] + Found(NextStep(step), n - 1)
  }

  lemma {:induction false} ProcessedFirst(step: TickStep, rest: seq<TickStep>)
    ensures Processed([step] + rest) == (if Processes(step) then 1 else 0) + Processed(rest)
  {
    var steps := [step] + rest;
    if rest != [] {
      ProcessedFirst(step, rest[..|rest| - 1]);
      assert steps[..|steps| - 1] == [step] + rest[..|rest| - 1];
    } else {
      assert steps[..0] == [];
    }
  }

  // Waiting processes nothing, ONCE exactly one tick, anything else all.
  lemma {:induction false} Stepping(step: TickStep, n: nat)
    ensures Processed(Found(step, n)) ==
      match step
      case StepWait => 0
      case StepOnce => if n == 0 then 0 else 1
      case StepDis => n
      case StepInvalid => n
    decreases n
  {
    if n > 0 {
      Stepping(NextStep(step), n - 1);
      ProcessedFirst(step, Found(NextStep(step), n - 1));
    }
  }
}
