/** No unit is lost, duplicated or reordered: semaphore counts, mailbox and
  queue messages, over the poll of OSEventPendMulti and over whole runs. */
module KernelConservation {
  import opened Options
  import opened KernelModel
  import opened KernelSafety
  import opened KernelRuns

  // ---------------------------------------------------------------------
  // The immediate path of OSEventPendMulti.

  function Count(es: seq<EventId>, e: EventId): nat {
    if es == [] then 0 else Count(es[..|es| - 1], e) + if es[|es| - 1] == e then 1 else 0
  }

  // The messages among the taken units that came from e, in order.
  function TakenFrom(taken: seq<(EventId, Msg)>, e: EventId): seq<Msg> {
    if taken == [] then []
    else
      var last := taken[|taken| - 1];
      TakenFrom(taken[..|taken| - 1], e) + if last.0 == e then [last.1] else []
  }

  // The listed occurrences that find a unit: the n-th occurrence of an event
  // does if and only if the event stores more than n units to begin with.
  function Available(events: seq<Event>, es: seq<EventId>): seq<EventId>
    requires InRange(events, es)
  {
    if es == [] then []
    else
      var init, e := es[..|es| - 1], es[|es| - 1];
      Available(events, init) + if Count(init, e) < |events[e].stored| then [e] else []
  }

  function Min(a: nat, b: nat): nat {
    if a < b then a else b
  }

  // One unit per listed occurrence that has one: what is taken from e and
  // what is left of it make up what it stored, oldest first.
  lemma {:induction false} PollConserves(events: seq<Event>, es: seq<EventId>, e: EventId)
    requires InRange(events, es) && e < |events|
    ensures var r := Poll(events, es);
      && events[e].stored == TakenFrom(r.taken, e) + r.events[e].stored
      && |TakenFrom(r.taken, e)| == Min(|events[e].stored|, Count(es, e))
      && r.events[e] == events[e].(stored := r.events[e].stored)
    decreases |es|
  {
    if es == [] {
      assert [] + events[e].stored == events[e].stored;
    } else {
      var init, f := es[..|es| - 1], es[|es| - 1];
      PollConserves(events, init, e);
      var before, r := Poll(events, init), Poll(events, es);
      if before.events[f].stored != [] {
        assert r.taken[..|r.taken| - 1] == before.taken;
        if f == e {
          var st := before.events[e].stored;
          assert [st[0]] + st[1..] == st;
          assert TakenFrom(r.taken, e) == TakenFrom(before.taken, e) + [st[0]];
        } else {
          assert TakenFrom(r.taken, e) == TakenFrom(before.taken, e);
        }
      }
    }
  }

  // The returned events are the available occurrences, in array order.
  lemma {:induction false} PollOrder(events: seq<Event>, es: seq<EventId>)
    requires InRange(events, es)
    ensures Ids(Poll(events, es).taken) == Available(events, es)
    decreases |es|
  {
    if es != [] {
      var init, f := es[..|es| - 1], es[|es| - 1];
      PollOrder(events, init);
      PollConserves(events, init, f);
      assert Poll(events, init).events[f].stored != [] <==> Count(init, f) < |events[f].stored|;
    }
  }

  lemma {:induction false} AvailableEmpty(events: seq<Event>, es: seq<EventId>)
    requires InRange(events, es)
    ensures Available(events, es) == [] <==> forall i :: 0 <= i < |es| ==> events[es[i]].stored == []
    decreases |es|
  {
    if es != [] {
      var init, f := es[..|es| - 1], es[|es| - 1];
      AvailableEmpty(events, init);
      hide InRange;
      if Available(events, init) == [] {
        if events[f].stored != [] { NotListed(events, init, f); }
        assert forall i :: 0 <= i < |es| && i != |init| ==> es[i] == init[i];
      } else {
        var i :| 0 <= i < |init| && events[init[i]].stored != [];
        assert es[i] == init[i];
      }
    }
  }

  lemma {:induction false} NotListed(events: seq<Event>, es: seq<EventId>, f: EventId)
    requires InRange(events, es) && f < |events| && events[f].stored != []
    requires forall i :: 0 <= i < |es| ==> events[es[i]].stored == []
    ensures Count(es, f) == 0
    decreases |es|
  {
    if es != [] { NotListed(events, es[..|es| - 1], f); }
  }

  // A call blocks if and only if every listed event is empty.
  lemma PollBlocks(events: seq<Event>, es: seq<EventId>)
    requires InRange(events, es)
    ensures Poll(events, es).taken == [] <==> forall i :: 0 <= i < |es| ==> events[es[i]].stored == []
  {
    PollOrder(events, es);
    AvailableEmpty(events, es);
  }

  // The messages at the positions of the two returned arrays that hold e.
  function MessagesOf(rdy: seq<EventId>, msgs: seq<Msg>, e: EventId): seq<Msg>
    requires |rdy| == |msgs|
  {
    if rdy == [] then []
    else
      var n := |rdy| - 1;
      MessagesOf(rdy[..n], msgs[..n], e) + if rdy[n] == e then [msgs[n]] else []
  }

  // The two arrays OSEventPendMulti fills belong together: the messages beside
  // e are what it stored, oldest first, as many as its listed occurrences.
  lemma MessagesMatch(events: seq<Event>, es: seq<EventId>, e: EventId)
    requires InRange(events, es) && e < |events|
    ensures var r := Poll(events, es); var msgs := MessagesOf(Ids(r.taken), Msgs(r.taken), e);
      && events[e].stored == msgs + r.events[e].stored
      && |msgs| == Min(|events[e].stored|, Count(es, e))
  {
    PollConserves(events, es, e);
    SameMessages(Poll(events, es).taken, e);
  }

  lemma {:induction false} SameMessages(taken: seq<(EventId, Msg)>, e: EventId)
    ensures MessagesOf(Ids(taken), Msgs(taken), e) == TakenFrom(taken, e)
    decreases |taken|
  {
    if taken != [] {
      var n := |taken| - 1;
      SameMessages(taken[..n], e);
      assert Ids(taken)[..n] == Ids(taken[..n]) && Msgs(taken)[..n] == Msgs(taken[..n]);
    }
  }

  // ---------------------------------------------------------------------
  // Whole runs.

  // Units of e accepted by a step.
  ghost function Sent(s: Sys, a: Step, e: EventId): seq<Msg>
    requires e < |s.k.events|
  {
    match a
    case DoPost(f, msg) =>
      if f == e && (s.k.events[e].waiters != {} || |s.k.events[e].stored| < s.k.events[e].cap) then [msg] else []
    case _ => []
  }

  // Units of e that a step gives to a task.
  ghost function Got(s: Sys, a: Step, e: EventId): seq<Msg>
    requires e < |s.k.events|
  {
    match a
    case PendOne(_, f, _) => if f == e && s.k.events[e].stored != [] then [s.k.events[e].stored[0]] else []
    case PendMany(_, es, _) => if InRange(s.k.events, es) then TakenFrom(Poll(s.k.events, es).taken, e) else []
    case DoPost(f, msg) => if f == e && s.k.events[e].waiters != {} then [msg] else []
    case _ => []
  }

  // Deliver and the wait-list changes store and take nothing.
  ghost predicate SameStored(a: seq<Event>, b: seq<Event>) {
    |a| == |b| && forall i :: 0 <= i < |a| ==> a[i].stored == b[i].stored && a[i].cap == b[i].cap
  }

  lemma DeliverStores(k: Kernel, e: EventId, msg: Msg, msk: bv8, st: PendStat)
    requires e < |k.events| && k.events[e].waiters != {} && k.events[e].waiters <= k.tasks.Keys
    ensures SameStored(k.events, Deliver(k, e, msg, msk, st).events)
  {
  }

  lemma PostConserves(k: Kernel, f: EventId, msg: Msg, e: EventId)
    requires f < |k.events| && k.events[f].waiters <= k.tasks.Keys && NoIdleUnit(k) && e < |k.events|
    ensures var k' := Post(k, f, msg).0; var served := k.events[f].waiters != {};
      && |k'.events| == |k.events|
      && k.events[e].stored + (if f == e && (served || |k.events[e].stored| < k.events[e].cap) then [msg] else [])
         == (if f == e && served then [msg] else []) + k'.events[e].stored
  {
    if k.events[f].waiters != {} { DeliverStores(k, f, msg, TypeBit(k.events[f].kind), PendOk); }
  }

  // e before and after a step that accepts `sent` and gives `got`.
  ghost predicate Balanced(events: seq<Event>, events': seq<Event>, e: EventId, sent: seq<Msg>, got: seq<Msg>) {
    && e < |events| == |events'|
    && events[e].stored + sent == got + events'[e].stored
  }

  lemma UnchangedBalances(events: seq<Event>, events': seq<Event>, e: EventId)
    requires SameStored(events, events') && e < |events|
    ensures Balanced(events, events', e, [], [])
  {
    assert events[e].stored + [] == [] + events'[e].stored;
  }

  lemma PendOneConserves(s: Sys, p: Prio, f: EventId, timeout: nat, e: EventId)
    requires Inv(s) && Enabled(s, PendOne(p, f, timeout)) && e < |s.k.events|
    ensures var a := PendOne(p, f, timeout);
      Balanced(s.k.events, Apply(s, a).k.events, e, Sent(s, a, e), Got(s, a, e))
  {
    var st := s.k.events[f].stored;
    if st != [] { assert st + [] == [st[0]] + st[1..]; }
    if st == [] || e != f {
      UnchangedBalances(s.k.events, s.k.events, e);
    }
  }

  lemma PendManyConserves(s: Sys, p: Prio, es: seq<EventId>, timeout: nat, e: EventId)
    requires Inv(s) && Enabled(s, PendMany(p, es, timeout)) && e < |s.k.events|
    ensures var a := PendMany(p, es, timeout);
      Balanced(s.k.events, Apply(s, a).k.events, e, Sent(s, a, e), Got(s, a, e))
  {
    var r := Poll(s.k.events, es);
    PollConserves(s.k.events, es, e);
    assert s.k.events[e].stored + [] == s.k.events[e].stored;
    if r.taken == [] {
      PollEmpty(s.k.events, es);
      UnchangedBalances(s.k.events, BlockMany(s.k, p, es, r.stat, timeout).events, e);
    }
  }

  lemma WakeConserves(s: Sys, p: Prio, e: EventId)
    requires Inv(s) && Enabled(s, Wake(p)) && e < |s.k.events|
    ensures Balanced(s.k.events, Apply(s, Wake(p)).k.events, e, [], [])
  {
    WakeLeaves(s, p);
    UnchangedBalances(s.k.events, WakeStep(s, p).0.events, e);
  }

  lemma HandConserves(s: Sys, a: Step, e: EventId)
    requires Inv(s) && Enabled(s, a) && e < |s.k.events| && (a.DoPost? || a.DoAbort?)
    ensures Balanced(s.k.events, Apply(s, a).k.events, e, Sent(s, a, e), Got(s, a, e))
  {
    InvGivesBounds(s);
    match a
    case DoPost(f, msg) => PostConserves(s.k, f, msg, e);
    case DoAbort(f) =>
      if s.k.events[f].waiters != {} { DeliverStores(s.k, f, NULL_MSG, TypeBit(s.k.events[f].kind), PendAbort); }
      UnchangedBalances(s.k.events, Abort(s.k, f).events, e);
  }

  lemma StepConserves(s: Sys, a: Step, s': Sys, e: EventId)
    requires Inv(s) && Next(s, a, s') && e < |s.k.events|
    ensures Balanced(s.k.events, s'.k.events, e, Sent(s, a, e), Got(s, a, e))
  {
    match a
    case PendOne(p, f, timeout) => PendOneConserves(s, p, f, timeout, e);
    case PendMany(p, es, timeout) => PendManyConserves(s, p, es, timeout, e);
    case Wake(p) => WakeConserves(s, p, e);
    case DoPost(_, _) => HandConserves(s, a, e);
    case DoAbort(_) => HandConserves(s, a, e);
    case _ => UnchangedBalances(s.k.events, s.k.events, e);
  }

  ghost function AllSent(ss: seq<Sys>, run: seq<Step>, n: nat, e: EventId): seq<Msg>
    requires |ss| == |run| + 1 && n <= |run| && forall m :: 0 <= m < |ss| ==> e < |ss[m].k.events|
  {
    if n == 0 then [] else AllSent(ss, run, n - 1, e) + Sent(ss[n - 1], run[n - 1], e)
  }

  ghost function AllGot(ss: seq<Sys>, run: seq<Step>, n: nat, e: EventId): seq<Msg>
    requires |ss| == |run| + 1 && n <= |run| && forall m :: 0 <= m < |ss| ==> e < |ss[m].k.events|
  {
    if n == 0 then [] else AllGot(ss, run, n - 1, e) + Got(ss[n - 1], run[n - 1], e)
  }

  // Over every run, what an event stored at first followed by every accepted
  // post is what tasks were given followed by what it stores now.
  lemma {:induction false} RunConserves(ss: seq<Sys>, run: seq<Step>, n: nat, e: EventId)
    requires IsTrace(ss, run) && n <= |run| && forall m :: 0 <= m < |ss| ==> e < |ss[m].k.events|
    ensures ss[0].k.events[e].stored + AllSent(ss, run, n, e) == AllGot(ss, run, n, e) + ss[n].k.events[e].stored
  {
    hide Inv, Next, Sent, Got;
    if n == 0 {
      assert ss[0].k.events[e].stored + [] == [] + ss[0].k.events[e].stored;
    } else {
      RunConserves(ss, run, n - 1, e);
      TraceKeeps(ss, run, n - 1);
      assert Next(ss[n - 1], run[n - 1], ss[n]);
      hide IsTrace;
      StepConserves(ss[n - 1], run[n - 1], ss[n], e);
      Chain(ss[0].k.events[e].stored, AllSent(ss, run, n - 1, e), AllGot(ss, run, n - 1, e),
            ss[n - 1].k.events[e].stored, Sent(ss[n - 1], run[n - 1], e), Got(ss[n - 1], run[n - 1], e),
            ss[n].k.events[e].stored);
    }
  }

  lemma Chain(first: seq<Msg>, sent: seq<Msg>, got: seq<Msg>, mid: seq<Msg>, more: seq<Msg>, gave: seq<Msg>,
              end: seq<Msg>)
    requires first + sent == got + mid && mid + more == gave + end
    ensures first + (sent + more) == (got + gave) + end
  {
    assert first + (sent + more) == (first + sent) + more;
    assert (got + mid) + more == got + (mid + more);
    assert got + (gave + end) == (got + gave) + end;
  }
}
