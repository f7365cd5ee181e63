/** HAL alarms: a 32-bit tick counter and a roll-over flag per alarm that
  together must behave like an unbounded clock.

  Time without wrapping (`now`) appears only in specifications.  Callbacks are
  represented by what they return: answer(t, id) is the result of the callback
  of alarm `id` if it is called on tick t.
*/
module Alarms {
  import opened Options
  import opened Arithmetic

  const WRAP: nat := 0x1_0000_0000

  datatype Alarm = Alarm(id: nat, time: nat, rollover: bool)

  // Results of alt_alarm_start: 0, -EINVAL, -ENOTSUP.
  datatype StartError = Started | Invalid | NotSupported

  // alt_alarm_start on the alarm's own fields.
  function StartedAlarm(id: nat, n: nat, current: nat): Alarm {
    var time := (n + current + 1) % WRAP;
    Alarm(id, time, time < current)
  }

  // One round of the loop in alt_tick: the alarm afterwards, unless it was
  // deactivated, and whether the callback was made.
  function Visit(a: Alarm, nticks: nat, p: nat): (r: (Option<Alarm>, bool)) {
    var a1 := if a.rollover && nticks == 0 then a.(rollover := false) else a;
    if a1.time <= nticks && !a1.rollover then
      if p == 0 then (None, true)
      else
        var time := (a1.time + p) % WRAP;
        (Some(Alarm(a.id, time, time < nticks)), true)
    else (Some(a1), false)
  }

  // The loop over the list, first element first: the list afterwards and the
  // alarms that fired, in order.
  function TickAll(alarms: seq<Alarm>, nticks: nat, answer: nat -> nat): (r: (seq<Alarm>, seq<nat>)) {
    if alarms == [] then ([], [])
    else
      var (a', fired) := Visit(alarms[0], nticks, answer(alarms[0].id));
      var rest := TickAll(alarms[1..], nticks, answer);
      ((if a'.Some? then [a'.value] else []) + rest.0, (if fired then [alarms[0].id] else []) + rest.1)
  }

  // alt_llist_remove on the entry of alarm `id`.
  function Without(alarms: seq<Alarm>, id: nat): (r: seq<Alarm>)
    ensures forall x :: x in r <==> x in alarms && x.id != id
  {
    if alarms == [] then []
    else (if alarms[0].id == id then [] else [alarms[0]]) + Without(alarms[1..], id)
  }

  // The list of alarms; the head of alarms is the entry after the list head.
  class SystemClock {
    const rate: nat
    var nticks: nat
    var alarms: seq<Alarm>

    ghost predicate Valid()
      reads this
    {
      nticks < WRAP && Distinct(alarms)
    }

    constructor (rate: nat)
      ensures Valid() && this.rate == rate && nticks == 0 && alarms == []
    {
      this.rate := rate;
      nticks, alarms := 0, [];
    }

    // alt_alarm_start
    method Start(alarm: Option<nat>, n: nat) returns (err: StartError)
      requires Valid() && n < WRAP
      requires alarm.Some? ==> !Listed(alarms, alarm.value)
      modifies this
      ensures Valid() && nticks == old(nticks)
      ensures err == if rate == 0 then NotSupported else if alarm.None? then Invalid else Started
      ensures alarms == if err == Started then [StartedAlarm(alarm.value, n, nticks)] + old(alarms) else old(alarms)
    {
      if rate != 0 {
        if alarm.Some? {
          var current := nticks;
          var time := (n + current + 1) % WRAP;
          var rollover := false;
          if time < current {
            rollover := true;
          }
          alarms := [Alarm(alarm.value, time, rollover)] + alarms;
          return Started;
        } else {
          return Invalid;
        }
      } else {
        return NotSupported;
      }
    }

    // alt_alarm_stop on a registered alarm
    method Stop(id: nat)
      requires Valid()
      modifies this
      ensures Valid() && nticks == old(nticks) && alarms == Without(old(alarms), id)
    {
      WithoutDistinct(alarms, id);
      alarms := Without(alarms, id);
    }

    // The loop body of alt_tick on entry i; next is the entry that follows.
    method VisitEntry(i: nat, answer: nat -> nat) returns (next: nat, called: bool)
      requires i < |alarms|
      modifies this`alarms
      ensures var (a', f) := Visit(old(alarms)[i], nticks, answer(old(alarms)[i].id));
        && called == f && next == (if a'.Some? then i + 1 else i)
        && alarms == old(alarms)[..i] + (if a'.Some? then [a'.value] else []) + old(alarms)[i + 1..]
    {
      var a := alarms[i];
      called := false;
      if a.rollover && nticks == 0 {
        a := a.(rollover := false);
      }
      if a.time <= nticks && !a.rollover {
        var nextCallback := answer(a.id);
        called := true;
        if nextCallback == 0 {
          alarms := alarms[..i] + alarms[i + 1..];
          return i, called;
        } else {
          a := a.(time := (a.time + nextCallback) % WRAP);
          if a.time < nticks {
            a := a.(rollover := true);
          }
        }
      }
      alarms := alarms[i := a];
      next := i + 1;
    }

    // alt_tick
    method Tick(answer: nat -> nat) returns (fired: seq<nat>)
      requires Valid()
      modifies this
      ensures Valid() && nticks == (old(nticks) + 1) % WRAP
      ensures (alarms, fired) == TickAll(old(alarms), nticks, answer)
    {
      nticks := (nticks + 1) % WRAP;
      TickDistinct(alarms, nticks, answer);
      fired := [];
      var i := 0;
      assert alarms[..0] == [] && alarms[0..] == alarms;
      hide TickAll, Visit;
      while i < |alarms|
        invariant 0 <= i <= |alarms| && nticks == (old(nticks) + 1) % WRAP
        invariant alarms[..i] + TickAll(alarms[i..], nticks, answer).0 == TickAll(old(alarms), nticks, answer).0
        invariant fired + TickAll(alarms[i..], nticks, answer).1 == TickAll(old(alarms), nticks, answer).1
        decreases |alarms| - i
      {
        FirstVisited(alarms[..i], alarms[i..], fired, nticks, answer);
        ghost var done, rest := alarms[..i], alarms[i..];
        var id := alarms[i].id;
        var next, called := VisitEntry(i, answer);
        assert alarms[next..] == rest[1..];
        if called {
          fired := fired + [id];
        }
        i := next;
      }
      assert alarms[i..] == [] && alarms[..i] + [] == alarms && fired + [] == fired;
      NoneVisited(nticks, answer);
    }
  }

  lemma Grouped<T>(a: seq<T>, b: seq<T>, c: seq<T>)
    ensures a + b + c == a + (b + c)
  {
  }

  lemma FirstVisited(done: seq<Alarm>, rest: seq<Alarm>, fired: seq<nat>, nticks: nat, answer: nat -> nat)
    requires rest != []
    ensures var (a', f) := Visit(rest[0], nticks, answer(rest[0].id));
      var r, r' := TickAll(rest, nticks, answer), TickAll(rest[1..], nticks, answer);
      && done + (if a'.Some? then [a'.value] else []) + r'.0 == done + r.0
      && (if f then fired + [rest[0].id] else fired) + r'.1 == fired + r.1
  {
    var (a', f) := Visit(rest[0], nticks, answer(rest[0].id));
    var r' := TickAll(rest[1..], nticks, answer);
    Grouped(done, if a'.Some? then [a'.value] else [], r'.0);
    Grouped(fired, if f then [rest[0].id] else [], r'.1);
    hide Visit;
  }

  lemma NoneVisited(nticks: nat, answer: nat -> nat)
    ensures TickAll([], nticks, answer) == ([], [])
  {
  }

  ghost predicate Listed(alarms: seq<Alarm>, id: nat) {
    exists i :: 0 <= i < |alarms| && alarms[i].id == id
  }

  ghost predicate Distinct(alarms: seq<Alarm>) {
    forall i, j :: 0 <= i < j < |alarms| ==> alarms[i].id != alarms[j].id
  }

  lemma DistinctTail(alarms: seq<Alarm>)
    requires alarms != []
    ensures Distinct(alarms) <==> Distinct(alarms[1..]) && !Listed(alarms[1..], alarms[0].id)
  {
    var rest := alarms[1..];
    assert forall i :: 0 < i < |alarms| ==> alarms[i] == rest[i - 1];
  }

  lemma ListedTail(alarms: seq<Alarm>, id: nat)
    requires alarms != []
    ensures Listed(alarms, id) <==> alarms[0].id == id || Listed(alarms[1..], id)
  {
    var rest := alarms[1..];
    assert forall i :: 0 < i < |alarms| ==> alarms[i] == rest[i - 1];
  }

  lemma {:induction false} WithoutDistinct(alarms: seq<Alarm>, id: nat)
    requires Distinct(alarms)
    ensures Distinct(Without(alarms, id)) && !Listed(Without(alarms, id), id)
    ensures forall x :: x != id ==> (Listed(Without(alarms, id), x) <==> Listed(alarms, x))
  {
    if alarms != [] {
      var rest, r := Without(alarms[1..], id), Without(alarms, id);
      DistinctTail(alarms);
      WithoutDistinct(alarms[1..], id);
      forall x ensures Listed(alarms, x) <==> alarms[0].id == x || Listed(alarms[1..], x) { ListedTail(alarms, x); }
      if alarms[0].id != id {
        assert r == [alarms[0]] + rest && r[1..] == rest;
        DistinctTail(r);
        forall x ensures Listed(r, x) <==> r[0].id == x || Listed(rest, x) { ListedTail(r, x); }
      }
    }
  }

  // A tick only removes alarms.
  lemma {:induction false} TickDistinct(alarms: seq<Alarm>, nticks: nat, answer: nat -> nat)
    requires Distinct(alarms)
    ensures var r := TickAll(alarms, nticks, answer).0;
      Distinct(r) && forall x :: Listed(r, x) ==> Listed(alarms, x)
  {
    if alarms != [] {
      var r, rest := TickAll(alarms, nticks, answer).0, TickAll(alarms[1..], nticks, answer).0;
      DistinctTail(alarms);
      TickDistinct(alarms[1..], nticks, answer);
      forall x ensures Listed(alarms, x) <==> alarms[0].id == x || Listed(alarms[1..], x) { ListedTail(alarms, x); }
      var a' := Visit(alarms[0], nticks, answer(alarms[0].id)).0;
      if a'.Some? {
        assert r == [a'.value] + rest && r[1..] == rest;
        DistinctTail(r);
        forall x ensures Listed(r, x) <==> r[0].id == x || Listed(rest, x) { ListedTail(r, x); }
      }
    }
  }

  function Ids(alarms: seq<Alarm>): (ids: seq<nat>)
    ensures |ids| == |alarms| && forall i :: 0 <= i < |ids| ==> ids[i] == alarms[i].id
  {
    seq(|alarms|, i requires 0 <= i < |alarms| => alarms[i].id)
  }

  // a is b with some members left out.
  predicate Picked(a: seq<nat>, b: seq<nat>) {
    if b == [] then a == []
    else Picked(a, b[1..]) || (a != [] && a[0] == b[0] && Picked(a[1..], b[1..]))
  }

  lemma PickedOn(x: nat, a: seq<nat>, b: seq<nat>)
    requires Picked(a, b)
    ensures Picked(a, [x] + b) && Picked([x] + a, [x] + b)
  {
    assert ([x] + b)[1..] == b && ([x] + a)[1..] == a;
  }

  lemma IdsOn(x: Alarm, rest: seq<Alarm>)
    ensures Ids([x] + rest) == [x.id] + Ids(rest)
  {
  }

  // A tick calls every alarm at most once, in the order of the list, and keeps
  // those that stay in their order.
  lemma {:induction false} TickInOrder(alarms: seq<Alarm>, nticks: nat, answer: nat -> nat)
    ensures var (alarms', fired) := TickAll(alarms, nticks, answer);
      Picked(fired, Ids(alarms)) && Picked(Ids(alarms'), Ids(alarms))
  {
    hide Picked, Visit;
    if alarms != [] {
      var x, tail := alarms[0], alarms[1..];
      var (a', fired) := Visit(x, nticks, answer(x.id));
      var rest := TickAll(tail, nticks, answer);
      TickInOrder(tail, nticks, answer);
      assert alarms == [x] + tail;
      IdsOn(x, tail);
      PickedOn(x.id, rest.1, Ids(tail));
      PickedOn(x.id, Ids(rest.0), Ids(tail));
      assert [] + rest.1 == rest.1 && [] + rest.0 == rest.0;
      SameId(x, nticks, answer(x.id));
      if a'.Some? { IdsOn(a'.value, rest.0); }
    } else {
      NonePicked(nticks, answer);
    }
  }

  lemma SameId(a: Alarm, nticks: nat, p: nat)
    ensures Visit(a, nticks, p).0.Some? ==> Visit(a, nticks, p).0.value.id == a.id
  {
  }

  lemma NonePicked(nticks: nat, answer: nat -> nat)
    ensures TickAll([], nticks, answer) == ([], []) && Ids([]) == [] && Picked([], [])
  {
  }

  // The entries that stay when one is removed keep their order.
  lemma {:induction false} StopInOrder(alarms: seq<Alarm>, id: nat)
    ensures Picked(Ids(Without(alarms, id)), Ids(alarms))
  {
    hide Picked;
    if alarms != [] {
      var x, tail := alarms[0], alarms[1..];
      var rest := Without(tail, id);
      StopInOrder(tail, id);
      assert alarms == [x] + tail;
      IdsOn(x, tail);
      IdsOn(x, rest);
      PickedOn(x.id, Ids(rest), Ids(tail));
      assert [] + rest == rest;
    } else {
      NonePicked(0, _ => 0);
    }
  }

  // ---------------------------------------------------------------------
  // One alarm against the unbounded clock.

  // At time `now` the alarm will fire next at time `due`.  The flag says that
  // the counter wraps before then, except for a deadline exactly one lap away
  // that was set on the last tick before a wrap.
  predicate AlarmOk(a: Alarm, due: nat, now: nat) {
    && now < due <= now + WRAP
    && a.time == due % WRAP
    && (a.rollover <==> due / WRAP > now / WRAP && !(now % WRAP == WRAP - 1 && due == now + WRAP))
  }

  // alt_alarm_start is right for every interval but the longest, and for that
  // one only when it is called on the last tick before a wrap.
  lemma StartIsRight(id: nat, n: nat, now: nat)
    requires n < WRAP
    ensures AlarmOk(StartedAlarm(id, n, now % WRAP), now + n + 1, now) <==> n < WRAP - 1 || now % WRAP == WRAP - 1
  {
    Split(now, n + 1);
  }

  // Otherwise the alarm fires on the very next tick.
  lemma LongestFiresAtOnce(id: nat, now: nat, p: nat)
    requires now % WRAP != WRAP - 1
    ensures Visit(StartedAlarm(id, WRAP - 1, now % WRAP), (now + 1) % WRAP, p).1
  {
    Split(now, WRAP);
    Split(now, 1);
  }

  lemma Split(now: nat, d: nat)
    requires d <= WRAP
    ensures (now + d) % WRAP == if now % WRAP + d < WRAP then now % WRAP + d else now % WRAP + d - WRAP
    ensures (now + d) / WRAP == if now % WRAP + d < WRAP then now / WRAP else now / WRAP + 1
  {
    var q, c := now / WRAP, now % WRAP;
    assert now == WRAP * q + c;
    if c + d < WRAP {
      assert now + d == WRAP * q + (c + d);
    } else {
      assert now + d == WRAP * (q + 1) + (c + d - WRAP);
    }
  }

  // The alarm fires on a tick exactly if that tick is its deadline; a nonzero
  // answer p moves the deadline by p.
  lemma VisitIsRight(a: Alarm, due: nat, now: nat, p: nat)
    requires AlarmOk(a, due, now) && p < WRAP
    ensures var (a', fired) := Visit(a, (now + 1) % WRAP, p);
      && (fired <==> due == now + 1)
      && (a'.None? <==> fired && p == 0)
      && (a'.Some? ==> a'.value.id == a.id && AlarmOk(a'.value, if fired then due + p else due, now + 1))
  {
    Split(now, 1);
    Split(now, due - now);
    if due == now + 1 { Split(due, p); }
  }

  // ---------------------------------------------------------------------
  // Runs.

  datatype Sys = Sys(alarms: seq<Alarm>, now: nat)

  datatype Step = DoTick | DoStart(id: nat, n: nat) | DoStop(id: nat)

  ghost predicate Enabled(s: Sys, a: Step) {
    match a
    case DoTick => true
    case DoStart(id, n) => !Listed(s.alarms, id) && n < WRAP
    case DoStop(id) => true
  }

  // The answers of all callbacks on tick t.
  function At(answer: (nat, nat) -> nat, t: nat): nat -> nat {
    id => answer(t, id)
  }

  // The alarms called by a step.
  function Fired(s: Sys, a: Step, answer: (nat, nat) -> nat): seq<nat> {
    if a.DoTick? then TickAll(s.alarms, (s.now + 1) % WRAP, At(answer, s.now + 1)).1 else []
  }

  function Apply(s: Sys, a: Step, answer: (nat, nat) -> nat): Sys {
    match a
    case DoTick => Sys(TickAll(s.alarms, (s.now + 1) % WRAP, At(answer, s.now + 1)).0, s.now + 1)
    case DoStart(id, n) => s.(alarms := [StartedAlarm(id, n, s.now % WRAP)] + s.alarms)
    case DoStop(id) => s.(alarms := Without(s.alarms, id))
  }

  ghost predicate IsRun(states: seq<Sys>, steps: seq<Step>, answer: (nat, nat) -> nat) {
    && |states| == |steps| + 1 && Distinct(states[0].alarms)
    && (forall t, id :: answer(t, id) < WRAP)
    && forall i {:trigger steps[i]} :: 0 <= i < |steps| ==>
         Enabled(states[i], steps[i]) && states[i + 1] == Apply(states[i], steps[i], answer)
  }

  // On an unbounded clock: first at `due`, and after a call at time t again
  // answer(t) later, until the answer is zero.
  predicate FiresAt(due: nat, answer: nat -> nat, t: nat)
    decreases if due <= t then t - due + 1 else 0
  {
    if t <= due then t == due
    else answer(due) != 0 && FiresAt(due + answer(due), answer, t)
  }

  // Step a leaves the registration of alarm id alone.
  predicate Leaves(a: Step, id: nat) {
    match a
    case DoTick => true
    case DoStart(x, _) => x != id
    case DoStop(x) => x != id
  }

  ghost predicate Due(s: Sys, id: nat, due: nat) {
    exists i :: 0 <= i < |s.alarms| && s.alarms[i].id == id && AlarmOk(s.alarms[i], due, s.now)
  }

  lemma DueTail(alarms: seq<Alarm>, now: nat, id: nat, due: nat)
    requires alarms != [] && alarms[0].id != id
    ensures Due(Sys(alarms, now), id, due) <==> Due(Sys(alarms[1..], now), id, due)
  {
    var rest := alarms[1..];
    assert forall i :: 0 < i < |alarms| ==> alarms[i] == rest[i - 1];
  }

  lemma DueHead(x: Alarm, rest: seq<Alarm>, now: nat, due: nat)
    requires AlarmOk(x, due, now)
    ensures Due(Sys([x] + rest, now), x.id, due)
  {
    assert ([x] + rest)[0] == x;
  }

  lemma HeadIsRight(alarms: seq<Alarm>, now: nat, due: nat, answer: nat -> nat)
    requires alarms != [] && Distinct(alarms) && AlarmOk(alarms[0], due, now) && answer(alarms[0].id) < WRAP
    ensures var id := alarms[0].id; var (alarms', fired) := TickAll(alarms, (now + 1) % WRAP, answer);
      && (id in fired <==> due == now + 1)
      && if id in fired && answer(id) == 0 then !Listed(alarms', id)
         else Due(Sys(alarms', now + 1), id, if id in fired then due + answer(id) else due)
  {
    var id, nticks := alarms[0].id, (now + 1) % WRAP;
    var rest' := TickAll(alarms[1..], nticks, answer).0;
    var (a', f) := Visit(alarms[0], nticks, answer(id));
    DistinctTail(alarms);
    NeverFired(alarms[1..], nticks, answer, id);
    VisitIsRight(alarms[0], due, now, answer(id));
    if a'.Some? {
      DueHead(a'.value, rest', now + 1, if f then due + answer(id) else due);
    } else {
      assert [] + rest' == rest';
    }
  }

  lemma DueFirst(alarms: seq<Alarm>, now: nat, id: nat, due: nat)
    requires Distinct(alarms) && Due(Sys(alarms, now), id, due)
    ensures alarms != [] && (alarms[0].id == id ==> AlarmOk(alarms[0], due, now))
  {
    var i :| 0 <= i < |alarms| && alarms[i].id == id && AlarmOk(alarms[i], due, now);
  }

  // A tick treats each alarm of the list as VisitIsRight says, whatever else
  // is in the list.
  lemma {:induction false} TickIsRight(alarms: seq<Alarm>, now: nat, id: nat, due: nat, answer: nat -> nat)
    requires Distinct(alarms) && Due(Sys(alarms, now), id, due) && answer(id) < WRAP
    ensures var (alarms', fired) := TickAll(alarms, (now + 1) % WRAP, answer);
      && (id in fired <==> due == now + 1)
      && if id in fired && answer(id) == 0 then !Listed(alarms', id)
         else Due(Sys(alarms', now + 1), id, if id in fired then due + answer(id) else due)
  {
    DueFirst(alarms, now, id, due);
    if alarms[0].id == id {
      HeadIsRight(alarms, now, due, answer);
    } else {
      var nticks := (now + 1) % WRAP;
      DistinctTail(alarms);
      DueTail(alarms, now, id, due);
      TickIsRight(alarms[1..], now, id, due, answer);
      TailIsRight(alarms, now, id, if due == now + 1 then due + answer(id) else due, answer);
    }
  }

  // Another alarm at the head of the list changes nothing for alarm id.
  lemma TailIsRight(alarms: seq<Alarm>, now: nat, id: nat, due: nat, answer: nat -> nat)
    requires alarms != [] && alarms[0].id != id
    ensures var (r, r') := (TickAll(alarms, (now + 1) % WRAP, answer), TickAll(alarms[1..], (now + 1) % WRAP, answer));
      && (id in r.1 <==> id in r'.1) && (Listed(r.0, id) <==> Listed(r'.0, id))
      && (Due(Sys(r.0, now + 1), id, due) <==> Due(Sys(r'.0, now + 1), id, due))
  {
    var nticks := (now + 1) % WRAP;
    var (alarms', fired) := TickAll(alarms, nticks, answer);
    var rest' := TickAll(alarms[1..], nticks, answer).0;
    var a' := Visit(alarms[0], nticks, answer(alarms[0].id)).0;
    if a'.None? {
      assert alarms' == rest';
    } else {
      assert alarms' == [a'.value] + rest' && alarms'[1..] == rest';
      ListedTail(alarms', id);
      DueTail(alarms', now + 1, id, due);
    }
  }

  lemma {:induction false} NeverFired(alarms: seq<Alarm>, nticks: nat, answer: nat -> nat, id: nat)
    requires !Listed(alarms, id)
    ensures id !in TickAll(alarms, nticks, answer).1 && !Listed(TickAll(alarms, nticks, answer).0, id)
  {
    if alarms != [] {
      ListedTail(alarms, id);
      NeverFired(alarms[1..], nticks, answer, id);
      var a' := Visit(alarms[0], nticks, answer(alarms[0].id)).0;
      if a'.Some? {
        var rest := TickAll(alarms[1..], nticks, answer).0;
        assert ([a'.value] + rest)[1..] == rest;
        ListedTail([a'.value] + rest, id);
      }
    }
  }

  lemma {:induction false} StepKeepsDistinct(states: seq<Sys>, steps: seq<Step>, answer: (nat, nat) -> nat, k: nat)
    requires IsRun(states, steps, answer) && k < |states|
    ensures Distinct(states[k].alarms)
    decreases k
  {
    if k > 0 {
      StepKeepsDistinct(states, steps, answer, k - 1);
      var s, a := states[k - 1], steps[k - 1];
      assert states[k - 1 + 1] == Apply(s, a, answer);
      match a
      case DoTick => TickDistinct(s.alarms, (s.now + 1) % WRAP, At(answer, s.now + 1));
      case DoStart(id, n) =>
        var alarms' := [StartedAlarm(id, n, s.now % WRAP)] + s.alarms;
        assert alarms'[1..] == s.alarms;
        DistinctTail(alarms');
      case DoStop(id) => WithoutDistinct(s.alarms, id);
    }
  }

  lemma {:induction false} WithoutKeeps(alarms: seq<Alarm>, now: nat, id: nat, due: nat, x: nat)
    requires Distinct(alarms) && Due(Sys(alarms, now), id, due) && x != id
    ensures Due(Sys(Without(alarms, x), now), id, due)
  {
    var r := Without(alarms, x);
    if alarms[0].id == id {
      var i :| 0 <= i < |alarms| && alarms[i].id == id && AlarmOk(alarms[i], due, now);
      assert i == 0 && r[0] == alarms[0];
    } else {
      DueTail(alarms, now, id, due);
      DistinctTail(alarms);
      WithoutKeeps(alarms[1..], now, id, due, x);
      if alarms[0].id != x {
        assert r[1..] == Without(alarms[1..], x);
        DueTail(r, now, id, due);
      }
    }
  }

  // One step of a run: the deadline of alarm id afterwards, if it has one.
  lemma StepIsRight(s: Sys, a: Step, answer: (nat, nat) -> nat, id: nat, due: nat)
    requires Distinct(s.alarms) && Due(s, id, due) && Leaves(a, id) && answer(s.now + 1, id) < WRAP
    ensures var (s', p) := (Apply(s, a, answer), answer(s.now + 1, id));
      && (id in Fired(s, a, answer) <==> a.DoTick? && due == s.now + 1)
      && if id in Fired(s, a, answer) && p == 0 then !Listed(s'.alarms, id)
         else Due(s', id, if id in Fired(s, a, answer) then due + p else due)
  {
    match a
    case DoTick => TickIsRight(s.alarms, s.now, id, due, At(answer, s.now + 1));
    case DoStart(x, n) =>
      var alarms' := [StartedAlarm(x, n, s.now % WRAP)] + s.alarms;
      assert alarms'[1..] == s.alarms;
      DueTail(alarms', s.now, id, due);
    case DoStop(x) => WithoutKeeps(s.alarms, s.now, id, due, x);
  }

  lemma DueLater(s: Sys, id: nat, due: nat)
    requires Due(s, id, due)
    ensures due > s.now
  {
  }

  // In every run, an alarm that is due at time `due` fires on exactly the
  // ticks of its unbounded schedule: no call is early, late or lost over any
  // number of wraps of the counter.
  lemma {:induction false} FiresOnSchedule(states: seq<Sys>, steps: seq<Step>, answer: (nat, nat) -> nat, k: nat,
                                           id: nat, due: nat, i: nat)
    requires IsRun(states, steps, answer) && k <= i < |steps| && Due(states[k], id, due)
    requires forall j :: k <= j <= i ==> Leaves(steps[j], id)
    ensures id in Fired(states[i], steps[i], answer) <==>
              steps[i].DoTick? && FiresAt(due, t => answer(t, id), states[i + 1].now)
    decreases i - k
  {
    hide Distinct, Due, Listed, Apply, Fired;
    var s, a := states[k], steps[k];
    assert Leaves(a, id) && states[k + 1] == Apply(s, a, answer);
    StepKeepsDistinct(states, steps, answer, k);
    StepIsRight(s, a, answer, id, due);
    DueLater(s, id, due);
    NowAfter(s, a, answer);
    if k < i {
      TimeGrows(states, steps, answer, k + 1, i);
      var fired, p := id in Fired(s, a, answer), answer(s.now + 1, id);
      if fired && p == 0 {
        NeverAgain(states, steps, answer, k + 1, id, i);
      } else {
        FiresOnSchedule(states, steps, answer, k + 1, id, if fired then due + p else due, i);
      }
    }
  }

  lemma NowAfter(s: Sys, a: Step, answer: (nat, nat) -> nat)
    ensures Apply(s, a, answer).now == if a.DoTick? then s.now + 1 else s.now
  {
  }

  lemma {:induction false} TimeGrows(states: seq<Sys>, steps: seq<Step>, answer: (nat, nat) -> nat, k: nat, i: nat)
    requires IsRun(states, steps, answer) && k <= i < |steps|
    ensures states[k].now <= states[i].now <= states[i + 1].now
    ensures steps[i].DoTick? ==> states[i].now < states[i + 1].now
    decreases i - k
  {
    assert states[k + 1] == Apply(states[k], steps[k], answer);
    assert states[i + 1] == Apply(states[i], steps[i], answer);
    if k < i { TimeGrows(states, steps, answer, k + 1, i); }
  }

  // A step that does not start an alarm neither calls nor registers it.
  lemma StaysUnlisted(s: Sys, a: Step, answer: (nat, nat) -> nat, id: nat)
    requires Distinct(s.alarms) && !Listed(s.alarms, id) && Leaves(a, id)
    requires forall t, x :: answer(t, x) < WRAP
    ensures !Listed(Apply(s, a, answer).alarms, id) && id !in Fired(s, a, answer)
  {
    match a
    case DoTick => NeverFired(s.alarms, (s.now + 1) % WRAP, At(answer, s.now + 1), id);
    case DoStart(x, n) =>
      var alarms' := [StartedAlarm(x, n, s.now % WRAP)] + s.alarms;
      assert alarms'[1..] == s.alarms;
      ListedTail(alarms', id);
    case DoStop(x) => WithoutDistinct(s.alarms, x);
  }

  lemma {:induction false} NeverAgain(states: seq<Sys>, steps: seq<Step>, answer: (nat, nat) -> nat, k: nat, id: nat,
                                      i: nat)
    requires IsRun(states, steps, answer) && k <= i < |steps| && !Listed(states[k].alarms, id)
    requires forall j :: k <= j <= i ==> Leaves(steps[j], id)
    ensures id !in Fired(states[i], steps[i], answer)
    decreases i - k
  {
    assert Leaves(steps[k], id) && states[k + 1] == Apply(states[k], steps[k], answer);
    hide Distinct, Listed, Apply, Fired, Leaves;
    StepKeepsDistinct(states, steps, answer, k);
    StaysUnlisted(states[k], steps[k], answer, id);
    if k < i { NeverAgain(states, steps, answer, k + 1, id, i); }
  }

  // An alarm started with n ticks, by any run: the first call comes on the
  // (n + 1)-th tick after the start.
  lemma StartedOnSchedule(states: seq<Sys>, steps: seq<Step>, answer: (nat, nat) -> nat, k: nat, i: nat)
    requires IsRun(states, steps, answer) && k < i < |steps| && steps[k].DoStart?
    requires steps[k].n < WRAP - 1 || states[k].now % WRAP == WRAP - 1
    requires forall j :: k < j <= i ==> Leaves(steps[j], steps[k].id)
    ensures var (id, start) := (steps[k].id, states[k].now);
      id in Fired(states[i], steps[i], answer) <==>
        steps[i].DoTick? && FiresAt(start + steps[k].n + 1, t => answer(t, id), states[i + 1].now)
  {
    var s, id, n := states[k], steps[k].id, steps[k].n;
    assert states[k + 1] == Apply(s, steps[k], answer);
    StartIsRight(id, n, s.now);
    DueHead(StartedAlarm(id, n, s.now % WRAP), s.alarms, s.now, s.now + n + 1);
    hide AlarmOk, Due, FiresAt, Fired;
    FiresOnSchedule(states, steps, answer, k + 1, id, s.now + n + 1, i);
  }

  // A callback that always answers p fires on exactly every p-th tick from
  // the first.
  lemma {:induction false} PeriodicSchedule(due: nat, p: nat, answer: nat -> nat, t: nat)
    requires p > 0 && forall u :: answer(u) == p
    ensures FiresAt(due, answer, t) <==> t >= due && (t - due) % p == 0
    decreases if due <= t then t - due else 0
  {
    if t > due {
      PeriodicSchedule(due + p, p, answer, t);
      if t >= due + p {
        OneLess(t - due, p);
      } else {
        assert (t - due) % p == t - due;
      }
    }
  }
}
