/** usleep: whole ticks in delays of at most 0xffff, then a busy loop. */
module SleepSplit {
  import opened Arithmetic

  const US: nat := 1000000
  const MAX_DELAY: nat := 0xffff

  // The tick count of ALT_USLEEP in 32-bit arithmetic.
  function TickCount(us: nat, rate: nat): nat {
    ((us / US) * rate % WRAP32 + us % US * rate % WRAP32 / US) % WRAP32
  }

  function Sum(delays: seq<nat>): nat {
    if delays == [] then 0 else delays[0] + Sum(delays[1..])
  }

  lemma {:induction false} SumAppend(delays: seq<nat>, d: nat)
    ensures Sum(delays + [d]) == Sum(delays) + d
  {
    if delays == [] {
      assert [] + [d] == [d];
    } else {
      assert (delays + [d])[1..] == delays[1..] + [d];
      SumAppend(delays[1..], d);
    }
  }

  // ALT_USLEEP: the arguments of the calls of OSTimeDly, in order, and of
  // alt_busy_sleep.  Before multitasking starts it only loops.
  method USleep(us: nat, rate: nat, running: bool) returns (delays: seq<nat>, busy: nat)
    requires us < WRAP32 && 0 < rate <= US
    ensures running ==> Sum(delays) == TickCount(us, rate)
    ensures running ==> busy == us % (US / rate) && |delays| >= 1 && delays[|delays| - 1] <= 0xffff
    ensures running ==> forall i :: 0 <= i < |delays| - 1 ==> delays[i] == 0xffff
    ensures !running ==> delays == [] && busy == us
  {
    delays := [];
    if !running {
      return [], us;
    }
    AtLeastOne(rate);
    var ticks := ((us / US) * rate % WRAP32 + us % US * rate % WRAP32 / US) % WRAP32;
    while ticks > MAX_DELAY
      invariant ticks >= 0 && ticks + Sum(delays) == TickCount(us, rate)
      invariant forall i :: 0 <= i < |delays| ==> delays[i] == MAX_DELAY
    {
      SumAppend(delays, MAX_DELAY);
      delays := delays + [MAX_DELAY];
      ticks := ticks - MAX_DELAY;
    }
    SumAppend(delays, ticks);
    delays := delays + [ticks];
    busy := us % (US / rate);
  }

  lemma AtLeastOne(rate: nat)
    requires 0 < rate <= US
    ensures US / rate >= 1
  {
    assert US == rate * (US / rate) + US % rate;
  }

  // The tick count is the exact number of whole ticks if and only if the
  // 32-bit product of the fraction does not overflow.
  lemma TicksExact(us: nat, rate: nat)
    requires us < WRAP32 && 0 < rate <= US
    ensures TickCount(us, rate) == us * rate / US <==> us % US * rate < WRAP32
  {
    var q, r := us / US, us % US;
    assert us == US * q + r;
    Distribute(rate, US * q, r);
    Associate(rate, US, q);
    assert us * rate == US * (q * rate) + r * rate;
    ModShift(r * rate, US, q * rate);
    assert us * rate / US == q * rate + r * rate / US;
    WholeBound(us, rate);
    SmallMod(q * rate);
    LessAfterWrap(r * rate);
    var low := r * rate % WRAP32 / US;
    assert q * rate + low <= us * rate / US < WRAP32;
    SmallMod(q * rate + low);
  }

  lemma WholeBound(us: nat, rate: nat)
    requires us < WRAP32 && 0 < rate <= US
    ensures us * rate / US <= us && us / US * rate <= us
  {
    Scaled(us, rate, US);
    Ordered(us * rate, us * US, US);
    DivMod(us * US, US, us, 0);
    Scaled(us / US, rate, US);
  }

  lemma SmallMod(x: nat)
    requires x < WRAP32
    ensures x % WRAP32 == x
  {
  }

  lemma LessAfterWrap(x: nat)
    ensures x % WRAP32 / US <= x / US
    ensures x % WRAP32 / US == x / US <==> x < WRAP32
  {
  }

  // With a rate that divides 10^6 the delays and the busy loop together take
  // exactly the requested time.
  lemma SleepExact(us: nat, rate: nat)
    requires us < WRAP32 && 0 < rate <= US && US % rate == 0
    ensures US / rate >= 1 && (TickCount(us, rate) * (US / rate) + us % (US / rate) == us <==> us % US * rate < WRAP32)
  {
    var k := US / rate;
    AtLeastOne(rate);
    TicksExact(us, rate);
    WholeTicks(us, rate);
    var ticks := TickCount(us, rate);
    hide TickCount;
    assert us == k * (us / k) + us % k;
    Cancel(k, ticks, us / k);
  }

  lemma WholeTicks(us: nat, rate: nat)
    requires 0 < rate <= US && US % rate == 0 && US / rate >= 1
    ensures us * rate / US == us / (US / rate)
  {
    var k := US / rate;
    var q, r := us / k, us % k;
    assert US == rate * k && us == k * q + r;
    Distribute(rate, k * q, r);
    Associate(rate, k, q);
    Distribute(rate, k, r);
    AtLeast(rate, k - r);
    DivMod(us * rate, US, q, r * rate);
  }
}
