/** gettimeofday and settimeofday over the tick counter. */
module WallClock {
  import opened Options
  import opened Arithmetic

  const US: nat := 1000000

  // struct timeval and struct timezone with 32-bit members.
  datatype TimeVal = TimeVal(sec: int, usec: int)

  datatype TimeZone = TimeZone(minutesWest: int, dstTime: int)

  // A value stored in a signed 32-bit member.
  function S32(x: int): (r: int)
    ensures -0x8000_0000 <= r < 0x8000_0000
  {
    (x + 0x8000_0000) % WRAP32 - 0x8000_0000
  }

  function Total(t: TimeVal): int {
    t.sec * US + t.usec
  }

  // Ticks in microseconds.
  function Micros(nticks: nat, rate: nat): nat
    requires rate > 0
  {
    nticks * (US / rate)
  }

  // alt_resettime as settimeofday leaves it: the product is a 32-bit one.
  function ResetTime(t: TimeVal, nticks: nat, rate: nat): TimeVal
    requires rate > 0
  {
    TimeVal(S32(t.sec - nticks / rate), S32(t.usec - Micros(nticks, rate) % WRAP32 % US))
  }

  // The time before normalisation in gettimeofday: the product is a 64-bit one.
  function RawTime(reset: TimeVal, nticks: nat, rate: nat): TimeVal
    requires rate > 0
  {
    TimeVal(S32(reset.sec + nticks / rate), S32(reset.usec + Micros(nticks, rate) % US))
  }

  // What the two normalisation loops are to compute: the same total with
  // 0 <= usec < US, or zero for a negative number of microseconds that the
  // seconds cannot make up for.
  function Normalised(t: TimeVal): TimeVal {
    if t.usec < 0 && Total(t) < 0 then TimeVal(0, 0)
    else TimeVal(S32(Total(t) / US), Total(t) % US)
  }

  class Clock {
    var resetTime: TimeVal
    var timeZone: TimeZone

    constructor ()
      ensures resetTime == TimeVal(0, 0) && timeZone == TimeZone(0, 0)
    {
      resetTime, timeZone := TimeVal(0, 0), TimeZone(0, 0);
    }

    // ALT_SETTIMEOFDAY; false stands for ENOSYS.
    method SetTimeOfDay(t: TimeVal, tz: TimeZone, nticks: nat, rate: nat) returns (ok: bool)
      requires nticks < WRAP32 && rate < WRAP32
      modifies this
      ensures ok <==> rate > 0
      ensures resetTime == if ok then ResetTime(t, nticks, rate) else old(resetTime)
      ensures timeZone == if ok then tz else old(timeZone)
    {
      if rate > 0 {
        resetTime := TimeVal(S32(t.sec - nticks / rate), S32(t.usec - nticks * (US / rate) % WRAP32 % US));
        timeZone := tz;
        return true;
      }
      return false;
    }

    // ALT_GETTIMEOFDAY; None stands for ENOSYS.
    method GetTimeOfDay(nticks: nat, rate: nat) returns (now: Option<TimeVal>, tz: TimeZone)
      requires nticks < WRAP32 && rate < WRAP32
      ensures now == if rate == 0 then None else Some(Normalised(RawTime(resetTime, nticks, rate)))
      ensures tz == timeZone
    {
      tz := timeZone;
      if rate == 0 {
        return None, tz;
      }
      var raw := RawTime(resetTime, nticks, rate);
      var t := Settle(raw);
      return Some(t), tz;
    }

    // The two normalisation loops.
    method Settle(raw: TimeVal) returns (t: TimeVal)
      requires raw.sec == S32(raw.sec)
      ensures t == Normalised(raw)
    {
      hide S32, Normalised;
      var sec, usec := raw.sec, raw.usec;
      while usec < 0
        invariant sec == S32(sec)
        invariant usec < 0 || raw.usec >= 0 ==> sec * US + usec == Total(raw)
        invariant usec >= 0 && raw.usec < 0 ==> sec >= 0 && sec * US + usec == if Total(raw) < 0 then 0 else Total(raw)
        decreases -usec
      {
        if sec <= 0 {
          NoWrap(0);
          sec, usec := 0, 0;
          break;
        } else {
          WordOf(sec);
          NoWrap(sec - 1);
          sec, usec := sec - 1, usec + US;
        }
      }
      ghost var total := sec * US + usec;
      ghost var q := sec;
      assert total == if raw.usec < 0 && Total(raw) < 0 then 0 else Total(raw);
      while usec >= US
        invariant usec >= 0 && sec == S32(q) && q * US + usec == total
      {
        WrapAgain(q, 1);
        sec, usec := S32(sec + 1), usec - US;
        q := q + 1;
      }
      DivMod(total, US, q, usec);
      NormalisedIs(raw, total);
      t := TimeVal(sec, usec);
    }
  }

  lemma NormalisedIs(raw: TimeVal, total: int)
    requires total == if raw.usec < 0 && Total(raw) < 0 then 0 else Total(raw)
    ensures Normalised(raw) == TimeVal(S32(total / US), total % US)
  {
  }

  lemma WordOf(x: int)
    ensures -0x8000_0000 <= S32(x) < 0x8000_0000
  {
  }

  // A sum may be wrapped at every step or only at the end.
  lemma WrapAgain(a: int, b: int)
    ensures S32(S32(a) + b) == S32(a + b)
  {
    var x := a + 0x8000_0000;
    assert S32(a) + b + 0x8000_0000 == x + b + WRAP32 * -(x / WRAP32);
    ModShift(x + b, WRAP32, -(x / WRAP32));
  }

  lemma NoWrap(x: int)
    requires -0x8000_0000 <= x < 0x8000_0000
    ensures S32(x) == x
  {
    DivMod(x + 0x8000_0000, WRAP32, 0, x + 0x8000_0000);
  }

  // ---------------------------------------------------------------------
  // Setting.

  // 32-bit and 64-bit products agree modulo one second exactly when the high
  // word of the product is a multiple of 15625 = 5^6.
  lemma ProductsAgree(x: nat)
    ensures x % WRAP32 % US == x % US <==> x / WRAP32 % 15625 == 0
  {
    var q, r := x / WRAP32, x % WRAP32;
    assert x == WRAP32 * q + r;
    assert WRAP32 == 64 * 67108864 && US == 64 * 15625;
    if q % 15625 == 0 {
      var m := q / 15625;
      assert x == r + US * (67108864 * m);
      ModShift(r, US, 67108864 * m);
    }
    if r % US == x % US {
      var k := x / US - r / US;
      assert x - r == US * k;
      assert 67108864 * q == 15625 * k;
      // 12659 inverts 2^26 modulo 5^6.
      assert q == 15625 * (12659 * k - 54369991 * q);
      DivMod(q, 15625, 12659 * k - 54369991 * q, 0);
    }
  }

  // settimeofday's product did not lose anything that shows in microseconds.
  predicate ProductOk(nticks: nat, rate: nat)
    requires rate > 0
  {
    Micros(nticks, rate) / WRAP32 % 15625 == 0
  }

  // ---------------------------------------------------------------------
  // Reading back.

  function GetTime(reset: TimeVal, nticks: nat, rate: nat): TimeVal
    requires rate > 0
  {
    Normalised(RawTime(reset, nticks, rate))
  }

  // With a rate that divides 10^6, ticks turn into seconds and microseconds
  // without rounding.
  lemma TicksToTime(n: nat, rate: nat)
    requires rate > 0 && US % rate == 0
    ensures Micros(n, rate) / US == n / rate
  {
    var k, q, r := US / rate, n / rate, n % rate;
    assert US == rate * k && n == rate * q + r;
    assert k > 0;
    TicksSplit(rate, k, q, r);
    DivMod(n * k, US, q, r * k);
  }

  lemma TicksSplit(rate: nat, k: nat, q: nat, r: nat)
    requires r < rate && k > 0
    ensures (rate * q + r) * k == rate * k * q + r * k && r * k < rate * k
  {
    Distribute(k, rate * q, r);
    Associate(k, rate, q);
    Distribute(k, rate, r);
    AtLeast(k, rate - r);
  }

  lemma MicrosBetween(n0: nat, n: nat, rate: nat)
    requires rate > 0 && n0 <= n
    ensures Micros(n, rate) == Micros(n0, rate) + Micros(n - n0, rate)
  {
    Distribute(US / rate, n0, n - n0);
  }

  // The time before normalisation: right but for what the product lost.
  lemma RawTotal(t: TimeVal, n0: nat, n: nat, rate: nat)
    requires rate > 0 && US % rate == 0
    requires 0 <= t.usec < US && -0x8000_0000 <= t.sec - n0 / rate + n / rate < 0x8000_0000
    ensures var raw := RawTime(ResetTime(t, n0, rate), n, rate); var m := Micros(n0, rate);
      && Total(raw) == Total(t) + Micros(n, rate) - m + m % US - m % WRAP32 % US
      && raw.sec == t.sec - n0 / rate + n / rate
  {
    hide Micros, S32;
    TicksToTime(n0, rate);
    TicksToTime(n, rate);
    WrapAgain(t.sec - n0 / rate, n / rate);
    NoWrap(t.sec - n0 / rate + n / rate);
    var m := Micros(n0, rate);
    WrapAgain(t.usec - m % WRAP32 % US, Micros(n, rate) % US);
    NoWrap(t.usec - m % WRAP32 % US + Micros(n, rate) % US);
  }

  // The seconds stay in range.
  lemma SecondsBound(t: TimeVal, n0: nat, n: nat, rate: nat)
    requires rate > 0 && US % rate == 0 && n0 <= n && 0 <= t.usec < US
    ensures t.sec <= t.sec - n0 / rate + n / rate <= (Total(t) + Micros(n - n0, rate)) / US + 1
  {
    hide Micros;
    TicksToTime(n0, rate);
    TicksToTime(n, rate);
    MicrosBetween(n0, n, rate);
    Ordered(n0, n, rate);
  }

  // What the 32-bit product loses, within a second.
  function Lost(nticks: nat, rate: nat): int
    requires rate > 0
  {
    var m := Micros(nticks, rate);
    m % US - m % WRAP32 % US
  }

  // Set at n0 ticks and read at n >= n0 ticks, the clock shows exactly the
  // elapsed time more, normalised, if and only if the product at the time of
  // setting was good; only a reading of time zero is also right if the loss is
  // negative, because the clamp of gettimeofday makes up for it.
  lemma SetThenGet(t: TimeVal, n0: nat, n: nat, rate: nat)
    requires rate > 0 && US % rate == 0 && n0 <= n < WRAP32
    requires 0 <= t.usec < US && 0 <= t.sec && (Total(t) + Micros(n - n0, rate)) / US < 0x7fff_ffff - 1
    ensures var x := Total(t) + Micros(n - n0, rate); var shown := GetTime(ResetTime(t, n0, rate), n, rate);
      && (x > 0 ==> (shown == TimeVal(x / US, x % US) <==> ProductOk(n0, rate)))
      && (x == 0 ==> (shown == TimeVal(0, 0) <==> Lost(n0, rate) <= 0))
      && (ProductOk(n0, rate) <==> Lost(n0, rate) == 0)
  {
    hide Micros;
    var x, m := Total(t) + Micros(n - n0, rate), Micros(n0, rate);
    MicrosBetween(n0, n, rate);
    SecondsBound(t, n0, n, rate);
    RawTotal(t, n0, n, rate);
    ProductsAgree(m);
    Shown(RawTime(ResetTime(t, n0, rate), n, rate), x, Lost(n0, rate));
  }

  // What normalisation makes of a total that is off by less than a second.
  lemma Shown(raw: TimeVal, x: nat, off: int)
    requires Total(raw) == x + off && 0 - US < off < US && x / US < 0x7fff_ffff - 1 && raw.sec >= 0
    ensures Normalised(raw) == TimeVal(x / US, x % US) <==> off == 0 || (x == 0 && off < 0)
  {
    if x + off >= 0 {
      NoWrap((x + off) / US);
    } else {
      assert raw.usec < 0;
    }
  }

  lemma MicrosPart(n: nat, rate: nat)
    requires rate > 0 && US % rate == 0
    ensures Micros(n, rate) % US == n % rate * (US / rate) < US
  {
    var k, q, r := US / rate, n / rate, n % rate;
    assert US == rate * k && n == rate * q + r;
    assert k > 0;
    TicksSplit(rate, k, q, r);
    DivMod(n * k, US, q, r * k);
  }

  // Normalisation keeps the total if that is not negative, and the seconds fit;
  // a negative one with microseconds below zero becomes time zero.
  lemma NormalisedKeeps(t: TimeVal)
    ensures t.usec < 0 && Total(t) < 0 ==> Normalised(t) == TimeVal(0, 0)
    ensures 0 <= Total(t) < 0x8000_0000 * US ==>
              0 <= Normalised(t).usec < 1000000 && Normalised(t).sec * 1000000 + Normalised(t).usec == Total(t)
  {
    if 0 <= Total(t) < 0x8000_0000 * US { NoWrap(Total(t) / US); }
  }

  // A clock that was never set shows the time since it was started.
  lemma NeverSet(n: nat, rate: nat)
    requires rate > 0 && US % rate == 0 && n / rate < 0x7fff_ffff
    ensures GetTime(TimeVal(0, 0), n, rate) == TimeVal(n / rate, n % rate * (1000000 / rate))
  {
    hide S32, Micros;
    var sec, usec := n / rate, n % rate * (US / rate);
    MicrosPart(n, rate);
    NoWrap(sec);
    NoWrap(usec);
    assert RawTime(TimeVal(0, 0), n, rate) == TimeVal(sec, usec);
    NormalAlready(sec, usec);
  }

  lemma NormalAlready(sec: nat, usec: nat)
    requires sec < 0x7fff_ffff && usec < US
    ensures Normalised(TimeVal(sec, usec)) == TimeVal(sec, usec)
  {
    NoWrap(sec);
    DivMod(sec * US + usec, US, sec, usec);
  }

  // So the clock is right whenever the product fits in 32 bits.
  lemma SmallProduct(t: TimeVal, n0: nat, n: nat, rate: nat)
    requires rate > 0 && US % rate == 0 && n0 <= n < WRAP32 && Micros(n0, rate) < WRAP32
    requires 0 <= t.usec < US && 0 <= t.sec && (Total(t) + Micros(n - n0, rate)) / US < 0x7fff_ffff - 1
    ensures var x := Total(t) + Micros(n - n0, rate);
      GetTime(ResetTime(t, n0, rate), n, rate) == TimeVal(x / US, x % US)
  {
    hide Micros, GetTime, ResetTime, Lost;
    assert ProductOk(n0, rate);
    hide ProductOk;
    SetThenGet(t, n0, n, rate);
  }

  // It can be wrong: at 100 ticks a second, set to ten seconds just after the
  // product has passed 2^32, the clock reads almost a second more at once.
  lemma LossExample()
    ensures GetTime(ResetTime(TimeVal(10, 0), 429497, 100), 429497, 100) == TimeVal(10, 967296)
    ensures !ProductOk(429497, 100)
  {
    var m := Micros(429497, 100);
    assert m == WRAP32 + 2704 && m % WRAP32 % US == 2704 && m % US == 970000 && 429497 / 100 == 4294;
    assert !ProductOk(429497, 100);
    hide S32, Micros, ProductOk;
    NoWrap(10 - 4294);
    NoWrap(0 - 2704);
    NoWrap(10);
    NoWrap(967296);
  }

  // An immediate read-back shows the time that was set, and later reads never
  // show an earlier time.
  lemma ReadBackAndMonotone(t: TimeVal, n0: nat, n1: nat, n2: nat, rate: nat)
    requires rate > 0 && US % rate == 0 && n0 <= n1 <= n2 < WRAP32 && ProductOk(n0, rate)
    requires 0 <= t.usec < US && 0 <= t.sec && (Total(t) + Micros(n2 - n0, rate)) / US < 0x7fff_ffff - 1
    ensures var reset := ResetTime(t, n0, rate);
      && GetTime(reset, n0, rate) == t
      && Total(GetTime(reset, n1, rate)) <= Total(GetTime(reset, n2, rate))
  {
    MicrosBetween(0, 0, rate);
    MicrosBetween(n1 - n0, n2 - n0, rate);
    hide Micros, ProductOk, GetTime, ResetTime;
    Ordered(Total(t), Total(t) + Micros(n2 - n0, rate), US);
    Ordered(Total(t) + Micros(n1 - n0, rate), Total(t) + Micros(n2 - n0, rate), US);
    SetThenGet(t, n0, n0, rate);
    SetThenGet(t, n0, n1, rate);
    SetThenGet(t, n0, n2, rate);
    DivMod(Total(t), US, t.sec, t.usec);
  }
}
