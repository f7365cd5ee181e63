/** Two independent integer printers of the HAL: the div/mod printer of
  alt_log_private_printf and the shift/mask printer of alt_printf. */
module Printers {
  import opened Arithmetic

  const SIGN_BIT: nat := 0x8000_0000

  function Power(b: nat, k: nat): nat {
    if k == 0 then 1 else b * Power(b, k - 1)
  }

  function DigitChar(d: nat, upper: bool): char
    requires d < 16
  {
    if d <= 9 then '0' + d as char else (if upper then 'A' else 'a') + (d - 10) as char
  }

  function DigitValue(c: char): nat {
    if '0' <= c <= '9' then (c - '0') as nat
    else if 'a' <= c <= 'f' then 10 + (c - 'a') as nat
    else if 'A' <= c <= 'F' then 10 + (c - 'A') as nat
    else 0
  }

  // The numeral of v, most significant digit first, without leading zeros.
  function Numeral(v: nat, b: nat, upper: bool): (s: string)
    requires 2 <= b <= 16
    ensures |s| >= 1 && (v > 0 ==> s[0] != '0')
    decreases v
  {
    if v < b then [DigitChar(v, upper)]
    else
      Shrinks(v, b);
      Numeral(Div(v, b), b, upper) + [DigitChar(Mod(v, b), upper)]
  }

  // The number a numeral denotes.
  function Number(s: string, b: nat): nat {
    if s == [] then 0 else b * Number(s[..|s| - 1], b) + DigitValue(s[|s| - 1])
  }

  function Repeat(c: char, n: int): (s: string)
    ensures |s| == (if n > 0 then n else 0) && forall i :: 0 <= i < |s| ==> s[i] == c
  {
    if n <= 0 then [] else [c] + Repeat(c, n - 1)
  }

  // Zeros go between the sign and the digits, blanks before the sign.
  function Layout(neg: bool, digits: string, width: int, zeros: bool): string {
    var sign := if neg then "-" else "";
    var pad := width - |digits| - |sign|;
    if zeros then sign + Repeat('0', pad) + digits else Repeat(' ', pad) + sign + digits
  }

  // How a reader takes the printed text: blanks, a sign, digits.
  function Parse(s: string, b: nat): int {
    if s == [] then 0
    else if s[0] == ' ' then Parse(s[1..], b)
    else if s[0] == '-' then 0 - Number(s[1..], b)
    else Number(s, b)
  }

  lemma Shrinks(v: nat, b: nat)
    requires 2 <= b <= v
    ensures 0 < Div(v, b) < v && Mod(v, b) < b
  {
    DivModOf(v, b);
    hide Div, Mod;
    var q := Div(v, b);
    if q <= 0 { Scaled(b, q, 0); }
    if q >= v { Scaled(b, v, q); AtLeast(v, b - 1); Distribute(v, b, 1); }
  }

  // ---------------------------------------------------------------------
  // Reading back.

  lemma DigitReads(d: nat, upper: bool)
    requires d < 16
    ensures DigitValue(DigitChar(d, upper)) == d
    ensures DigitChar(d, upper) != ' ' && DigitChar(d, upper) != '-'
  {
  }

  lemma {:induction false} NumeralReads(v: nat, b: nat, upper: bool)
    requires 2 <= b <= 16
    ensures Number(Numeral(v, b, upper), b) == v
    ensures var s := Numeral(v, b, upper); s[0] != ' ' && s[0] != '-'
    decreases v
  {
    hide Div, Mod, DigitChar, DigitValue;
    if v < b {
      DigitReads(v, upper);
      NumberMore([], DigitChar(v, upper), b);
      assert [] + [DigitChar(v, upper)] == Numeral(v, b, upper);
    } else {
      Shrinks(v, b);
      DivModOf(v, b);
      NumeralReads(Div(v, b), b, upper);
      DigitReads(Mod(v, b), upper);
      NumberMore(Numeral(Div(v, b), b, upper), DigitChar(Mod(v, b), upper), b);
    }
  }

  lemma NumberMore(s: string, c: char, b: nat)
    ensures Number(s + [c], b) == b * Number(s, b) + DigitValue(c)
  {
    assert (s + [c])[..|s|] == s;
  }

  lemma {:induction false} ZerosRead(n: int, s: string, b: nat)
    ensures Number(Repeat('0', n) + s, b) == Number(s, b)
    decreases |s|, n
  {
    var z := Repeat('0', n);
    if s == [] {
      assert z + [] == z;
      if n > 0 {
        ZerosRead(n - 1, [], b);
        RepeatInit('0', n);
        assert Repeat('0', n - 1) + [] == Repeat('0', n - 1);
        assert b * 0 == 0;
      }
    } else {
      var t := z + s;
      assert t[..|t| - 1] == z + s[..|s| - 1];
      ZerosRead(n, s[..|s| - 1], b);
    }
  }

  lemma {:induction false} RepeatInit(c: char, n: int)
    requires n > 0
    ensures Repeat(c, n)[..n - 1] == Repeat(c, n - 1)
  {
  }

  lemma {:induction false} BlanksParse(n: int, s: string, b: nat)
    ensures Parse(Repeat(' ', n) + s, b) == Parse(s, b)
    decreases n
  {
    if n > 0 {
      var t := Repeat(' ', n) + s;
      assert t[1..] == Repeat(' ', n - 1) + s;
      BlanksParse(n - 1, s, b);
    } else {
      assert Repeat(' ', n) + s == s;
    }
  }

  // The printed text reads back as the number, has the length asked for or
  // what the number needs, and keeps all of its digits.
  lemma LayoutReads(neg: bool, v: nat, b: nat, upper: bool, width: int, zeros: bool)
    requires 2 <= b <= 16
    ensures var s := Layout(neg, Numeral(v, b, upper), width, zeros);
      var need := |Numeral(v, b, upper)| + (if neg then 1 else 0);
      && Parse(s, b) == (if neg then 0 - v else v)
      && |s| == (if width > need then width else need)
  {
    var digits := Numeral(v, b, upper);
    var pad := width - |digits| - (if neg then 1 else 0);
    NumeralReads(v, b, upper);
    hide Numeral, Number;
    if zeros { ZerosParse(neg, digits, pad, b); } else { BlanksFirst(neg, digits, pad, b); }
  }

  lemma ZerosParse(neg: bool, digits: string, pad: int, b: nat)
    requires digits != [] && digits[0] != ' ' && digits[0] != '-'
    ensures var s := (if neg then "-" else "") + Repeat('0', pad) + digits;
      Parse(s, b) == (if neg then 0 - Number(digits, b) else Number(digits, b))
  {
    var zeros := Repeat('0', pad);
    var body := zeros + digits;
    ZerosRead(pad, digits, b);
    assert body[0] == if zeros == [] then digits[0] else zeros[0];
    hide Number, Repeat;
    NumberParses(body, b);
    SignParses(body, b);
    if neg { Grouped("-", zeros, digits); } else { Grouped("", zeros, digits); assert "" + body == body; }
  }

  lemma Grouped(a: string, b: string, c: string)
    ensures a + b + c == a + (b + c)
  {
  }

  lemma SignParses(s: string, b: nat)
    ensures Parse("-" + s, b) == 0 - Number(s, b)
  {
    assert ("-" + s)[1..] == s;
  }

  lemma NumberParses(s: string, b: nat)
    requires s != [] && s[0] != ' ' && s[0] != '-'
    ensures Parse(s, b) == Number(s, b)
  {
  }

  lemma BlanksFirst(neg: bool, digits: string, pad: int, b: nat)
    requires digits != [] && digits[0] != ' ' && digits[0] != '-'
    ensures var s := Repeat(' ', pad) + (if neg then "-" else "") + digits;
      Parse(s, b) == (if neg then 0 - Number(digits, b) else Number(digits, b))
  {
    var sign := if neg then "-" else "";
    BlanksParse(pad, sign + digits, b);
    assert Repeat(' ', pad) + sign + digits == Repeat(' ', pad) + (sign + digits);
    hide Number;
    if neg { assert ("-" + digits)[1..] == digits; } else { assert "" + digits == digits; }
  }

  // ---------------------------------------------------------------------
  // The characters.

  // Digits of base b, with letters of the one case only.
  predicate Lettered(s: string, b: nat, upper: bool) {
    forall i :: 0 <= i < |s| ==>
      && ('0' <= s[i] <= '9' || if upper then 'A' <= s[i] <= 'F' else 'a' <= s[i] <= 'f')
      && DigitValue(s[i]) < b
  }

  lemma {:induction false} NumeralLettered(v: nat, b: nat, upper: bool)
    requires 2 <= b <= 16
    ensures Lettered(Numeral(v, b, upper), b, upper)
    decreases v
  {
    hide Div, Mod;
    if v < b {
      DigitReads(v, upper);
    } else {
      Shrinks(v, b);
      DigitReads(Mod(v, b), upper);
      NumeralLettered(Div(v, b), b, upper);
    }
  }

  // What each character of the output is: with zero padding the sign, zeros
  // and the digits; else blanks, the sign and the digits.  The digits are in
  // the case of the directive and without a leading zero.
  lemma LayoutShape(neg: bool, v: nat, b: nat, upper: bool, width: int, zeros: bool)
    requires 2 <= b <= 16
    ensures var s := Layout(neg, Numeral(v, b, upper), width, zeros);
      var first := |s| - |Numeral(v, b, upper)|; var sign := if neg then 1 else 0;
      && sign <= first < |s| && Lettered(s[first..], b, upper) && (v > 0 ==> s[first] != '0')
      && (neg ==> s[if zeros then 0 else first - 1] == '-')
      && (zeros ==> forall i :: sign <= i < first ==> s[i] == '0')
      && (!zeros ==> forall i :: 0 <= i < first - sign ==> s[i] == ' ')
  {
    NumeralLettered(v, b, upper);
    var digits := Numeral(v, b, upper);
    var s := Layout(neg, digits, width, zeros);
    assert s[|s| - |digits|..] == digits;
    hide Numeral, Repeat, Lettered;
  }

  // ---------------------------------------------------------------------
  // Digits by place value, as both printers produce them.

  // Exactly k digits of v < b^k, from the place b^(k-1) down.
  function Places(v: nat, b: nat, k: nat, upper: bool): (s: string)
    requires 2 <= b <= 16 && v < Power(b, k)
    ensures |s| == k
    decreases k
  {
    if k == 0 then []
    else
      PlaceValue(v, b, k);
      [DigitChar(Div(v, Power(b, k - 1)), upper)] + Places(Mod(v, Power(b, k - 1)), b, k - 1, upper)
  }

  lemma PowerPositive(b: nat, k: nat)
    requires b >= 1
    ensures Power(b, k) >= 1
  {
    if k > 0 {
      PowerPositive(b, k - 1);
      AtLeast(b, Power(b, k - 1));
    }
  }

  lemma PlaceValue(v: nat, b: nat, k: nat)
    requires b >= 1 && k > 0 && v < Power(b, k)
    ensures Power(b, k - 1) >= 1 && Div(v, Power(b, k - 1)) < b && Mod(v, Power(b, k - 1)) < Power(b, k - 1)
  {
    PowerPositive(b, k - 1);
    var p := Power(b, k - 1);
    DivModOf(v, p);
    hide Div, Mod;
    if Div(v, p) >= b { Scaled(p, b, Div(v, p)); Associate(p, b, 1); }
  }

  // Printing the highest place of what is left.
  lemma FirstPlace(out: string, v: nat, b: nat, k: nat, upper: bool)
    requires 2 <= b <= 16 && k > 0 && v < Power(b, k)
    ensures Power(b, k - 1) >= 1 && Div(v, Power(b, k - 1)) < b && Mod(v, Power(b, k - 1)) < Power(b, k - 1)
    ensures var p := Power(b, k - 1);
      out + Places(v, b, k, upper) == out + [DigitChar(Div(v, p), upper)] + Places(Mod(v, p), b, k - 1, upper)
  {
    hide Div, Mod, DigitChar;
    PlaceValue(v, b, k);
    var p := Power(b, k - 1);
    Grouped(out, [DigitChar(Div(v, p), upper)], Places(Mod(v, p), b, k - 1, upper));
  }

  lemma NoPlaces(out: string, v: nat, b: nat, upper: bool)
    requires 2 <= b <= 16 && v < Power(b, 0)
    ensures out + Places(v, b, 0, upper) == out
  {
  }

  // The lowest place split off, as Numeral does it.
  lemma {:induction false} LastPlace(v: nat, b: nat, k: nat, upper: bool)
    requires 2 <= b <= 16 && k > 0 && v < Power(b, k)
    ensures Div(v, b) < Power(b, k - 1) && Mod(v, b) < b
    ensures Places(v, b, k, upper) == Places(Div(v, b), b, k - 1, upper) + [DigitChar(Mod(v, b), upper)]
    decreases k
  {
    hide Div, Mod, DigitChar;
    PlaceValue(v, b, k);
    DivModOf(v, b);
    Below(v, b, Power(b, k - 1));
    if k == 1 {
      One(v, b);
      assert Places(v, b, 1, upper) == [DigitChar(Div(v, 1), upper)] + Places(Mod(v, 1), b, 0, upper);
      assert Places(Div(v, b), b, 0, upper) == [];
    } else {
      var p := Power(b, k - 2);
      PowerPositive(b, k - 2);
      Nested(v, b, p);
      LastPlace(Mod(v, b * p), b, k - 1, upper);
      var d := [DigitChar(Div(v, b * p), upper)];
      Grouped(d, Places(Mod(Div(v, b), p), b, k - 2, upper), [DigitChar(Mod(v, b), upper)]);
      assert Places(Div(v, b), b, k - 1, upper) == d + Places(Mod(Div(v, b), p), b, k - 2, upper);
    }
  }

  lemma One(v: nat, b: nat)
    requires v < b
    ensures Div(v, 1) == v && Mod(v, 1) == 0 && Div(v, b) == 0 && Mod(v, b) == v
  {
    DivModIs(v, b, 0, v);
  }

  lemma Below(v: nat, b: nat, p: nat)
    requires b > 0 && v < b * p
    ensures Div(v, b) < p
  {
    DivModOf(v, b);
    hide Div, Mod;
    if Div(v, b) >= p { Scaled(b, p, Div(v, b)); }
  }

  // Division by b * p, in two steps.
  lemma Nested(v: nat, b: nat, p: nat)
    requires b > 0 && p > 0
    ensures b * p > 0 && Div(v, b * p) == Div(Div(v, b), p) && Div(Mod(v, b * p), b) == Mod(Div(v, b), p)
    ensures Mod(Mod(v, b * p), b) == Mod(v, b)
  {
    AtLeast(b, p);
    DivModOf(v, b);
    var q, r := Div(v, b), Mod(v, b);
    DivModOf(q, p);
    var q', r' := Div(q, p), Mod(q, p);
    hide Div, Mod;
    Distribute(b, p * q', r');
    Associate(b, p, q');
    assert v == (b * p) * q' + (b * r' + r);
    Scaled(b, r', p - 1);
    Distribute(b, p, 1);
    DivModIs(v, b * p, q', b * r' + r);
    DivModIs(b * r' + r, b, r', r);
  }

  // Enough places without a leading zero are the numeral.
  lemma {:induction false} PlacesAreNumeral(v: nat, b: nat, k: nat, upper: bool)
    requires 2 <= b <= 16 && k > 0 && v < Power(b, k) && (k > 1 ==> Power(b, k - 1) <= v)
    ensures Places(v, b, k, upper) == Numeral(v, b, upper)
    decreases k
  {
    hide Div, Mod, DigitChar;
    LastPlace(v, b, k, upper);
    if k == 1 {
      One(v, b);
      assert Power(b, 1) == b * Power(b, 0);
      assert Places(0, b, 0, upper) == [];
    } else {
      var q := Div(v, b);
      DivModOf(v, b);
      if k > 2 && q < Power(b, k - 2) { Scaled(b, q, Power(b, k - 2) - 1); Distribute(b, Power(b, k - 2), 1); }
      PowerPositive(b, k - 2);
      AtLeast(b, Power(b, k - 2));
      PlacesAreNumeral(q, b, k - 1, upper);
    }
  }

  // ---------------------------------------------------------------------
  // The div/mod printer.

  // alt_log_repchar
  method RepChar(c: char, r: int) returns (out: string)
    ensures out == Repeat(c, r)
  {
    out := [];
    var n := r;
    while n > 0
      invariant out == (if r <= 0 then [] else Repeat(c, r - n)) && n <= r && (n >= 0 || n == r)
      decreases n
    {
      RepeatMore(c, r - n);
      out := out + [c];
      n := n - 1;
    }
  }

  lemma {:induction false} RepeatMore(c: char, n: int)
    requires n >= 0
    ensures Repeat(c, n + 1) == Repeat(c, n) + [c]
    decreases n
  {
    if n > 0 {
      RepeatMore(c, n - 1);
      Grouped([c], Repeat(c, n - 1), [c]);
    }
  }

  // The digit count and the largest place value: p is not wrapped on the way
  // although it is a 32-bit product.
  method CountDigits(v: nat, b: nat) returns (p: nat, digitCount: nat)
    requires v < WRAP32 && 2 <= b <= 16
    ensures digitCount >= 1 && p == Power(b, digitCount - 1)
    ensures v < Power(b, digitCount) && (digitCount > 1 ==> p <= v)
  {
    hide Power, Div, Mod;
    p, digitCount := 1, 1;
    var vShrink := Div(v, b);
    OnePlace(b);
    while vShrink > 0
      invariant digitCount >= 1 && p == Power(b, digitCount - 1) && (digitCount > 1 ==> p <= v)
      invariant Power(b, digitCount) >= 1 && vShrink == Div(v, Power(b, digitCount))
      decreases vShrink
    {
      NextPlace(v, b, digitCount);
      digitCount := digitCount + 1;
      p := Mod(p * b, WRAP32);
      vShrink := Div(vShrink, b);
    }
    NoPlaceLeft(v, Power(b, digitCount));
  }

  lemma OnePlace(b: nat)
    requires b >= 2
    ensures Power(b, 0) == 1 && Power(b, 1) == b
  {
  }

  // One round of the count: as long as b^k is at most v, a 32-bit product
  // makes it from b^(k - 1).
  lemma NextPlace(v: nat, b: nat, k: nat)
    requires b >= 2 && k >= 1 && v < WRAP32 && Power(b, k) >= 1 && Div(v, Power(b, k)) > 0
    ensures Power(b, k) <= v && Mod(Power(b, k - 1) * b, WRAP32) == Power(b, k) && Power(b, k + 1) >= 1
    ensures Div(Div(v, Power(b, k)), b) == Div(v, Power(b, k + 1)) && Div(v, Power(b, k + 1)) < Div(v, Power(b, k))
  {
    hide Power, Div, Mod;
    var p := Power(b, k);
    NoPlaceLeft(v, p);
    DivModIs(p, WRAP32, 0, p);
    PowerPositive(b, k + 1);
    PowerStep(b, k - 1);
    PowerStep(b, k);
    Nested(v, p, b);
    if Div(v, p) < b {
      DivModIs(Div(v, p), b, 0, Div(v, p));
    } else {
      Shrinks(Div(v, p), b);
    }
  }

  lemma PowerStep(b: nat, k: nat)
    ensures Power(b, k + 1) == Power(b, k) * b
  {
  }

  lemma NoPlaceLeft(v: nat, p: nat)
    requires p >= 1
    ensures Div(v, p) == 0 <==> v < p
  {
    DivModOf(v, p);
    if v < p { DivModIs(v, p, 0, v); }
  }

  // One character of the digit loop.
  method DigitOf(d: nat, upper: bool) returns (c: char)
    requires d < 16
    ensures c == DigitChar(d, upper)
  {
    var code := d + '0' as int;
    if code > '9' as int {
      code := code + (if upper then 'A' else 'a') as int - '0' as int - 10;
    }
    c := code as char;
  }

  // The digit loop.
  method PrintDigits(v0: nat, p0: nat, b: nat, upper: bool, ghost digitCount: nat) returns (out: string)
    requires 2 <= b <= 16 && digitCount >= 1 && p0 == Power(b, digitCount - 1) && v0 < Power(b, digitCount)
    ensures out == Places(v0, b, digitCount, upper)
  {
    hide Div, Mod, DigitChar, Places;
    var v: nat, p: nat := v0, p0;
    ghost var k: nat := digitCount;
    out := [];
    assert [] + Places(v0, b, k, upper) == Places(v0, b, k, upper);
    PowerPositive(b, k - 1);
    while p > 0
      invariant k <= digitCount && p == (if k == 0 then 0 else Power(b, k - 1)) && v < Power(b, k)
      invariant out + Places(v, b, k, upper) == Places(v0, b, digitCount, upper)
      decreases k
    {
      FirstPlace(out, v, b, k, upper);
      LowerPlace(b, k);
      var c := DigitOf(Div(v, p), upper);
      out := out + [c];
      v := Mod(v, p);
      p := Div(p, b);
      k := k - 1;
    }
    PowerPositive(b, k);
    NoPlaces(out, v, b, upper);
  }

  lemma LowerPlace(b: nat, k: nat)
    requires b >= 2 && k >= 1
    ensures Div(Power(b, k - 1), b) == if k == 1 then 0 else Power(b, k - 2)
    ensures k > 1 ==> Power(b, k - 2) >= 1
  {
    if k > 1 {
      PowerPositive(b, k - 2);
      DivMod(Power(b, k - 1), b, Power(b, k - 2), 0);
    } else {
      DivMod(1, b, 0, 1);
    }
  }

  // The integer directives of alt_log_private_printf on the 32-bit argument
  // arg; width is -1 when the directive has none.
  method LogInteger(arg: nat, signed: bool, b: nat, upper: bool, width: int, zeros: bool) returns (out: string)
    requires arg < WRAP32 && (b == 8 || b == 10 || b == 16)
    ensures var neg := signed && arg >= SIGN_BIT; var mag := if neg then WRAP32 - arg else arg;
      && out == Layout(neg, Numeral(mag, b, upper), width, zeros)
      && |out| >= |Numeral(mag, b, upper)| && Lettered(out[|out| - |Numeral(mag, b, upper)|..], b, upper)
  {
    hide Layout, Numeral, Lettered;
    LayoutShape(signed && arg >= SIGN_BIT, if signed && arg >= SIGN_BIT then WRAP32 - arg else arg, b, upper, width,
                zeros);
    var v := arg;
    var sign := false;
    if signed && v >= SIGN_BIT {
      v := (WRAP32 - 1 - v + 1) % WRAP32;
      sign := true;
    }
    out := PrintSigned(sign, v, b, upper, width, zeros);
  }

  // The same once the sign is stripped.
  method PrintSigned(sign: bool, v: nat, b: nat, upper: bool, width: int, zeros: bool) returns (out: string)
    requires v < WRAP32 && 2 <= b <= 16
    ensures out == Layout(sign, Numeral(v, b, upper), width, zeros)
  {
    hide Power, Numeral, Places, Repeat, Layout;
    var p, digitCount := CountDigits(v, b);
    PlacesAreNumeral(v, b, digitCount, upper);
    var lead := PrintLead(sign, width - digitCount, zeros);
    var digits := PrintDigits(v, p, b, upper, digitCount);
    out := lead + digits;
    LayoutParts(sign, digits, width, zeros);
  }

  lemma LayoutParts(neg: bool, digits: string, width: int, zeros: bool)
    ensures var pad := width - |digits| - (if neg then 1 else 0); var minus := if neg then "-" else "";
      Layout(neg, digits, width, zeros) ==
        (if zeros then minus + Repeat('0', pad) else Repeat(' ', pad) + minus) + digits
  {
  }

  // The leading characters and the sign.
  method PrintLead(sign: bool, width: int, zeros: bool) returns (out: string)
    ensures var pad := width - (if sign then 1 else 0); var minus := if sign then "-" else "";
      out == if zeros then minus + Repeat('0', pad) else Repeat(' ', pad) + minus
  {
    hide Repeat;
    var before := width;
    out := [];
    if zeros {
      if sign {
        out := out + "-";
        before := before - 1;
      }
      var lead := RepChar('0', before);
      out := out + lead;
    } else {
      if sign {
        before := before - 1;
      }
      var lead := RepChar(' ', before);
      out := lead + if sign then "-" else "";
    }
  }

  // What the printed text of an integer directive reads back as.
  function Signed(arg: nat): int
    requires arg < WRAP32
  {
    if arg >= SIGN_BIT then arg - WRAP32 else arg
  }

  lemma IntegerReads(arg: nat, signed: bool, b: nat, upper: bool, width: int, zeros: bool)
    requires arg < WRAP32 && 2 <= b <= 16
    ensures var neg := signed && arg >= SIGN_BIT; var mag := if neg then WRAP32 - arg else arg;
      Parse(Layout(neg, Numeral(mag, b, upper), width, zeros), b) == if signed then Signed(arg) else arg
  {
    var neg := signed && arg >= SIGN_BIT;
    LayoutReads(neg, if neg then WRAP32 - arg else arg, b, upper, width, zeros);
  }

  // ---------------------------------------------------------------------
  // The shift/mask printer.

  // (v & (0xF << shift)) >> shift
  function Nibble(v: nat, shift: nat): nat {
    PowerPositive(2, shift);
    Mod(Div(v, Power(2, shift)), 16)
  }

  lemma {:induction false} ShiftIsPower(k: nat)
    ensures Power(2, 4 * k) == Power(16, k) >= 1
  {
    if k > 0 {
      ShiftIsPower(k - 1);
      assert Power(2, 4 * k) == 2 * Power(2, 4 * k - 1);
      assert Power(2, 4 * k - 1) == 2 * Power(2, 4 * k - 2);
      assert Power(2, 4 * k - 2) == 2 * Power(2, 4 * k - 3);
      assert Power(2, 4 * k - 3) == 2 * Power(2, 4 * (k - 1));
    }
  }

  // A nibble is a place of the hexadecimal numeral.
  lemma NibbleIsPlace(v: nat, k: nat)
    requires k >= 1
    ensures Power(16, k) >= 1 && Power(16, k - 1) >= 1
    ensures Nibble(v, 4 * (k - 1)) == Div(Mod(v, Power(16, k)), Power(16, k - 1)) < 16
    ensures Mod(Mod(v, Power(16, k)), Power(16, k - 1)) == Mod(v, Power(16, k - 1))
  {
    ShiftIsPower(k - 1);
    var p := Power(16, k - 1);
    Nested(v, p, 16);
    DivModOf(Div(v, p), 16);
  }

  method HexDigit(digit: nat) returns (c: char)
    requires digit < 16
    ensures c == DigitChar(digit, false)
  {
    if digit <= 9 {
      c := '0' + digit as char;
    } else {
      c := 'a' + (digit - 10) as char;
    }
  }

  // The first nonzero digit of v; k - 1 is its place.
  method FirstDigit(v: nat) returns (digitShift: nat, ghost k: nat)
    requires 0 < v < WRAP32
    ensures digitShift == 4 * (k - 1) && 1 <= k <= 8 && v < Power(16, k) && Power(16, k - 1) <= v
  {
    digitShift, k := 28, 8;
    assert Power(16, 8) == WRAP32;
    hide Nibble, Power;
    while Nibble(v, digitShift) == 0
      invariant digitShift == 4 * (k - 1) && 1 <= k <= 8 && v < Power(16, k)
      decreases k
    {
      LeadingZero(v, k);
      digitShift, k := digitShift - 4, k - 1;
    }
    FirstNibble(v, k);
  }

  // The digit loop.
  method PrintNibbles(v: nat, firstShift: nat, ghost digits: nat) returns (out: string)
    requires digits >= 1 && firstShift == 4 * (digits - 1) && v < Power(16, digits)
    ensures out == Places(v, 16, digits, false)
  {
    hide Div, Mod, DigitChar, Nibble, Power, Places;
    var digitShift: int := firstShift;
    ghost var k := digits;
    out := [];
    ghost var all := Places(v, 16, k, false);
    DivModIs(v, Power(16, k), 0, v);
    assert [] + all == all;
    while digitShift >= 0
      invariant digitShift + 4 == 4 * k && Power(16, k) >= 1 && Mod(v, Power(16, k)) < Power(16, k)
      invariant out + Places(Mod(v, Power(16, k)), 16, k, false) == all
      decreases k
    {
      NibbleIsPlace(v, k);
      FirstPlace(out, Mod(v, Power(16, k)), 16, k, false);
      DivModOf(v, Power(16, k - 1));
      var c := HexDigit(Nibble(v, digitShift));
      out := out + [c];
      digitShift, k := digitShift - 4, k - 1;
    }
    AtZero(v);
    NoPlaces(out, Mod(v, Power(16, 0)), 16, false);
  }

  // The %x directive of alt_printf.
  method PrintHex(v: nat) returns (out: string)
    requires v < WRAP32
    ensures out == Numeral(v, 16, false)
    ensures forall i :: 0 <= i < |out| ==> '0' <= out[i] <= '9' || 'a' <= out[i] <= 'f'
  {
    NumeralLettered(v, 16, false);
    if v == 0 {
      return "0";
    }
    var digitShift;
    ghost var k;
    digitShift, k := FirstDigit(v);
    PlacesAreNumeral(v, 16, k, false);
    out := PrintNibbles(v, digitShift, k);
  }

  lemma AtZero(v: nat)
    ensures Power(16, 0) == 1 && Mod(v, 1) == 0
  {
  }

  lemma LeadingZero(v: nat, k: nat)
    requires 1 <= k && 0 < v < Power(16, k) && Nibble(v, 4 * (k - 1)) == 0
    ensures k > 1 && v < Power(16, k - 1)
  {
    NibbleIsPlace(v, k);
    DivModIs(v, Power(16, k), 0, v);
    DivModOf(v, Power(16, k - 1));
  }

  lemma FirstNibble(v: nat, k: nat)
    requires 1 <= k && 0 < v < Power(16, k) && Nibble(v, 4 * (k - 1)) != 0
    ensures Power(16, k - 1) <= v && Power(16, k) >= 1
  {
    NibbleIsPlace(v, k);
    DivModIs(v, Power(16, k), 0, v);
    DivModOf(v, Power(16, k - 1));
    AtLeast(Power(16, k - 1), Div(v, Power(16, k - 1)));
  }

  // Without a width, %x comes out the same from both printers: each prints
  // this numeral.
  lemma PlainLayout(v: nat, b: nat, upper: bool, zeros: bool)
    requires 2 <= b <= 16
    ensures Layout(false, Numeral(v, b, upper), -1, zeros) == Numeral(v, b, upper)
  {
    var digits := Numeral(v, b, upper);
    assert "" + [] + digits == digits && [] + "" + digits == digits;
  }
}
