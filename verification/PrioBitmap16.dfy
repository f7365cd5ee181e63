/** The same two-level bitmaps with sixteen priorities to a row, as compiled for
  OS_LOWEST_PRIO > 63: the lookups split each word into two bytes. */
module PrioBitmap16 {
  import opened Bits

  function Lo(v: bv16): bv8 {
    (v & 0xFF) as bv8
  }

  function Hi(v: bv16): bv8 {
    ((v >> 8) & 0xFF) as bv8
  }

  predicate Bit16(v: bv16, k: nat) {
    if k < 8 then Bit8(Lo(v), k) else Bit8(Hi(v), k - 8)
  }

  // m == 1 << k
  predicate IsMask16(m: bv16, k: nat) {
    if k < 8 then IsMask(Lo(m), k) && Hi(m) == 0 else Lo(m) == 0 && IsMask(Hi(m), k - 8)
  }

  function Or16(v: bv16, m: bv16): bv16 {
    v | m
  }

  function AndNot16(v: bv16, m: bv16): bv16 {
    v & !m
  }

  predicate Has(tbl: seq<bv16>, p: nat) {
    p / 16 < |tbl| && Bit16(tbl[p / 16], p % 16)
  }

  function Members(tbl: seq<bv16>): set<nat> {
    set p | 0 <= p < 16 * |tbl| && Has(tbl, p)
  }

  predicate GroupOk(grp: bv16, tbl: seq<bv16>) {
    |tbl| <= 16 && forall y :: 0 <= y < 16 ==> (Bit16(grp, y) <==> y < |tbl| && tbl[y] != 0)
  }

  lemma OrBytes(v: bv16, m: bv16)
    ensures Lo(Or16(v, m)) == Or8(Lo(v), Lo(m)) && Hi(Or16(v, m)) == Or8(Hi(v), Hi(m))
  {
  }

  lemma AndNotBytes(v: bv16, m: bv16)
    ensures Lo(AndNot16(v, m)) == AndNot8(Lo(v), Lo(m)) && Hi(AndNot16(v, m)) == AndNot8(Hi(v), Hi(m))
  {
  }

  lemma NoMask(v: bv8)
    ensures Or8(v, 0) == v && AndNot8(v, 0) == v
  {
  }

  lemma ZeroWord(v: bv16)
    ensures v == 0 <==> Lo(v) == 0 && Hi(v) == 0
  {
  }

  lemma SetBit16(v: bv16, m: bv16, k: nat, j: nat)
    requires IsMask16(m, k)
    ensures Bit16(Or16(v, m), j) <==> j == k || Bit16(v, j)
  {
    OrBytes(v, m);
    NoMask(Lo(v));
    NoMask(Hi(v));
    hide Lo, Hi, Or16, Or8, Bit8, IsMask;
    if j < 8 && k < 8 { SetBit(Lo(v), Lo(m), k, j); }
    if j >= 8 && k >= 8 { SetBit(Hi(v), Hi(m), k - 8, j - 8); }
  }

  lemma ClearBit16(v: bv16, m: bv16, k: nat, j: nat)
    requires IsMask16(m, k)
    ensures Bit16(AndNot16(v, m), j) <==> j != k && Bit16(v, j)
  {
    AndNotBytes(v, m);
    NoMask(Lo(v));
    NoMask(Hi(v));
    hide Lo, Hi, AndNot16, AndNot8, Bit8, IsMask;
    if j < 8 && k < 8 { ClearBit(Lo(v), Lo(m), k, j); }
    if j >= 8 && k >= 8 { ClearBit(Hi(v), Hi(m), k - 8, j - 8); }
  }

  lemma ZeroBits16(v: bv16)
    ensures v == 0 <==> forall j :: 0 <= j < 16 ==> !Bit16(v, j)
  {
    ZeroWord(v);
    ZeroByte(Lo(v));
    ZeroByte(Hi(v));
    hide Lo, Hi, Bit8;
    if Hi(v) != 0 {
      var j :| 0 <= j < 8 && Bit8(Hi(v), j);
      assert Bit16(v, j + 8);
    }
    if Lo(v) != 0 {
      var j :| 0 <= j < 8 && Bit8(Lo(v), j);
      assert Bit16(v, j);
    }
  }

  lemma ChangedSet(grp: bv16, tbl: seq<bv16>, grp': bv16, row: bv16, p: nat, has: bool)
    requires GroupOk(grp, tbl) && p / 16 < |tbl|
    requires forall j :: 0 <= j < 16 ==> (Bit16(row, j) <==> if j == p % 16 then has else Bit16(tbl[p / 16], j))
    requires forall y :: 0 <= y < 16 ==> (Bit16(grp', y) <==> if y == p / 16 then row != 0 else Bit16(grp, y))
    ensures GroupOk(grp', tbl[p / 16 := row])
    ensures Members(tbl[p / 16 := row]) == if has then Members(tbl) + {p} else Members(tbl) - {p}
  {
    hide Bit16;
    var tbl' := tbl[p / 16 := row];
    forall q | 0 <= q < 16 * |tbl| ensures Has(tbl', q) <==> if q == p then has else Has(tbl, q) {
      if q / 16 == p / 16 && q != p { assert q % 16 != p % 16; }
    }
  }

  // grp |= bitY; tbl[y] |= bitX.
  lemma Inserted(grp: bv16, tbl: seq<bv16>, p: nat, bitX: bv16, bitY: bv16)
    requires GroupOk(grp, tbl) && p / 16 < |tbl| && IsMask16(bitX, p % 16) && IsMask16(bitY, p / 16)
    ensures GroupOk(Or16(grp, bitY), tbl[p / 16 := Or16(tbl[p / 16], bitX)])
    ensures Members(tbl[p / 16 := Or16(tbl[p / 16], bitX)]) == Members(tbl) + {p}
  {
    hide Or16, Bit16, IsMask16;
    var row, grp' := Or16(tbl[p / 16], bitX), Or16(grp, bitY);
    forall j | 0 <= j < 16 ensures Bit16(row, j) <==> if j == p % 16 then true else Bit16(tbl[p / 16], j) {
      SetBit16(tbl[p / 16], bitX, p % 16, j);
    }
    assert Bit16(row, p % 16);
    ZeroBits16(row);
    forall y | 0 <= y < 16 ensures Bit16(grp', y) <==> if y == p / 16 then row != 0 else Bit16(grp, y) {
      SetBit16(grp, bitY, p / 16, y);
    }
    ChangedSet(grp, tbl, grp', row, p, true);
  }

  // tbl[y] &= ~bitX; if (tbl[y] == 0) grp &= ~bitY.
  lemma Removed(grp: bv16, tbl: seq<bv16>, p: nat, bitX: bv16, bitY: bv16)
    requires GroupOk(grp, tbl) && p / 16 < |tbl| && IsMask16(bitX, p % 16) && IsMask16(bitY, p / 16)
    ensures var row := AndNot16(tbl[p / 16], bitX);
      && GroupOk(if row == 0 then AndNot16(grp, bitY) else grp, tbl[p / 16 := row])
      && Members(tbl[p / 16 := row]) == Members(tbl) - {p}
  {
    hide AndNot16, Bit16, IsMask16;
    var row := AndNot16(tbl[p / 16], bitX);
    var grp' := if row == 0 then AndNot16(grp, bitY) else grp;
    forall j | 0 <= j < 16 ensures Bit16(row, j) <==> if j == p % 16 then false else Bit16(tbl[p / 16], j) {
      ClearBit16(tbl[p / 16], bitX, p % 16, j);
    }
    forall y | 0 <= y < 16 ensures Bit16(grp', y) <==> if y == p / 16 then row != 0 else Bit16(grp, y) {
      if row == 0 { ClearBit16(grp, bitY, p / 16, y); } else { SmallerRow16(tbl[p / 16], bitX); }
    }
    ChangedSet(grp, tbl, grp', row, p, false);
  }

  lemma SmallerRow16(row: bv16, m: bv16)
    requires AndNot16(row, m) != 0
    ensures row != 0
  {
  }

  // One lookup: the low byte first, then the high byte plus eight.
  function UnMap16(v: bv16): nat {
    if v & 0xFF != 0 then UnMap(Lo(v)) else UnMap(Hi(v)) + 8
  }

  lemma UnMap16IsLowest(v: bv16)
    requires v != 0
    ensures UnMap16(v) < 16 && Bit16(v, UnMap16(v)) && forall j :: 0 <= j < UnMap16(v) ==> !Bit16(v, j)
  {
    ZeroWord(v);
    assert v & 0xFF != 0 <==> Lo(v) != 0;
    if Lo(v) != 0 {
      UnMapIsLowest(Lo(v));
    } else {
      UnMapIsLowest(Hi(v));
      ZeroByte(Lo(v));
    }
    hide UnMap, Lo, Hi, Bit8;
  }

  function Highest(grp: bv16, tbl: seq<bv16>): nat
    requires UnMap16(grp) < |tbl|
  {
    16 * UnMap16(grp) + UnMap16(tbl[UnMap16(grp)])
  }

  // The 16-wide OS_SchedNew and OS_EventTaskRdy find the least member.
  lemma Top(grp: bv16, tbl: seq<bv16>)
    requires GroupOk(grp, tbl) && grp != 0
    ensures UnMap16(grp) < |tbl|
    ensures Highest(grp, tbl) in Members(tbl)
    ensures forall q :: q in Members(tbl) ==> Highest(grp, tbl) <= q
  {
    hide Bit16, UnMap16;
    UnMap16IsLowest(grp);
    var y := UnMap16(grp);
    UnMap16IsLowest(tbl[y]);
    assert Has(tbl, Highest(grp, tbl));
    forall q | q in Members(tbl) ensures Highest(grp, tbl) <= q {
      ZeroBits16(tbl[q / 16]);
      assert Bit16(grp, q / 16);
    }
  }
}
