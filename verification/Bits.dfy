/** Single bytes: one-bit masks and OSUnMapTbl. */
module Bits {

  // OSUnMapTbl, laid out in the rows of 16 entries in which it is written.
  const UNMAP_TBL: seq<seq<nat>> := [
    [0, 0, 1, 0, 2, 0, 1, 0, 3, 0, 1, 0, 2, 0, 1, 0],
    [4, 0, 1, 0, 2, 0, 1, 0, 3, 0, 1, 0, 2, 0, 1, 0],
    [5, 0, 1, 0, 2, 0, 1, 0, 3, 0, 1, 0, 2, 0, 1, 0],
    [4, 0, 1, 0, 2, 0, 1, 0, 3, 0, 1, 0, 2, 0, 1, 0],
    [6, 0, 1, 0, 2, 0, 1, 0, 3, 0, 1, 0, 2, 0, 1, 0],
    [4, 0, 1, 0, 2, 0, 1, 0, 3, 0, 1, 0, 2, 0, 1, 0],
    [5, 0, 1, 0, 2, 0, 1, 0, 3, 0, 1, 0, 2, 0, 1, 0],
    [4, 0, 1, 0, 2, 0, 1, 0, 3, 0, 1, 0, 2, 0, 1, 0],
    [7, 0, 1, 0, 2, 0, 1, 0, 3, 0, 1, 0, 2, 0, 1, 0],
    [4, 0, 1, 0, 2, 0, 1, 0, 3, 0, 1, 0, 2, 0, 1, 0],
    [5, 0, 1, 0, 2, 0, 1, 0, 3, 0, 1, 0, 2, 0, 1, 0],
    [4, 0, 1, 0, 2, 0, 1, 0, 3, 0, 1, 0, 2, 0, 1, 0],
    [6, 0, 1, 0, 2, 0, 1, 0, 3, 0, 1, 0, 2, 0, 1, 0],
    [4, 0, 1, 0, 2, 0, 1, 0, 3, 0, 1, 0, 2, 0, 1, 0],
    [5, 0, 1, 0, 2, 0, 1, 0, 3, 0, 1, 0, 2, 0, 1, 0],
    [4, 0, 1, 0, 2, 0, 1, 0, 3, 0, 1, 0, 2, 0, 1, 0]]

  // OSUnMapTbl[v]: row v >> 4, column v & 15.
  function UnMap(v: bv8): nat {
    TableAt((v >> 4) as nat, (v & 15) as nat)
  }

  function TableAt(h: nat, l: nat): nat
    requires h < 16 && l < 16
  {
    assert |UNMAP_TBL| == 16;
    var row := UNMAP_TBL[h];
    assert |row| == 16;
    row[l]
  }

  // Bit k of v, counted from the low end.
  predicate Bit8(v: bv8, k: nat) {
    BitAt(v, k)
  }

  predicate BitAt(v: bv8, k: nat)
    decreases k
  {
    if k == 0 then v & 1 == 1 else BitAt(v >> 1, k - 1)
  }

  // The two updates of a byte by a mask: v |= m and v &= ~m.
  function Or8(v: bv8, m: bv8): bv8 {
    v | m
  }

  function AndNot8(v: bv8, m: bv8): bv8 {
    v & !m
  }

  // m == 1 << k: the masks kept in OSTCBBitX and OSTCBBitY.
  predicate IsMask(m: bv8, k: nat)
    decreases k
  {
    if k == 0 then m == 1 else m & 1 == 0 && IsMask(m >> 1, k - 1)
  }

  lemma ShiftIsMask(k: nat)
    requires k < 8
    ensures IsMask(1 << k, k)
  {
    assert IsMask(1, 0) && IsMask(2, 1) && IsMask(4, 2) && IsMask(8, 3);
    assert IsMask(16, 4) && IsMask(32, 5) && IsMask(64, 6) && IsMask(128, 7);
  }

  lemma {:induction false} SetBit(v: bv8, m: bv8, k: nat, j: nat)
    requires IsMask(m, k)
    ensures Bit8(Or8(v, m), j) <==> j == k || Bit8(v, j)
    decreases k
  {
    if k == 0 {
      OrOne(v);
    } else if j > 0 {
      SetBit(v >> 1, m >> 1, k - 1, j - 1);
      OrShift(v, m);
    } else {
      OrLow(v, m);
    }
  }

  lemma {:induction false} ClearBit(v: bv8, m: bv8, k: nat, j: nat)
    requires IsMask(m, k)
    ensures Bit8(AndNot8(v, m), j) <==> j != k && Bit8(v, j)
    decreases k
  {
    if k == 0 {
      AndNotOne(v);
    } else if j > 0 {
      ClearBit(v >> 1, m >> 1, k - 1, j - 1);
      AndNotShift(v, m);
    } else {
      AndNotLow(v, m);
    }
  }

  lemma OrOne(v: bv8)
    ensures (v | 1) & 1 == 1 && (v | 1) >> 1 == v >> 1
  {
  }

  lemma OrShift(v: bv8, m: bv8)
    ensures (v | m) >> 1 == (v >> 1) | (m >> 1)
  {
  }

  lemma OrLow(v: bv8, m: bv8)
    requires m & 1 == 0
    ensures (v | m) & 1 == v & 1
  {
  }

  lemma AndNotOne(v: bv8)
    ensures (v & !1) & 1 == 0 && (v & !1) >> 1 == v >> 1
  {
  }

  lemma AndNotShift(v: bv8, m: bv8)
    ensures (v & !m) >> 1 == (v >> 1) & !(m >> 1)
  {
  }

  lemma AndNotLow(v: bv8, m: bv8)
    requires m & 1 == 0
    ensures (v & !m) & 1 == v & 1
  {
  }

  lemma ZeroByte(v: bv8)
    ensures v == 0 <==> forall j :: 0 <= j < 8 ==> !Bit8(v, j)
  {
    if v == 0 {
      forall j | 0 <= j < 8 ensures !Bit8(v, j) { ZeroBits(j); }
    } else {
      LowestSet(v);
      var r := LowBit(v);
      assert 0 <= r < 8 && Bit8(v, r);
    }
  }

  lemma {:induction false} ZeroBits(j: nat)
    ensures !Bit8(0, j)
  {
    if j > 0 { ZeroBits(j - 1); assert (0 as bv8) >> 1 == 0; }
  }

  // The lowest set bit, without a table.
  function LowBit(v: bv8): nat
    requires v != 0
  {
    if v & 1 != 0 then 0 else if v & 2 != 0 then 1 else if v & 4 != 0 then 2 else if v & 8 != 0 then 3
    else if v & 16 != 0 then 4 else if v & 32 != 0 then 5 else if v & 64 != 0 then 6 else 7
  }

  lemma LowestSet(v: bv8)
    requires v != 0
    ensures LowBit(v) < 8 && Bit8(v, LowBit(v)) && forall j :: 0 <= j < LowBit(v) ==> !Bit8(v, j)
  {
    BitIs(v);
  }

  lemma BitIs(v: bv8)
    ensures Bit8(v, 0) <==> v & 1 != 0
    ensures Bit8(v, 1) <==> v & 2 != 0
    ensures Bit8(v, 2) <==> v & 4 != 0
    ensures Bit8(v, 3) <==> v & 8 != 0
    ensures Bit8(v, 4) <==> v & 16 != 0
    ensures Bit8(v, 5) <==> v & 32 != 0
    ensures Bit8(v, 6) <==> v & 64 != 0
    ensures Bit8(v, 7) <==> v & 128 != 0
  {
  }

  function NibbleLow(n: nat): nat {
    if n % 2 == 1 then 0 else if n % 4 == 2 then 1 else if n % 8 == 4 then 2 else 3
  }

  function TableRow(first: nat): seq<nat> {
    [first, 0, 1, 0, 2, 0, 1, 0, 3, 0, 1, 0, 2, 0, 1, 0]
  }

  // Every row is the same but for its first entry.
  lemma RowShape(h: nat)
    requires h < 16
    ensures |UNMAP_TBL| == 16 && UNMAP_TBL[h] == TableRow(if h == 0 then 0 else 4 + NibbleLow(h))
  {
  }

  lemma ColumnShape(first: nat, l: nat)
    requires 0 < l < 16
    ensures TableRow(first)[l] == NibbleLow(l)
  {
  }

  lemma TableShape(h: nat, l: nat)
    requires h < 16 && l < 16 && (h != 0 || l != 0)
    ensures TableAt(h, l) == if l != 0 then NibbleLow(l) else 4 + NibbleLow(h)
  {
    RowShape(h);
    if l != 0 { ColumnShape(if h == 0 then 0 else 4 + NibbleLow(h), l); }
  }

  lemma NibbleIs(w: bv8)
    requires 0 < w < 16
    ensures w as nat != 0 && NibbleLow(w as nat) == LowBit(w)
  {
    if w == 1 {} else if w == 2 {} else if w == 3 {} else if w == 4 {} else if w == 5 {} else if w == 6 {}
    else if w == 7 {} else if w == 8 {} else if w == 9 {} else if w == 10 {} else if w == 11 {} else if w == 12 {}
    else if w == 13 {} else if w == 14 {} else {}
  }

  // All 255 useful entries of the table.
  lemma UnMapIsLowest(v: bv8)
    requires v != 0
    ensures UnMap(v) < 8 && Bit8(v, UnMap(v)) && forall j :: 0 <= j < UnMap(v) ==> !Bit8(v, j)
  {
    TableShape((v >> 4) as nat, (v & 15) as nat);
    if v & 15 != 0 { NibbleIs(v & 15); } else { NibbleIs(v >> 4); }
    assert UnMap(v) == LowBit(v);
    LowestSet(v);
  }
}
