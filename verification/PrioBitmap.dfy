/** Two-level priority bitmaps: a group byte over rows of eight priorities.

  OSRdyGrp/OSRdyTbl and every event's OSEventGrp/OSEventTbl have this shape
  (OS_LOWEST_PRIO <= 63).  A pair that satisfies GroupOk is exactly a set of
  priorities, and the lemmas say what the kernel's inline code does to it.
*/
module PrioBitmap {
  import opened Bits

  predicate Has(tbl: seq<bv8>, p: nat) {
    p / 8 < |tbl| && Bit8(tbl[p / 8], p % 8)
  }

  function Members(tbl: seq<bv8>): set<nat> {
    set p | 0 <= p < 8 * |tbl| && Has(tbl, p)
  }

  predicate GroupOk(grp: bv8, tbl: seq<bv8>) {
    |tbl| <= 8 && forall y :: 0 <= y < 8 ==> (Bit8(grp, y) <==> y < |tbl| && tbl[y] != 0)
  }

  // Only the row y of p changed, to `row`, and the group became grp'.
  predicate Changed(grp: bv8, tbl: seq<bv8>, grp': bv8, row: bv8, p: nat, has: bool) {
    && p / 8 < |tbl|
    && (forall j :: 0 <= j < 8 ==> (Bit8(row, j) <==> if j == p % 8 then has else Bit8(tbl[p / 8], j)))
    && (forall y :: 0 <= y < 8 ==> (Bit8(grp', y) <==> if y == p / 8 then row != 0 else Bit8(grp, y)))
  }

  lemma ChangedSet(grp: bv8, tbl: seq<bv8>, grp': bv8, row: bv8, p: nat, has: bool)
    requires GroupOk(grp, tbl) && Changed(grp, tbl, grp', row, p, has)
    ensures GroupOk(grp', tbl[p / 8 := row])
    ensures Members(tbl[p / 8 := row]) == if has then Members(tbl) + {p} else Members(tbl) - {p}
  {
    hide Bit8;
    var tbl' := tbl[p / 8 := row];
    forall q | 0 <= q < 8 * |tbl| ensures Has(tbl', q) <==> if q == p then has else Has(tbl, q) {
      if q / 8 == p / 8 && q != p { assert q % 8 != p % 8; }
    }
  }

  // grp |= bitY; tbl[y] |= bitX.
  lemma Inserted(grp: bv8, tbl: seq<bv8>, p: nat, bitX: bv8, bitY: bv8)
    requires GroupOk(grp, tbl) && p / 8 < |tbl| && IsMask(bitX, p % 8) && IsMask(bitY, p / 8)
    ensures GroupOk(Or8(grp, bitY), tbl[p / 8 := Or8(tbl[p / 8], bitX)])
    ensures Members(tbl[p / 8 := Or8(tbl[p / 8], bitX)]) == Members(tbl) + {p}
  {
    hide Or8, Bit8, IsMask;
    var row, grp' := Or8(tbl[p / 8], bitX), Or8(grp, bitY);
    forall j | 0 <= j < 8 ensures Bit8(row, j) <==> if j == p % 8 then true else Bit8(tbl[p / 8], j) {
      SetBit(tbl[p / 8], bitX, p % 8, j);
    }
    assert Bit8(row, p % 8);
    ZeroByte(row);
    forall y | 0 <= y < 8 ensures Bit8(grp', y) <==> if y == p / 8 then row != 0 else Bit8(grp, y) {
      SetBit(grp, bitY, p / 8, y);
    }
    ChangedSet(grp, tbl, grp', row, p, true);
  }

  // tbl[y] &= ~bitX; if (tbl[y] == 0) grp &= ~bitY.
  lemma Removed(grp: bv8, tbl: seq<bv8>, p: nat, bitX: bv8, bitY: bv8)
    requires GroupOk(grp, tbl) && p / 8 < |tbl| && IsMask(bitX, p % 8) && IsMask(bitY, p / 8)
    ensures var row := AndNot8(tbl[p / 8], bitX);
      && GroupOk(if row == 0 then AndNot8(grp, bitY) else grp, tbl[p / 8 := row])
      && Members(tbl[p / 8 := row]) == Members(tbl) - {p}
  {
    hide AndNot8, Bit8, IsMask;
    var row := AndNot8(tbl[p / 8], bitX);
    var grp' := if row == 0 then AndNot8(grp, bitY) else grp;
    forall j | 0 <= j < 8 ensures Bit8(row, j) <==> if j == p % 8 then false else Bit8(tbl[p / 8], j) {
      ClearBit(tbl[p / 8], bitX, p % 8, j);
    }
    RemovedGroup(grp, tbl, p / 8, bitX, bitY, row, grp');
    ChangedSet(grp, tbl, grp', row, p, false);
  }

  lemma RemovedGroup(grp: bv8, tbl: seq<bv8>, z: nat, bitX: bv8, bitY: bv8, row: bv8, grp': bv8)
    requires GroupOk(grp, tbl) && z < |tbl| && IsMask(bitY, z)
    requires row == AndNot8(tbl[z], bitX) && grp' == if row == 0 then AndNot8(grp, bitY) else grp
    ensures forall y :: 0 <= y < 8 ==> (Bit8(grp', y) <==> if y == z then row != 0 else Bit8(grp, y))
  {
    hide AndNot8, Bit8, IsMask;
    forall y | 0 <= y < 8 ensures Bit8(grp', y) <==> if y == z then row != 0 else Bit8(grp, y) {
      if row == 0 { ClearBit(grp, bitY, z, y); } else { SmallerRow(tbl[z], bitX); }
    }
  }

  lemma SmallerRow(row: bv8, m: bv8)
    requires AndNot8(row, m) != 0
    ensures row != 0
  {
  }

  lemma NonzeroRow(tbl: seq<bv8>, q: nat)
    requires Has(tbl, q)
    ensures tbl[q / 8] != 0
  {
    ZeroByte(tbl[q / 8]);
  }

  // OS_EventWaitListInit and OS_InitRdyList: group and rows all zero.
  lemma Cleared(tbl: seq<bv8>)
    requires |tbl| <= 8 && forall y :: 0 <= y < |tbl| ==> tbl[y] == 0
    ensures GroupOk(0, tbl) && Members(tbl) == {}
  {
    ZeroByte(0);
  }

  lemma EmptyIff(grp: bv8, tbl: seq<bv8>)
    requires GroupOk(grp, tbl)
    ensures grp == 0 <==> Members(tbl) == {}
  {
    hide Bit8, UnMap;
    if grp == 0 {
      ZeroByte(grp);
      forall y | 0 <= y < |tbl| ensures tbl[y] == 0 { assert !Bit8(grp, y); }
      Cleared(tbl);
    } else {
      Top(grp, tbl);
    }
  }

  // The two table lookups of OS_SchedNew and OS_EventTaskRdy.
  function Highest(grp: bv8, tbl: seq<bv8>): nat
    requires UnMap(grp) < |tbl|
  {
    8 * UnMap(grp) + UnMap(tbl[UnMap(grp)])
  }

  // They find the least member.
  lemma Top(grp: bv8, tbl: seq<bv8>)
    requires GroupOk(grp, tbl) && grp != 0
    ensures UnMap(grp) < |tbl|
    ensures Highest(grp, tbl) in Members(tbl)
    ensures forall q :: q in Members(tbl) ==> Highest(grp, tbl) <= q
  {
    hide Bit8, UnMap;
    UnMapIsLowest(grp);
    var y := UnMap(grp);
    UnMapIsLowest(tbl[y]);
    assert Has(tbl, Highest(grp, tbl));
    forall q | q in Members(tbl) ensures Highest(grp, tbl) <= q {
      NonzeroRow(tbl, q);
      assert Bit8(grp, q / 8);
    }
  }
}
