/** Flushing a memory region out of the caches.

  A flush instruction acts on the line of the address it is given.  Addresses
  are 32 bits wide: a region that reaches the last line of the address space
  makes the end pointer or the loop pointer wrap, and the lemmas at the end say
  what comes of that.
*/
module CacheFlush {
  import opened Arithmetic

  const ICACHE_SIZE: nat := 4096
  const ICACHE_LINE: nat := 32
  const DCACHE_SIZE: nat := 2048
  const DCACHE_LINE: nat := 4

  // The line of an address, and a line that holds part of a region.
  function Line(a: nat, size: nat): nat
    requires size > 0
  {
    Div(a, size)
  }

  predicate Touches(line: nat, start: nat, len: nat, size: nat)
    requires size > 0
  {
    len > 0 && Line(start, size) <= line <= Line(start + len - 1, size)
  }

  function Rounds(len: nat, size: nat): nat
    requires size > 0
  {
    Div(len + size - 1, size)
  }

  // The j-th address given to the flush instruction.
  function Address(start: nat, size: nat, j: nat): nat {
    start + size * j
  }

  // All of them, in order.
  function Flushes(start: nat, len: nat, size: nat): (s: seq<nat>)
    requires size > 0
    ensures |s| == Rounds(len, size) + (if Mod(start, size) != 0 then 1 else 0)
    ensures forall j :: 0 <= j < |s| ==> s[j] == Address(start, size, j)
  {
    seq(Rounds(len, size) + (if Mod(start, size) != 0 then 1 else 0), j requires j >= 0 => Address(start, size, j))
  }

  // The loop ends, because its pointer passes the end of the region without
  // wrapping, or because the end pointer itself has wrapped to zero.
  predicate Ends(start: nat, len: nat, size: nat)
    requires size > 0
  {
    start + len == WRAP32 || Address(start, size, Rounds(len, size)) < WRAP32
  }

  // The loop and the extra flush of both functions.
  method FlushLines(start: nat, len: nat, size: nat) returns (flushed: seq<nat>)
    requires size > 0 && start < WRAP32 && start + len <= WRAP32 && Ends(start, len, size)
    ensures flushed == Flushes(start, if start + len < WRAP32 then len else 0, size)
  {
    hide Mod, Rounds, Address, Flushes;
    flushed := [];
    var end := (start + len) % WRAP32;
    var i := start;
    ghost var n := if start + len < WRAP32 then len else 0;
    assert end == if start + len < WRAP32 then start + n else 0;
    assert end > 0 ==> Address(start, size, Rounds(n, size)) < WRAP32;
    FirstPointer(start, size);
    while i < end
      invariant i == Address(start, size, |flushed|) && start <= i < start + n + size
      invariant |flushed| <= Rounds(n, size)
      invariant forall j :: 0 <= j < |flushed| ==> flushed[j] == Address(start, size, j)
      decreases Rounds(n, size) - |flushed|
    {
      NextPointer(start, size, |flushed|, n);
      flushed := flushed + [i];
      i := (i + size) % WRAP32;
    }
    RoundsAre(start, n, size, |flushed|);
    if Mod(start, size) != 0 {
      flushed := flushed + [i];
    }
  }

  lemma FirstPointer(start: nat, size: nat)
    ensures Address(start, size, 0) == start
  {
  }

  lemma RoundsOf(len: nat, size: nat)
    requires size > 0
    ensures len <= size * Rounds(len, size) < len + size
  {
    DivModOf(len + size - 1, size);
  }

  // A pointer before the end has rounds left and does not wrap.
  lemma NextPointer(start: nat, size: nat, j: nat, n: nat)
    requires size > 0 && Address(start, size, j) < start + n && j <= Rounds(n, size)
    requires Address(start, size, Rounds(n, size)) < WRAP32
    ensures j < Rounds(n, size)
    ensures start <= (Address(start, size, j) + size) % WRAP32 == Address(start, size, j + 1) < start + n + size
  {
    hide Rounds;
    RoundsOf(n, size);
    Distribute(size, j, 1);
    Scaled(size, j + 1, if j < Rounds(n, size) then Rounds(n, size) else j + 1);
  }

  lemma RoundsAre(start: nat, len: nat, size: nat, n: nat)
    requires size > 0 && start + len <= Address(start, size, n) < start + len + size
    ensures n == Rounds(len, size)
  {
    DivModIs(len + size - 1, size, n, len + size - 1 - size * n);
  }

  function Capped(len: nat, cap: nat): nat {
    if len > cap then cap else len
  }

  // alt_icache_flush: the length is capped at the size of the cache.
  method FlushInstructions(start: nat, len: nat) returns (flushed: seq<nat>)
    requires start < WRAP32 && len < WRAP32
    requires start + Capped(len, ICACHE_SIZE) <= WRAP32 && Ends(start, Capped(len, ICACHE_SIZE), ICACHE_LINE)
    ensures var n := Capped(len, ICACHE_SIZE);
      flushed == Flushes(start, if start + n < WRAP32 then n else 0, ICACHE_LINE)
  {
    var n := len;
    if n > ICACHE_SIZE {
      n := ICACHE_SIZE;
    }
    flushed := FlushLines(start, n, ICACHE_LINE);
  }

  // alt_dcache_flush: capped only if lines are flushed by index.
  method FlushData(start: nat, len: nat, byAddress: bool) returns (flushed: seq<nat>)
    requires start < WRAP32 && len < WRAP32
    requires var n := if byAddress then len else Capped(len, DCACHE_SIZE);
      start + n <= WRAP32 && Ends(start, n, DCACHE_LINE)
    ensures var n := if byAddress then len else Capped(len, DCACHE_SIZE);
      flushed == Flushes(start, if start + n < WRAP32 then n else 0, DCACHE_LINE)
  {
    var n := len;
    if !byAddress {
      if n > DCACHE_SIZE {
        n := DCACHE_SIZE;
      }
    }
    flushed := FlushLines(start, n, DCACHE_LINE);
  }

  lemma LineOf(start: nat, size: nat, j: nat)
    requires size > 0
    ensures Line(start + size * j, size) == Line(start, size) + j
  {
    ModShift(start, size, j);
  }

  // Where the region ends: within one line of the last round.
  lemma LastLine(start: nat, len: nat, size: nat)
    requires size > 0 && len > 0
    ensures Rounds(len, size) >= 1
    ensures Line(start, size) + Rounds(len, size) - 1 <= Line(start + len - 1, size)
    ensures Line(start + len - 1, size) <=
              Line(start, size) + Rounds(len, size) - (if Mod(start, size) == 0 then 1 else 0)
  {
    var n := Rounds(len, size);
    DivModOf(len + size - 1, size);
    DivModOf(start, size);
    DivModOf(start + len - 1, size);
    hide Div, Mod;
    var a, r, z := Line(start, size), Mod(start, size), Line(start + len - 1, size);
    if n < 1 { Scaled(size, n, 0); }
    Distribute(size, a + n, 1);
    Distribute(size, a, n);
    if z < a + n - 1 { Scaled(size, z + 1, a + n - 1); Distribute(size, z, 1); }
    var most := a + n - (if r == 0 then 1 else 0);
    if z > most { Scaled(size, most + 1, z); Distribute(size, most, 1); }
  }

  // Every line of the region is flushed once, and nothing else but, for an
  // unaligned start, the line after the region.
  lemma RegionCovered(start: nat, len: nat, size: nat)
    requires size > 0 && len > 0
    ensures var s := Flushes(start, len, size);
      && (forall line :: Touches(line, start, len, size) ==> exists j :: 0 <= j < |s| && Line(s[j], size) == line)
      && (forall j :: 0 <= j < |s| ==>
            || Touches(Line(s[j], size), start, len, size)
            || (start % size != 0 && Line(s[j], size) == Line(start + len - 1, size) + 1))
      && (forall i, j :: 0 <= i < j < |s| ==> Line(s[i], size) < Line(s[j], size))
  {
    var s, a := Flushes(start, len, size), Line(start, size);
    LastLine(start, len, size);
    hide Div, Mod, Line;
    forall line | Touches(line, start, len, size) ensures exists j :: 0 <= j < |s| && Line(s[j], size) == line {
      LineOf(start, size, line - a);
      assert Line(s[line - a], size) == line;
    }
    forall j | 0 <= j < |s|
      ensures Touches(Line(s[j], size), start, len, size) ||
              (Mod(start, size) != 0 && Line(s[j], size) == Line(start + len - 1, size) + 1)
    {
      LineOf(start, size, j);
    }
    forall i, j | 0 <= i < j < |s| ensures Line(s[i], size) < Line(s[j], size) {
      LineOf(start, size, i);
      LineOf(start, size, j);
    }
  }

  // An empty region is nothing, but for an unaligned start.
  lemma EmptyRegion(start: nat, size: nat)
    requires size > 0
    ensures Flushes(start, 0, size) == if start % size != 0 then [start] else []
  {
    RoundsAre(0, 0, size, 0);
    assert Address(start, size, 0) == start;
  }

  // In a direct-mapped cache of `lines` lines a line can only be in the place
  // of its number modulo `lines`.
  function Place(line: nat, lines: nat): nat
    requires lines > 0
  {
    Mod(line, lines)
  }

  // Flushing as much as the whole cache reaches the place of every line there
  // is, so the cap loses nothing: however long the region, the place of each
  // of its lines is flushed.
  lemma CapCovers(start: nat, len: nat, size: nat, lines: nat, line: nat)
    requires size > 0 && lines > 0 && Touches(line, start, len, size)
    ensures var cap := size * lines; var s := Flushes(start, if len > cap then cap else len, size);
      exists j :: 0 <= j < |s| && Place(Line(s[j], size), lines) == Place(line, lines)
  {
    var cap, a := size * lines, Line(start, size);
    if len > cap {
      var s := Flushes(start, cap, size);
      RoundsAre(0, cap, size, lines);
      var d := line - a;
      var j := Mod(d, lines);
      DivModOf(d, lines);
      LineOf(start, size, j);
      SamePlace(a + j, line, lines, Div(d, lines));
      hide Div, Mod, Line, Place;
      assert Place(Line(s[j], size), lines) == Place(line, lines);
    } else {
      RegionCovered(start, len, size);
      var s := Flushes(start, len, size);
      var j :| 0 <= j < |s| && Line(s[j], size) == line;
    }
  }

  lemma SamePlace(x: nat, y: nat, lines: nat, q: nat)
    requires lines > 0 && y == x + lines * q
    ensures Place(y, lines) == Place(x, lines)
  {
    ModShift(x, lines, q);
  }

  // Both caches of the build: the instruction cache, flushed by index and
  // capped, and the data cache, flushed by address and not capped; and the
  // data cache of a build without the flush by address.
  lemma CachesCovered(start: nat, len: nat, line: nat)
    ensures Touches(line, start, len, ICACHE_LINE) ==>
      var s := Flushes(start, Capped(len, ICACHE_SIZE), ICACHE_LINE);
      exists j :: 0 <= j < |s| && Place(Line(s[j], ICACHE_LINE), 128) == Place(line, 128)
    ensures Touches(line, start, len, DCACHE_LINE) ==>
      var s := Flushes(start, len, DCACHE_LINE);
      exists j :: 0 <= j < |s| && Line(s[j], DCACHE_LINE) == line
    ensures Touches(line, start, len, DCACHE_LINE) ==>
      var s := Flushes(start, Capped(len, DCACHE_SIZE), DCACHE_LINE);
      exists j :: 0 <= j < |s| && Place(Line(s[j], DCACHE_LINE), 512) == Place(line, 512)
  {
    if Touches(line, start, len, ICACHE_LINE) { CapCovers(start, len, ICACHE_LINE, 128, line); }
    if Touches(line, start, len, DCACHE_LINE) {
      CapCovers(start, len, DCACHE_LINE, 512, line);
      RegionCovered(start, len, DCACHE_LINE);
    }
  }

  // ---------------------------------------------------------------------
  // The last line of the address space.

  // The address of the j-th round, wrapped, is in a line of its own offset.
  lemma WrappedRound(start: nat, size: nat, lines: nat, j: nat)
    requires size > 0 && lines > 0
    ensures size * lines > 0
    ensures (start + size * j) % (size * lines) == size * Mod(Line(start, size) + j, lines) + Mod(start, size)
  {
    var b, r := Line(start, size) + j, Mod(start, size);
    DivModOf(start, size);
    DivModOf(b, lines);
    hide Div, Mod, Line;
    var q, m := Div(b, lines), Mod(b, lines);
    AtLeast(size, lines);
    Distribute(size, Line(start, size), j);
    Distribute(size, lines * q, m);
    Associate(size, lines, q);
    Scaled(size, m, lines - 1);
    Distribute(size, lines, 1);
    DivMod(start + size * j, size * lines, q, size * m + r);
  }

  // If the region ends inside the last line, the loop pointer wraps past the
  // end and is before it again in every round: the loop never ends.
  lemma NeverEnds(start: nat, len: nat, size: nat, lines: nat, j: nat)
    requires size > 0 && lines > 0 && WRAP32 == size * lines && start + len < WRAP32 && !Ends(start, len, size)
    ensures (start + size * j) % WRAP32 < start + len
  {
    var a, n := Line(start, size), Rounds(len, size);
    WrappedRound(start, size, lines, j);
    DivModOf(a + j, lines);
    DivModOf(start, size);
    RoundsOf(len, size);
    hide Div, Mod, Line, Rounds, Ends;
    var m := Mod(a + j, lines);
    assert start + size * n >= size * lines by { NotEnding(start, len, size); }
    Distribute(size, a, n);
    if a + n < lines { Scaled(size, a + n + 1, lines); Distribute(size, a + n, 1); }
    Scaled(size, m, a + n - 1);
    Distribute(size, a + n, 1);
  }

  lemma NotEnding(start: nat, len: nat, size: nat)
    requires size > 0 && start + len < WRAP32 && !Ends(start, len, size)
    ensures start + size * Rounds(len, size) >= WRAP32
  {
  }

  // If the region ends exactly at the end of the address space, the loop does
  // nothing: the region is flushed if and only if it starts unaligned inside
  // the last line.
  lemma LastRegion(start: nat, len: nat, size: nat)
    requires size > 0 && len > 0 && start + len == WRAP32
    ensures var s := Flushes(start, 0, size);
      (forall line :: Touches(line, start, len, size) ==> exists j :: 0 <= j < |s| && Line(s[j], size) == line) <==>
        Mod(start, size) != 0 && Line(start, size) == Line(WRAP32 - 1, size)
  {
    var s, a := Flushes(start, 0, size), Line(start, size);
    RoundsOf(0, size);
    assert Rounds(0, size) == 0 by { RoundsAre(0, 0, size, 0); }
    Ordered(start, WRAP32 - 1, size);
    assert a <= Line(WRAP32 - 1, size);
    hide Div, Mod, Line, Rounds;
    assert Touches(a, start, len, size) && Touches(Line(WRAP32 - 1, size), start, len, size);
    if Mod(start, size) != 0 { assert s[0] == start + size * 0; }
  }
}
