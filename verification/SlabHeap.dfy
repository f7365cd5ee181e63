/** sbrk, and the slab allocator of the profiler on top of it.

  heap_end only moves within the addresses below 2^32; the check against the
  heap limit does not wrap.
*/
module SlabHeap {
  import opened Arithmetic

  const SLAB: nat := 1020      // MCOUNT_SLAB_INCREMENT
  const FAILED: nat := 0xFFFF_FFFF   // (caddr_t) -1

  datatype Block = Block(at: nat, size: nat)

  function End(b: Block): nat {
    b.at + b.size
  }

  predicate Apart(a: Block, b: Block) {
    End(a) <= b.at || End(b) <= a.at
  }

  predicate PairwiseApart(blocks: seq<Block>) {
    forall i, j :: 0 <= i < j < |blocks| ==> Apart(blocks[i], blocks[j])
  }

  predicate Within(blocks: seq<Block>, low: nat, high: nat) {
    forall i :: 0 <= i < |blocks| ==> low <= blocks[i].at && End(blocks[i]) <= high
  }

  // (heap_end + 3) & ~3
  function AlignUp(a: nat): (r: nat)
    ensures a <= r < a + 4 && r % 4 == 0
  {
    (a + 3) / 4 * 4
  }

  // What was handed out is pairwise disjoint, inside the heap and apart from
  // the unused rest of the slab.
  predicate HeapOk(start: nat, limit: nat, heapEnd: nat, slab: Block, blocks: seq<Block>) {
    && start <= heapEnd
    && PairwiseApart(blocks) && Within(blocks, start, limit) && Within(blocks, start, heapEnd)
    && (slab.size > 0 ==> start <= slab.at && End(slab) <= limit && End(slab) <= heapEnd)
    && (slab.size > 0 ==> forall i :: 0 <= i < |blocks| ==> Apart(blocks[i], slab))
  }

  // A block from the top of the heap.
  lemma Extended(start: nat, limit: nat, heapEnd: nat, slab: Block, blocks: seq<Block>, b: Block)
    requires HeapOk(start, limit, heapEnd, slab, blocks) && heapEnd <= b.at && End(b) <= limit
    ensures HeapOk(start, limit, End(b), slab, blocks + [b])
  {
    var blocks' := blocks + [b];
    forall i, j | 0 <= i < j < |blocks'| ensures Apart(blocks'[i], blocks'[j]) {
      if j == |blocks| { assert End(blocks[i]) <= b.at; } else { assert blocks'[j] == blocks[j]; }
    }
  }

  // A new slab from the top of the heap; the rest of the old one is lost.
  lemma Renewed(start: nat, limit: nat, heapEnd: nat, slab: Block, blocks: seq<Block>, b: Block)
    requires HeapOk(start, limit, heapEnd, slab, blocks) && heapEnd <= b.at && End(b) <= limit
    ensures HeapOk(start, limit, End(b), b, blocks)
  {
  }

  lemma SlabInside(start: nat, limit: nat, heapEnd: nat, slab: Block, blocks: seq<Block>)
    requires HeapOk(start, limit, heapEnd, slab, blocks)
    ensures slab.size > 0 ==> End(slab) <= limit
  {
  }

  // A block from the slab.
  lemma Carved(start: nat, limit: nat, heapEnd: nat, slab: Block, blocks: seq<Block>, n: nat)
    requires HeapOk(start, limit, heapEnd, slab, blocks) && 0 < slab.size && n <= slab.size
    ensures HeapOk(start, limit, heapEnd, Block(slab.at + n, slab.size - n), blocks + [Block(slab.at, n)])
  {
    var b := Block(slab.at, n);
    var blocks' := blocks + [b];
    forall i, j | 0 <= i < j < |blocks'| ensures Apart(blocks'[i], blocks'[j]) {
      if j == |blocks| { assert Apart(blocks[i], slab); } else { assert blocks'[j] == blocks[j]; }
    }
    forall i | 0 <= i < |blocks'| ensures Apart(blocks'[i], Block(slab.at + n, slab.size - n)) {
      if i < |blocks| { assert Apart(blocks[i], slab); }
    }
  }

  // Everything handed out, and the rest of the slab, ends at or below `top`.
  predicate Below(slab: Block, blocks: seq<Block>, start: nat, top: nat) {
    && start <= top
    && (forall i :: 0 <= i < |blocks| ==> End(blocks[i]) <= top)
    && (slab.size > 0 ==> End(slab) <= top)
  }

  // The heap end moved down keeps the heap sound if and only if everything in
  // use is below it.
  lemma Shrunk(start: nat, limit: nat, heapEnd: nat, slab: Block, blocks: seq<Block>, top: nat)
    requires HeapOk(start, limit, heapEnd, slab, blocks)
    ensures HeapOk(start, limit, top, slab, blocks) <==> Below(slab, blocks, start, top)
  {
  }

  class Heap {
    const start: nat
    const limit: nat
    var heapEnd: nat
    var slabPtr: nat
    var slabSize: int
    ghost var blocks: seq<Block>
    ghost var slabEnd: nat

    ghost predicate Valid()
      reads this
    {
      && limit < WRAP32 && 0 <= slabSize <= SLAB && (slabSize > 0 ==> slabPtr + slabSize == slabEnd)
      && HeapOk(start, limit, heapEnd, Block(slabPtr, slabSize), blocks)
    }

    constructor (start: nat, limit: nat)
      requires start <= limit < WRAP32
      ensures Valid() && this.start == start && this.limit == limit && blocks == []
      ensures heapEnd == start && slabSize == 0
    {
      this.start, this.limit := start, limit;
      heapEnd := start;
      slabPtr, slabSize, slabEnd, blocks := 0, 0, 0, [];
    }

    // The body of ALT_SBRK: FAILED, or the old end of the heap.
    method Extend(incr: int) returns (p: nat)
      requires AlignUp(heapEnd) + incr >= 0
      modifies this`heapEnd
      ensures p == if AlignUp(old(heapEnd)) + incr > limit then FAILED else AlignUp(old(heapEnd))
      ensures heapEnd == AlignUp(old(heapEnd)) + if AlignUp(old(heapEnd)) + incr > limit then 0 else incr
    {
      heapEnd := AlignUp(heapEnd);
      if heapEnd + incr > limit {
        return FAILED;
      }
      p := heapEnd;
      heapEnd := heapEnd + incr;
    }

    // ALT_SBRK by any other caller.  If the heap does not shrink, a block that
    // overlaps nothing handed out before, or a failure that gives nothing; if
    // it does, the heap stays sound if and only if nothing in use is above its
    // new end.
    method Sbrk(incr: int) returns (p: nat)
      requires Valid() && AlignUp(heapEnd) + incr >= 0
      modifies this`heapEnd, this`blocks
      ensures var ok := AlignUp(old(heapEnd)) + incr <= limit;
        && p == (if ok then AlignUp(old(heapEnd)) else FAILED)
        && blocks == (if ok && incr >= 0 then old(blocks) + [Block(p, incr)] else old(blocks))
        && (ok ==> p % 4 == 0 && heapEnd == p + incr)
        && (Valid() <==> !ok || incr >= 0 || Below(Block(slabPtr, slabSize), blocks, start, heapEnd))
    {
      ghost var end := heapEnd;
      p := Extend(incr);
      if p != FAILED {
        if incr >= 0 {
          Extended(start, limit, end, Block(slabPtr, slabSize), blocks, Block(p, incr));
          blocks := blocks + [Block(p, incr)];
        } else {
          Shrunk(start, limit, end, Block(slabPtr, slabSize), blocks, heapEnd);
        }
      }
    }

    // The first part of mcount_allocate: a new slab if the old one has too
    // little room.  It does not look whether sbrk failed.
    method Renew(size: nat)
      requires Valid() && size < WRAP32
      modifies this`heapEnd, this`slabPtr, this`slabSize, this`slabEnd
      ensures var room := AlignUp(old(heapEnd)) + SLAB <= limit;
        if size <= old(slabSize)
        then unchanged(this)
        else && slabSize == SLAB && slabEnd == slabPtr + SLAB && (room ==> Valid())
             && slabPtr == (if room then AlignUp(old(heapEnd)) else FAILED)
    {
      if size > slabSize {
        ghost var end, slab := heapEnd, Block(slabPtr, slabSize);
        slabPtr := Extend(SLAB);
        slabSize := SLAB;
        slabEnd := slabPtr + SLAB;
        if slabPtr != FAILED {
          Renewed(start, limit, end, slab, blocks, Block(slabPtr, slabSize));
        }
      }
    }

    // The second part: the first size bytes of the slab, `got` if it has them.
    method Cut(size: nat, ghost got: bool) returns (data: nat)
      requires size < WRAP32 && (got ==> Valid() && size <= slabSize)
      modifies this`slabPtr, this`slabSize, this`blocks
      ensures data == old(slabPtr) && (!got ==> blocks == old(blocks))
      ensures got ==> Valid() && blocks == if size > 0 then old(blocks) + [Block(data, size)] else old(blocks)
      ensures got && size > 0 ==> slabPtr + slabSize == slabEnd && data + size <= limit && data + size <= slabEnd
    {
      data := slabPtr;
      if size > 0 && got {
        Carved(start, limit, heapEnd, Block(slabPtr, slabSize), blocks, size);
        blocks := blocks + [Block(data, size)];
      }
      slabPtr := (slabPtr + size) % WRAP32;
      slabSize := slabSize - size;
    }

    // mcount_allocate: the block is sound if and only if it fits into a slab
    // and the slab had room or sbrk gave a new one.  An empty block is not
    // recorded.
    method Allocate(size: nat) returns (data: nat)
      requires Valid() && size < WRAP32
      modifies this
      ensures var got := size <= SLAB && (size <= old(slabSize) || AlignUp(old(heapEnd)) + SLAB <= limit);
        && (got ==> Valid() && blocks == (if size > 0 then old(blocks) + [Block(data, size)] else old(blocks)))
        && (got && size > 0 ==> slabPtr + slabSize == slabEnd)
        && (size > 0 ==> (got <==> data + size <= limit && data + size <= slabEnd))
        && data == (if size <= old(slabSize) then old(slabPtr)
                    else if AlignUp(old(heapEnd)) + SLAB <= limit then AlignUp(old(heapEnd)) else FAILED)
        && slabEnd == (if size <= old(slabSize) then old(slabEnd) else data + SLAB)
        && (!got ==> blocks == old(blocks))
    {
      hide HeapOk, AlignUp;
      SlabInside(start, limit, heapEnd, Block(slabPtr, slabSize), blocks);
      Renew(size);
      data := Cut(size, size <= slabSize && (size == 0 || slabPtr != FAILED));
    }
  }

  // The failure is reachable: in a heap of 1000 bytes the first block is
  // returned at the address sbrk fails with, and a block of 1021 bytes from a
  // large heap reaches beyond the end of its slab.
  method UnsoundBlocks() returns (small: nat, large: nat, ghost end: nat)
    ensures small == FAILED && large + 1021 > end && large == 0x2000
  {
    var h := new Heap(0x1000, 0x1000 + 1000);
    small := h.Allocate(12);
    var g := new Heap(0x2000, 0x10000);
    large := g.Allocate(1021);
    end := g.slabEnd;
  }
}
