/** What the stack's heap promises its callers, over single calls and over whole runs. */
module LwipHeapLaws {
  import opened Wrappers
  import opened BlockLayout
  import opened HeaderChain
  import opened LwipHeap

  /** The owned block that starts at user address `p`. */
  ghost function BlockOf(L: Layout, p: int): Block
    requires Live(L, p)
  {
    L[IndexOf(L, p)]
  }

  /** A user address belongs to one block only. */
  lemma IndexUnique(L: Layout, i: nat, p: int)
    requires WellFormed(L, HEAP) && HandedOut(L, i, p)
    ensures Live(L, p) && IndexOf(L, p) == i
  {
    Unique(L, i, HEAP);
  }

  /** mem_malloc fails exactly when no free block is large enough. When it succeeds it returns the
      lowest-addressed block that is, adds just that block to what callers own, and keeps the
      layout well formed. */
  lemma MallocIsLowestFit(L: Layout, size: u16)
    requires WellFormed(L, HEAP)
    ensures WellFormed(MallocLayout(L, size), HEAP)
    ensures MallocResult(L, size) == None <==>
            size == 0 || forall b :: b in L ==> !Fits(b, Rounded(size), HEAP)
    ensures MallocResult(L, size) == None ==> MallocLayout(L, size) == L
    ensures MallocResult(L, size).Some? ==>
      var p := MallocResult(L, size).value; var M := MallocLayout(L, size);
      && Live(M, p) && Payload(BlockOf(M, p), HEAP) >= Rounded(size)
      && Owned(M) == Owned(L) + {BlockOf(M, p)} && BlockOf(M, p) !in Owned(L)
      && (exists b :: b in L && Fits(b, Rounded(size), HEAP) && b.at == BlockOf(M, p).at)
      && (forall b :: b in L && Fits(b, Rounded(size), HEAP) ==> p <= b.at + SIZEOF_STRUCT_MEM)
  {
    var n := Rounded(size);
    var k := FirstFit(L, 0, n);
    if size != 0 && k < |L| {
      TakeKeepsWellFormed(L, k, n, HEAP);
      TakeOwned(L, k, n, HEAP);
      var M := MallocLayout(L, size);
      assert M[k].used by { assert M[k] in Owned(M); }
      IndexUnique(M, k, L[k].at + SIZEOF_STRUCT_MEM);
      forall b | b in L && Fits(b, n, HEAP) ensures L[k].at <= b.at {
        var j :| 0 <= j < |L| && L[j] == b;
        if k < j {
          Ascending(L, k, j, HEAP);
        }
      }
    }
  }

  /** A returned block holds the requested bytes for every size up to 65532, and for none of the
      three larger sizes: rounding them up wraps to zero in 16 bits. */
  lemma MallocHoldsRequest(L: Layout, size: u16)
    requires WellFormed(L, HEAP) && MallocResult(L, size).Some?
    ensures var p := MallocResult(L, size).value; var M := MallocLayout(L, size);
      Live(M, p) && (Payload(BlockOf(M, p), HEAP) >= size <==> size <= 65532)
  {
    MallocIsLowestFit(L, size);
    RoundingWraps(size);
    InsideHeap(MallocLayout(L, size), MallocResult(L, size).value);
  }

  lemma RoundingWraps(size: u16)
    ensures if size <= 65532 then size <= Rounded(size) else Rounded(size) == MIN_SIZE_ALIGNED
  {
  }

  lemma InsideHeap(L: Layout, p: int)
    requires WellFormed(L, HEAP) && Live(L, p)
    ensures Payload(BlockOf(L, p), HEAP) <= MEM_SIZE_ALIGNED
  {
    Spread(L, HEAP);
  }

  /** The wrapped sizes do succeed: a fresh heap hands out twelve bytes for a request of 65533. */
  lemma WrappedRequest()
    ensures var L := [Block(0, MEM_SIZE_ALIGNED, false)];
      && MallocResult(L, 65533) == Some(8)
      && MallocLayout(L, 65533)[0] == Block(0, 20, true)
  {
  }

  /** A block that was granted: its user address, and the number of bytes it holds. */
  datatype Grant = Grant(at: int, room: nat)

  /** mem_malloc as code with wider sizes calls it: the argument is cut to 16 bits. The granted block holds
      enough bytes if and only if `n` is at most 65532. */
  method Request(heap: Heap, n: nat) returns (g: Option<Grant>)
    requires heap.Valid()
    modifies heap, heap.ram
    ensures heap.Valid() && heap.layout == MallocLayout(old(heap.layout), n % 0x1_0000)
    ensures var m := MallocResult(old(heap.layout), n % 0x1_0000);
      && (g.Some? <==> m.Some?)
      && (g.Some? ==> m == Some(g.value.at) && Live(heap.layout, g.value.at))
      && (g.Some? ==> g.value.room == Payload(BlockOf(heap.layout, g.value.at), HEAP))
    ensures g.Some? ==> g.value.room <= MEM_SIZE_ALIGNED && (g.value.room >= n <==> n <= 65532)
  {
    ghost var L, size := heap.layout, n % 0x1_0000;
    MallocIsLowestFit(L, size);
    var r := heap.Malloc(n % 0x1_0000);
    if r == None {
      return None;
    }
    MallocHoldsRequest(L, size);
    InsideHeap(heap.layout, r.value);
    ghost var i := IndexOf(heap.layout, r.value);
    Following(heap.ram[..], heap.layout, i, HEAP);
    g := Some(Grant(r.value, heap.ram[r.value - SIZEOF_STRUCT_MEM].next - r.value));
  }

  /** An owned block is live at its user address. */
  lemma OwnedIsLive(L: Layout, b: Block)
    requires WellFormed(L, HEAP) && b in Owned(L)
    ensures Live(L, b.at + SIZEOF_STRUCT_MEM) && BlockOf(L, b.at + SIZEOF_STRUCT_MEM) == b
  {
    var i :| 0 <= i < |L| && L[i] == b;
    IndexUnique(L, i, b.at + SIZEOF_STRUCT_MEM);
  }

  /** Freeing what mem_malloc just returned restores the layout, and with it `lfree`. */
  lemma MallocThenFree(L: Layout, size: u16)
    requires WellFormed(L, HEAP) && MallocResult(L, size).Some?
    ensures var p := MallocResult(L, size).value; var M := MallocLayout(L, size);
      Live(M, p) && Release(M, IndexOf(M, p)) == L
  {
    var k := FirstFit(L, 0, Rounded(size));
    var M := MallocLayout(L, size);
    MallocIsLowestFit(L, size);
    TakeThenRelease(L, k, Rounded(size), HEAP);
    TakeOwned(L, k, Rounded(size), HEAP);
    assert M[k] in Owned(M);
    IndexUnique(M, k, MallocResult(L, size).value);
  }

  /** Trimming a block before freeing it leaves the same layout as freeing it. */
  lemma TrimThenFree(L: Layout, p: int, newsize: u16)
    requires WellFormed(L, HEAP) && Live(L, p)
    ensures var M := TrimLayout(L, p, newsize);
      Live(M, p) && Release(M, IndexOf(M, p)) == Release(L, IndexOf(L, p))
  {
    var i := IndexOf(L, p);
    var M := Shrink(L, i, Rounded(newsize), HEAP);
    ShrinkKeepsWellFormed(L, i, Rounded(newsize), HEAP);
    ShrinkThenRelease(L, i, Rounded(newsize), HEAP);
    IndexUnique(M, i, p);
  }

  /** mem_trim refuses to grow a block, and leaves it alone, for every size up to 65532, and for none of the
      three larger sizes, which wrap to the least size a block can have. */
  lemma TrimRefusesToGrow(L: Layout, p: int, newsize: u16)
    requires WellFormed(L, HEAP) && Live(L, p) && newsize > Payload(BlockOf(L, p), HEAP)
    ensures TrimResult(L, p, newsize) == None && TrimLayout(L, p, newsize) == L <==> newsize <= 65532
  {
    RoundingWraps(newsize);
    assert Sound(BlockOf(L, p), HEAP);
  }

  /** A block that was trimmed with success holds the new size if and only if that is at most 65532. */
  lemma TrimHoldsRequest(L: Layout, p: int, newsize: u16)
    requires WellFormed(L, HEAP) && Live(L, p) && TrimResult(L, p, newsize).Some?
    ensures var M := TrimLayout(L, p, newsize);
      Live(M, p) && (Payload(BlockOf(M, p), HEAP) >= newsize <==> newsize <= 65532)
  {
    var i, n := IndexOf(L, p), Rounded(newsize);
    var M := TrimLayout(L, p, newsize);
    RoundingWraps(newsize);
    ShrinkKeepsWellFormed(L, i, n, HEAP);
    IndexUnique(M, i, p);
    InsideHeap(M, p);
  }

  /** What a trim that succeeds gives back: with `n` the rounded size, the block has exactly `n` bytes if its
      successor is free or there is room for another block behind them, and keeps all its bytes otherwise; what
      it gives up is free, and the free bytes grow by just that, less a header where a new block begins. */
  lemma TrimGivesBack(L: Layout, p: int, newsize: u16)
    requires WellFormed(L, HEAP) && Live(L, p) && TrimResult(L, p, newsize).Some?
    ensures var M, i, n := TrimLayout(L, p, newsize), IndexOf(L, p), Rounded(newsize);
      var was, after := Payload(BlockOf(L, p), HEAP), FreeAt(L, i + 1);
      var cut := n < was && (after || was >= n + SIZEOF_STRUCT_MEM + MIN_SIZE_ALIGNED);
      && Live(M, p) && Payload(BlockOf(M, p), HEAP) == (if cut then n else was)
      && (cut ==> FreeArea(M, p + n, if after then L[i + 1].end else L[i].end))
      && FreeBytes(M, HEAP) - FreeBytes(L, HEAP) == (if !cut then 0 else if after then was - n else was - n - SIZEOF_STRUCT_MEM)
      && Owned(M) == Owned(L) - {BlockOf(L, p)} + {BlockOf(M, p)}
  {
    var i, n := IndexOf(L, p), Rounded(newsize);
    ShrinkExact(L, i, n, HEAP);
    ShrinkOwned(L, i, n, HEAP);
    ShrinkKeepsWellFormed(L, i, n, HEAP);
    IndexUnique(TrimLayout(L, p, newsize), i, p);
  }

  /** What an allocation that succeeds takes: exactly the rounded size if there is room for another block behind
      it, and the whole block otherwise; the free bytes shrink by just that, and by a header where a new block
      begins. */
  lemma MallocTakes(L: Layout, size: u16)
    requires WellFormed(L, HEAP) && MallocResult(L, size).Some?
    ensures var M, n, p := MallocLayout(L, size), Rounded(size), MallocResult(L, size).value;
      Live(M, p) && exists b :: b in L && TakenFrom(L, M, b, BlockOf(M, p), n)
  {
    var k, n, p := FirstFit(L, 0, Rounded(size)), Rounded(size), MallocResult(L, size).value;
    var M := MallocLayout(L, size);
    TakeExact(L, k, n, HEAP);
    TakeKeepsWellFormed(L, k, n, HEAP);
    IndexUnique(M, k, p);
    assert TakenFrom(L, M, L[k], BlockOf(M, p), n);
  }

  /** Block `c` of `M` is what `n` bytes were taken for from the free block `b` of `L`. */
  ghost predicate TakenFrom(L: Layout, M: Layout, b: Block, c: Block, n: nat) {
    var room := Payload(b, HEAP);
    var split := room >= n + SIZEOF_STRUCT_MEM + MIN_SIZE_ALIGNED;
    && !b.used && c.at == b.at && Payload(c, HEAP) == (if split then n else room)
    && (split ==> FreeArea(M, c.end, b.end))
    && FreeBytes(M, HEAP) == FreeBytes(L, HEAP) - (if split then n + SIZEOF_STRUCT_MEM else room)
  }

  /** What freeing gives back: the bytes of the block, and a header for each free neighbour. */
  lemma FreeGivesBack(L: Layout, p: int)
    requires WellFormed(L, HEAP) && Live(L, p)
    ensures var M, i := Release(L, IndexOf(L, p)), IndexOf(L, p);
      && FreeArea(M, BlockOf(L, p).at, BlockOf(L, p).end) && Owned(M) == Owned(L) - {BlockOf(L, p)}
      && FreeBytes(M, HEAP) == FreeBytes(L, HEAP) + Payload(BlockOf(L, p), HEAP)
           + (if FreeAt(L, i - 1) then SIZEOF_STRUCT_MEM else 0) + (if FreeAt(L, i + 1) then SIZEOF_STRUCT_MEM else 0)
  {
    ReleaseExact(L, IndexOf(L, p), HEAP);
    ReleaseOwned(L, IndexOf(L, p), HEAP);
  }

  /** The size that is rounded up to is the least multiple of four that holds the request and the least block,
      unless it wraps. */
  lemma RoundedIsLeast(size: u16, n: nat)
    requires size <= 65532
    ensures Rounded(size) >= size && Rounded(size) >= MIN_SIZE_ALIGNED && Aligned(Rounded(size))
    ensures n >= size && n >= MIN_SIZE_ALIGNED && Aligned(n) ==> Rounded(size) <= n
  {
  }

  /** A run in which a block in front of one in use is trimmed: its end becomes a free block. */
  method TrimBeforeUsed() returns (heap: Heap, trimmed: Option<int>)
    ensures fresh(heap) && heap.Valid() && trimmed == Some(8)
    ensures heap.layout == [Block(0, 108, true), Block(108, 924, false), Block(924, 944, true), Block(944, MEM_SIZE_ALIGNED, false)]
  {
    heap := new Heap();
    var block := heap.Malloc(916);
    assert heap.layout == [Block(0, 924, true), Block(924, MEM_SIZE_ALIGNED, false)];
    var behind := heap.Malloc(12);
    assert heap.layout == [Block(0, 924, true), Block(924, 944, true), Block(944, MEM_SIZE_ALIGNED, false)];
    assert HandedOut(heap.layout, 0, 8);
    IndexUnique(heap.layout, 0, 8);
    trimmed := heap.Trim(8, 100);
  }

  /** A run in which a block is cut although the caller asks for a larger one: of 916 bytes that are in use,
      904 are free after a trim to 65533, which reports success. */
  method TrimCutsBlock() returns (heap: Heap, block: Option<int>, trimmed: Option<int>)
    ensures fresh(heap) && heap.Valid() && block == trimmed == Some(8)
    ensures heap.layout == [Block(0, 20, true), Block(20, MEM_SIZE_ALIGNED, false)]
  {
    heap := new Heap();
    block := heap.Malloc(916);
    assert heap.layout == [Block(0, 924, true), Block(924, MEM_SIZE_ALIGNED, false)];
    assert HandedOut(heap.layout, 0, 8);
    IndexUnique(heap.layout, 0, 8);
    trimmed := heap.Trim(8, 65533);
  }

  /** When callers own nothing, the heap is one free block again. */
  lemma NothingOwned(L: Layout)
    requires WellFormed(L, HEAP) && Owned(L) == {}
    ensures L == [Block(0, MEM_SIZE_ALIGNED, false)]
  {
    assert |L| > 1 ==> Follows(L[0], L[1]);
    forall b | b in L ensures !b.used {
      assert b !in Owned(L);
    }
  }

  // ----- whole runs -----

  datatype Op = Malloc(size: u16) | Free(p: int) | Trim(p: int, newsize: u16)

  /** Callers pass only addresses that they own. */
  ghost predicate Legal(L: Layout, op: Op) {
    op.Malloc? || Live(L, op.p)
  }

  ghost function Step(L: Layout, op: Op): Layout
    requires Legal(L, op)
  {
    match op
    case Malloc(size) => MallocLayout(L, size)
    case Free(p) => Release(L, IndexOf(L, p))
    case Trim(p, newsize) => TrimLayout(L, p, newsize)
  }

  ghost predicate LegalRun(L: Layout, ops: seq<Op>)
    decreases |ops|
  {
    ops == [] || (Legal(L, ops[0]) && LegalRun(Step(L, ops[0]), ops[1..]))
  }

  ghost function Run(L: Layout, ops: seq<Op>): Layout
    requires LegalRun(L, ops)
    decreases |ops|
  {
    if ops == [] then L else Run(Step(L, ops[0]), ops[1..])
  }

  lemma StepKeepsWellFormed(L: Layout, op: Op)
    requires WellFormed(L, HEAP) && Legal(L, op)
    ensures WellFormed(Step(L, op), HEAP)
  {
    match op
    case Malloc(size) => MallocIsLowestFit(L, size);
    case Free(p) => ReleaseKeepsWellFormed(L, IndexOf(L, p), HEAP);
    case Trim(p, newsize) => ShrinkKeepsWellFormed(L, IndexOf(L, p), Rounded(newsize), HEAP);
  }

  /** An operation leaves every owned block alone that it does not name. */
  lemma StepKeepsOthers(L: Layout, op: Op, b: Block)
    requires WellFormed(L, HEAP) && Legal(L, op) && b in Owned(L)
    requires op.Malloc? || op.p != b.at + SIZEOF_STRUCT_MEM
    ensures b in Owned(Step(L, op))
  {
    match op
    case Malloc(size) => MallocIsLowestFit(L, size);
    case Free(p) => ReleaseOwned(L, IndexOf(L, p), HEAP);
    case Trim(p, newsize) => ShrinkOwned(L, IndexOf(L, p), Rounded(newsize), HEAP);
  }

  /** Over any run the layout stays well formed, and a block that the run neither frees nor trims
      keeps its place and size and is not handed out again. */
  lemma {:induction false} RunKeepsBlocks(L: Layout, ops: seq<Op>, b: Block)
    requires WellFormed(L, HEAP) && LegalRun(L, ops) && b in Owned(L)
    requires forall op :: op in ops ==> op.Malloc? || op.p != b.at + SIZEOF_STRUCT_MEM
    ensures WellFormed(Run(L, ops), HEAP) && b in Owned(Run(L, ops))
    decreases |ops|
  {
    if ops != [] {
      StepKeepsWellFormed(L, ops[0]);
      StepKeepsOthers(L, ops[0], b);
      RunKeepsBlocks(Step(L, ops[0]), ops[1..], b);
    }
  }
}
