/** The heap of the TCP/IP stack: first fit over a chain of headers inside one byte area. */
module LwipHeap {
  import opened Wrappers
  import opened BlockLayout
  import opened HeaderChain

  const MEM_SIZE_ALIGNED: nat := 8192
  const SIZEOF_STRUCT_MEM: nat := 8
  const MIN_SIZE_ALIGNED: nat := 12

  const HEAP := Geometry(SIZEOF_STRUCT_MEM, MIN_SIZE_ALIGNED, MIN_SIZE_ALIGNED, MEM_SIZE_ALIGNED, false)

  /** Rounding up to a multiple of four in 16-bit arithmetic. */
  function AlignSize(size: u16): u16 {
    ((size + 3) / 4 * 4) % 0x1_0000
  }

  /** The number of bytes a request is rounded up to. */
  function Rounded(size: u16): (n: u16)
    ensures MIN_SIZE_ALIGNED <= n && Aligned(n)
  {
    if AlignSize(size) < MIN_SIZE_ALIGNED then MIN_SIZE_ALIGNED else AlignSize(size)
  }

  // ----- what malloc, free and trim do to a layout -----

  /** Index of the first block from `i` on that can hold `n` bytes, or |L|. */
  ghost function FirstFit(L: Layout, i: nat, n: nat): (k: nat)
    requires i <= |L|
    ensures i <= k <= |L| && (k < |L| ==> Fits(L[k], n, HEAP))
    ensures forall j :: i <= j < k ==> !Fits(L[j], n, HEAP)
    decreases |L| - i
  {
    if i == |L| || Fits(L[i], n, HEAP) then i else FirstFit(L, i + 1, n)
  }

  ghost function MallocLayout(L: Layout, size: u16): Layout {
    var k := FirstFit(L, 0, Rounded(size));
    if size == 0 || k == |L| then L else Take(L, k, Rounded(size), HEAP)
  }

  ghost function MallocResult(L: Layout, size: u16): Option<nat> {
    var k := FirstFit(L, 0, Rounded(size));
    if size == 0 || k == |L| then None else Some(L[k].at + SIZEOF_STRUCT_MEM)
  }

  /** Block `i` was handed out as address `rmem`. */
  ghost predicate HandedOut(L: Layout, i: nat, rmem: int) {
    i < |L| && L[i].used && L[i].at + SIZEOF_STRUCT_MEM == rmem
  }

  ghost predicate Live(L: Layout, rmem: int) {
    exists i: nat :: HandedOut(L, i, rmem)
  }

  ghost function IndexOf(L: Layout, rmem: int): (i: nat)
    requires Live(L, rmem)
    ensures HandedOut(L, i, rmem)
  {
    var i: nat :| HandedOut(L, i, rmem);
    i
  }

  ghost function TrimLayout(L: Layout, rmem: int, newsize: u16): Layout
    requires Live(L, rmem)
  {
    Shrink(L, IndexOf(L, rmem), Rounded(newsize), HEAP)
  }

  ghost function TrimResult(L: Layout, rmem: int, newsize: u16): Option<int>
    requires Live(L, rmem)
  {
    if Rounded(newsize) <= Payload(L[IndexOf(L, rmem)], HEAP) then Some(rmem) else None
  }

  predicate InHeap(rmem: int) {
    0 <= rmem < MEM_SIZE_ALIGNED
  }

  /** `k` is the lowest free block, or |L| when no block is free. */
  ghost predicate LowestFree(L: Layout, k: nat) {
    k <= |L| && (k < |L| ==> !L[k].used) && (forall j :: 0 <= j < k ==> L[j].used)
  }

  /** Merging does not change the lowest free block. */
  lemma MergeLowest(L: Layout, i: nat, k: nat)
    requires Tiled(L, HEAP) && FreeAt(L, i) && FreeAt(L, i + 1) && LowestFree(L, k)
    ensures LowestFree(Merge(L, i), k) && OffsetOf(Merge(L, i), k, HEAP) == OffsetOf(L, k, HEAP)
    ensures OffsetOf(L, k, HEAP) != L[i + 1].at
  {
    Spread(L, HEAP);
    MergeKeepsTiled(L, i, HEAP);
    assert k <= i;
  }

  /** Freeing block `i` makes it the lowest free block exactly when it lies below `lfree`. */
  lemma FreeLowest(L: Layout, i: nat, k: nat)
    requires Tiled(L, HEAP) && i < |L| && L[i].used && LowestFree(L, k)
    ensures var F := L[i := Block(L[i].at, L[i].end, false)];
      if L[i].at < OffsetOf(L, k, HEAP) then LowestFree(F, i)
      else LowestFree(F, k) && OffsetOf(F, k, HEAP) == OffsetOf(L, k, HEAP)
  {
    Spread(L, HEAP);
  }

  /** The free block a trim leaves behind becomes the lowest one exactly when it lies below `lfree`,
      or when it is the lowest free block, moved down. */
  lemma TrimLowest(L: Layout, i: nat, n: nat, mid: nat, k: nat)
    requires Tiled(L, HEAP) && LowestFree(L, k) && CutRange(L, i, n, mid) && L[i].used
    ensures var M := CutAt(L, i, n, mid); var lfree := OffsetOf(L, k, HEAP);
      && (n == i + 1 && mid < lfree ==> LowestFree(M, i + 1) && OffsetOf(M, i + 1, HEAP) == mid)
      && (n == i + 1 && mid >= lfree ==> LowestFree(M, k) && OffsetOf(M, k, HEAP) == lfree)
      && (n == i + 2 ==>
            LowestFree(M, k) && OffsetOf(M, k, HEAP) == if lfree == L[i + 1].at then mid else lfree)
  {
    Spread(L, HEAP);
    var M := CutAt(L, i, n, mid);
    assert M[i] == Block(L[i].at, mid, true) && M[i + 1] == Block(mid, L[n - 1].end, false);
    assert forall j :: 0 <= j < i ==> M[j] == L[j];
  }

  // ----- the heap -----

  class Heap {
    const ram: array<Header>
    var lfree: int
    ghost var layout: Layout
    ghost var first: nat

    /** The headers describe `layout`, and `lfree` is its lowest free block, or the end marker. */
    ghost predicate Linked()
      reads this, ram
    {
      && Describes(ram[..], layout, HEAP)
      && LowestFree(layout, first) && lfree == OffsetOf(layout, first, HEAP)
    }

    ghost predicate Valid()
      reads this, ram
    {
      Linked() && WellFormed(layout, HEAP)
    }

    /** mem_init */
    constructor ()
      ensures Valid() && fresh(ram)
      ensures layout == [Block(0, MEM_SIZE_ALIGNED, false)]
    {
      ram := new Header[MEM_SIZE_ALIGNED + 1](_ => Header(MEM_SIZE_ALIGNED, MEM_SIZE_ALIGNED, true));
      lfree := 0;
      layout := [Block(0, MEM_SIZE_ALIGNED, false)];
      first := 0;
      new;
      ram[0] := Header(MEM_SIZE_ALIGNED, 0, false);
      ram[MEM_SIZE_ALIGNED] := Header(MEM_SIZE_ALIGNED, MEM_SIZE_ALIGNED, true);
      assert HeaderInPlace(ram[..], layout, 0, HEAP);
    }

    /** One half of plug_holes: the free block at `a` takes over its free successor at `b`. */
    method Absorb(a: nat, b: nat, ghost i: nat)
      requires Linked()
      requires FreeAt(layout, i) && FreeAt(layout, i + 1) && layout[i].at == a && layout[i + 1].at == b
      modifies this, ram
      ensures Linked() && layout == Merge(old(layout), i)
    {
      MergeDescribed(ram[..], layout, i, HEAP);
      MergeLowest(layout, i, first);
      Neighbours(ram[..], layout, i, HEAP);
      lfree := if lfree == b then a else lfree;
      var next := ram[b].next;
      ram[a] := ram[a].(next := next);
      ram[next] := ram[next].(prev := a);
      layout := Merge(layout, i);
    }

    /** plug_holes: combine the freed block at offset `mem` with its free neighbours. */
    method PlugHoles(mem: nat, ghost i: nat)
      requires Linked()
      requires FreeAt(layout, i) && layout[i].at == mem
      modifies this, ram
      ensures Linked() && layout == Release(old(layout), i)
    {
      ReleaseInSteps(layout, i);
      Neighbours(ram[..], layout, i, HEAP);
      var nmem := ram[mem].next;
      var pmem := ram[mem].prev;
      if mem != nmem && !ram[nmem].used && nmem != MEM_SIZE_ALIGNED {
        Absorb(mem, nmem, i);
      }
      Neighbours(ram[..], layout, i, HEAP);
      if pmem != mem && !ram[pmem].used {
        Absorb(pmem, mem, i - 1);
      }
    }

    /** The header writes shared by mem_malloc and mem_trim: block `i` at `ptr` becomes a used block
        up to `ptr2`, and a free header at `ptr2` takes over the rest up to `next`. */
    method Carve(ptr: nat, ptr2: nat, next: nat, ghost i: nat, ghost n: nat)
      requires Describes(ram[..], layout, HEAP) && CutRange(layout, i, n, ptr2)
      requires Tiled(CutAt(layout, i, n, ptr2), HEAP)
      requires ptr == layout[i].at && next == layout[n - 1].end
      modifies ram, this`layout
      ensures Describes(ram[..], layout, HEAP) && layout == CutAt(old(layout), i, n, ptr2)
    {
      CarveDescribed(ram[..], layout, i, n, ptr2, HEAP);
      ghost var carved := Carved(ram[..], ptr, ptr2, next);
      ghost var marker := ram[MEM_SIZE_ALIGNED];
      layout := CutAt(layout, i, n, ptr2);
      ram[ptr2] := Header(next, ptr, false);
      ram[ptr] := Header(ptr2, ram[ptr].prev, true);
      if next != MEM_SIZE_ALIGNED {
        ram[next] := ram[next].(prev := ptr2);
      } else {
        EndMarkerPrev(carved, layout, marker.prev, HEAP);
        assert ram[..] == carved[MEM_SIZE_ALIGNED := marker];
      }
    }

    /** Set the flag of block `i` at `mem`. */
    method SetUsed(mem: nat, used: bool, ghost i: nat)
      requires Describes(ram[..], layout, HEAP) && i < |layout| && layout[i].at == mem
      modifies ram, this`layout
      ensures Describes(ram[..], layout, HEAP)
      ensures layout == old(layout)[i := Block(old(layout)[i].at, old(layout)[i].end, used)]
    {
      FlagDescribed(ram[..], layout, i, used, HEAP);
      ram[mem] := ram[mem].(used := used);
      layout := layout[i := Block(layout[i].at, layout[i].end, used)];
    }

    /** mem_free: a null pointer or an address outside the heap is ignored. */
    method Free(rmem: Option<int>)
      requires Valid()
      requires rmem.Some? && InHeap(rmem.value) ==> Live(layout, rmem.value)
      modifies this, ram
      ensures Valid()
      ensures layout == if rmem.Some? && InHeap(rmem.value)
                        then Release(old(layout), IndexOf(old(layout), rmem.value)) else old(layout)
    {
      if rmem == None || !InHeap(rmem.value) {
        return;
      }
      ghost var i := IndexOf(layout, rmem.value);
      var mem := rmem.value - SIZEOF_STRUCT_MEM;
      ReleaseInSteps(layout, i);
      ReleaseKeepsWellFormed(layout, i, HEAP);
      MarkFree(mem, i);
      PlugHoles(mem, i);
    }

    /** Mark block `i` free, which may make it the lowest free block. */
    method MarkFree(mem: nat, ghost i: nat)
      requires Linked() && i < |layout| && layout[i].used && layout[i].at == mem
      modifies this, ram
      ensures Linked() && layout == old(layout)[i := Block(mem, old(layout)[i].end, false)]
    {
      FreeLowest(layout, i, first);
      SetUsed(mem, false, i);
      if mem < lfree {
        lfree := mem;
        first := i;
      }
    }

    /** mem_trim: shrink an allocated block; returns None when the rounded size is larger than it. */
    method Trim(rmem: int, newsize: u16) returns (r: Option<int>)
      requires Valid()
      requires InHeap(rmem) ==> Live(layout, rmem)
      modifies this, ram
      ensures Valid()
      ensures InHeap(rmem) ==> layout == TrimLayout(old(layout), rmem, newsize) && r == TrimResult(old(layout), rmem, newsize)
      ensures !InHeap(rmem) ==> layout == old(layout) && r == if Rounded(newsize) > MEM_SIZE_ALIGNED then None else Some(rmem)
    {
      var n := Rounded(newsize);
      if InHeap(rmem) {
        Neighbours(ram[..], layout, IndexOf(layout, rmem), HEAP);
      }
      if n > MEM_SIZE_ALIGNED {
        return None;
      }
      if !InHeap(rmem) {
        return Some(rmem);
      }
      ghost var i := IndexOf(layout, rmem);
      var mem := rmem - SIZEOF_STRUCT_MEM;
      var size := ram[mem].next - mem - SIZEOF_STRUCT_MEM;
      if n > size {
        return None;
      }
      if n == size {
        return Some(rmem);
      }
      CutBlock(mem, n, i);
      return Some(rmem);
    }

    /** The part of mem_trim that follows the checks: block `i` at `mem` is larger than `n`. */
    method CutBlock(mem: nat, n: nat, ghost i: nat)
      requires Valid() && MIN_SIZE_ALIGNED <= n && Aligned(n)
      requires i < |layout| && layout[i].used && layout[i].at == mem && n < Payload(layout[i], HEAP)
      modifies this, ram
      ensures Valid() && layout == Shrink(old(layout), i, n, HEAP)
    {
      ghost var L := layout;
      ShrinkKeepsWellFormed(L, i, n, HEAP);
      Neighbours(ram[..], layout, i, HEAP);
      var mem2 := ram[mem].next;
      var size := mem2 - mem - SIZEOF_STRUCT_MEM;
      Following(ram[..], layout, i + 1, HEAP);
      var ptr2 := mem + SIZEOF_STRUCT_MEM + n;
      if !ram[mem2].used {
        MoveFree(mem, mem2, ptr2, i);
      } else if n + SIZEOF_STRUCT_MEM + MIN_SIZE_ALIGNED <= size {
        SplitOff(mem, mem2, ptr2, i);
      }
      assert layout == Shrink(L, i, n, HEAP);
    }

    /** The free successor at `mem2` takes over what lies behind `ptr2`. */
    method MoveFree(mem: nat, mem2: nat, ptr2: nat, ghost i: nat)
      requires Linked() && FreeAt(layout, i + 1) && CutRange(layout, i, i + 2, ptr2) && layout[i].used
      requires layout[i].at == mem && layout[i].end == mem2 && Tiled(CutAt(layout, i, i + 2, ptr2), HEAP)
      modifies this, ram
      ensures Linked() && layout == CutAt(old(layout), i, i + 2, ptr2)
    {
      Neighbours(ram[..], layout, i, HEAP);
      Following(ram[..], layout, i + 1, HEAP);
      var next := ram[mem2].next;
      TrimLowest(layout, i, i + 2, ptr2, first);
      lfree := if lfree == mem2 then ptr2 else lfree;
      Carve(mem, ptr2, next, i, i + 2);
    }

    /** What lies behind `ptr2` becomes a free block. */
    method SplitOff(mem: nat, mem2: nat, ptr2: nat, ghost i: nat)
      requires Linked() && CutRange(layout, i, i + 1, ptr2) && layout[i].used
      requires layout[i].at == mem && layout[i].end == mem2 && Tiled(CutAt(layout, i, i + 1, ptr2), HEAP)
      modifies this, ram
      ensures Linked() && layout == CutAt(old(layout), i, i + 1, ptr2)
    {
      Neighbours(ram[..], layout, i, HEAP);
      TrimLowest(layout, i, i + 1, ptr2, first);
      if ptr2 < lfree {
        lfree := ptr2;
        first := i + 1;
      }
      Carve(mem, ptr2, mem2, i, i + 1);
    }

    /** mem_malloc */
    method Malloc(size: u16) returns (r: Option<int>)
      requires Valid()
      modifies this, ram
      ensures Valid()
      ensures layout == MallocLayout(old(layout), size) && r == MallocResult(old(layout), size)
    {
      if size == 0 {
        return None;
      }
      var n := Rounded(size);
      if n > MEM_SIZE_ALIGNED {
        NoFitBeyond(layout, 0, n);
        return None;
      }
      ghost var k: nat := first;
      var ptr := lfree;
      while ptr < MEM_SIZE_ALIGNED - n
        invariant Valid() && layout == old(layout)
        invariant k <= |layout| && ptr == OffsetOf(layout, k, HEAP)
        invariant forall j :: 0 <= j < k ==> !Fits(layout[j], n, HEAP)
        decreases |layout| - k
      {
        Following(ram[..], layout, k, HEAP);
        var room := ram[ptr].next - (ptr + SIZEOF_STRUCT_MEM);
        if !ram[ptr].used && room >= n {
          Claim(ptr, n, k);
          return Some(ptr + SIZEOF_STRUCT_MEM);
        }
        ptr := ram[ptr].next;
        k := k + 1;
      }
      NoFitBeyond(layout, k, n);
      return None;
    }

    /** The part of mem_malloc that follows a successful search: mark the block at `ptr` used, split
        off the rest of it when that is large enough, and advance `lfree` past used blocks. */
    method Claim(ptr: nat, n: nat, ghost k: nat)
      requires Valid() && MIN_SIZE_ALIGNED <= n && Aligned(n)
      requires k < |layout| && layout[k].at == ptr && Fits(layout[k], n, HEAP)
      modifies this, ram
      ensures Valid() && layout == Take(old(layout), k, n, HEAP)
    {
      ghost var L := layout;
      TakeKeepsWellFormed(L, k, n, HEAP);
      TakeLowest(L, k, n, first);
      MarkUsed(ptr, n, k);
      if ptr == lfree {
        lfree, first := NextFree(lfree, first);
      }
    }

    /** Mark the block at `ptr` used, and split off its rest when that is large enough. */
    method MarkUsed(ptr: nat, n: nat, ghost k: nat)
      requires Describes(ram[..], layout, HEAP) && k < |layout| && layout[k].at == ptr && Fits(layout[k], n, HEAP)
      requires Tiled(Take(layout, k, n, HEAP), HEAP)
      modifies this`layout, ram
      ensures Describes(ram[..], layout, HEAP) && layout == Take(old(layout), k, n, HEAP)
    {
      ghost var L := layout;
      Neighbours(ram[..], layout, k, HEAP);
      var next := ram[ptr].next;
      if next - (ptr + SIZEOF_STRUCT_MEM) >= n + SIZEOF_STRUCT_MEM + MIN_SIZE_ALIGNED {
        Carve(ptr, ptr + SIZEOF_STRUCT_MEM + n, next, k, k + 1);
      } else {
        SetUsed(ptr, true, k);
      }
      assert layout == Take(L, k, n, HEAP);
    }

    /** Walk from block `c` to the first free block, or to the end marker. */
    method NextFree(start: int, ghost c: nat) returns (cur: int, ghost k: nat)
      requires Describes(ram[..], layout, HEAP)
      requires c <= |layout| && start == OffsetOf(layout, c, HEAP)
      requires forall j :: 0 <= j < c ==> layout[j].used
      ensures LowestFree(layout, k) && cur == OffsetOf(layout, k, HEAP)
      ensures forall b :: b in layout && !b.used ==> cur <= b.at
    {
      cur, k := start, c;
      Following(ram[..], layout, k, HEAP);
      while ram[cur].used && cur != MEM_SIZE_ALIGNED
        invariant k <= |layout| && cur == OffsetOf(layout, k, HEAP) && cur < ram.Length
        invariant ram[cur].used == (k < |layout| ==> layout[k].used)
        invariant cur == MEM_SIZE_ALIGNED <==> k == |layout|
        invariant forall j :: 0 <= j < k ==> layout[j].used
        decreases |layout| - k
      {
        Following(ram[..], layout, k, HEAP);
        Following(ram[..], layout, k + 1, HEAP);
        cur := ram[cur].next;
        k := k + 1;
      }
      Spread(layout, HEAP);
    }
  }

  /** A block that starts less than `n` bytes below the end marker cannot hold `n` bytes, nor can any
      block behind it. */
  lemma NoFitBeyond(L: Layout, k: nat, n: nat)
    requires Tiled(L, HEAP) && k <= |L| && OffsetOf(L, k, HEAP) + n >= MEM_SIZE_ALIGNED
    ensures forall j :: k <= j < |L| ==> !Fits(L[j], n, HEAP)
  {
    Spread(L, HEAP);
  }

  /** An allocation changes the lowest free block only when it takes that block. */
  lemma TakeLowest(L: Layout, k: nat, n: nat, first: nat)
    requires Tiled(L, HEAP) && k < |L| && !L[k].used && LowestFree(L, first)
    ensures var M := Take(L, k, n, HEAP);
      if L[k].at == OffsetOf(L, first, HEAP)
      then first == k && k < |M| && M[k].at == L[k].at && (forall j :: 0 <= j < k ==> M[j].used)
      else LowestFree(M, first) && OffsetOf(M, first, HEAP) == OffsetOf(L, first, HEAP)
  {
    Spread(L, HEAP);
    var M := Take(L, k, n, HEAP);
    assert forall j :: 0 <= j < k ==> M[j] == L[j];
    assert M[k].at == L[k].at;
  }
}
