/** The memory pool of the operating system port: next fit over a ring of headers, with a
    rotating search pointer and a running count of free bytes. */
module DmemPool {
  import opened Wrappers
  import opened BlockLayout
  import opened HeaderChain

  const DM_OVERHEAD: nat := 16

  /** Rounding up to a multiple of four in 32-bit arithmetic. */
  function RoundUp(size: u32): (n: u32)
    ensures n % 4 == 0
  {
    (size + 3) % 0x1_0000_0000 / 4 * 4
  }

  /** The number of bytes a request is rounded up to. */
  function Rounded(size: u32, min: u32): u32 {
    if size < min then min else RoundUp(size)
  }

  /** The bytes the search sees at ring position `p`; position |L| is the trailer. */
  ghost function Room(L: Layout, p: nat, g: Geometry): int {
    if FreeAt(L, p) then Payload(L[p], g) else 0
  }

  /** The ring position behind `p`. */
  ghost function Succ(L: Layout, p: nat): nat {
    if p < |L| then p + 1 else 0
  }

  /** Ring position `p` is reached from `c` before the search has come round to `q`. */
  ghost predicate Between(c: nat, p: nat, q: nat) {
    if c <= q then c <= p < q else c <= p || p < q
  }

  /** Position `p` is the first one, going round the ring from `c`, that has room for `n`. */
  ghost predicate NextFit(L: Layout, c: nat, n: nat, p: nat, g: Geometry) {
    && p <= |L| && Room(L, p, g) >= n
    && forall q :: 0 <= q <= |L| && Between(c, q, p) ==> Room(L, q, g) < n
  }

  /** No position of the ring has room for `n`. */
  ghost predicate Full(L: Layout, n: nat, g: Geometry) {
    forall q :: 0 <= q <= |L| ==> Room(L, q, g) < n
  }

  /** The layout after position `p` has been handed out. */
  ghost function GetLayout(L: Layout, p: nat, n: nat, g: Geometry): Layout {
    if FreeAt(L, p) then Take(L, p, n, g) else L
  }

  ghost predicate HandedOut(L: Layout, i: nat, address: int) {
    i < |L| && L[i].used && L[i].at + DM_OVERHEAD == address
  }

  ghost predicate Live(L: Layout, address: int) {
    exists i: nat :: HandedOut(L, i, address)
  }

  ghost function IndexOf(L: Layout, address: int): (i: nat)
    requires Live(L, address)
    ensures HandedOut(L, i, address)
  {
    var i: nat :| HandedOut(L, i, address);
    i
  }

  /** The test for a split adds in 32 bits: it splits a block with too little room for the rest when the sum
      wraps. */
  predicate SplitWraps(room: int, n: nat, min: u32) {
    (n + DM_OVERHEAD + min) % 0x1_0000_0000 <= room < n + DM_OVERHEAD + min
  }

  /** What a new pool counts as available, and where it puts its trailer, in 32-bit arithmetic. */
  function InitialFree(poolSize: u32): u32 {
    (poolSize / 4 * 4 - 2 * DM_OVERHEAD) % 0x1_0000_0000
  }

  function TrailerAt(poolSize: u32): u32 {
    (InitialFree(poolSize) + DM_OVERHEAD) % 0x1_0000_0000
  }

  /** The trailer stands behind the first header and inside the pool, and the count of free bytes is right, if
      and only if the pool has room for the two headers. */
  lemma {:induction false} HeadersFit(poolSize: u32)
    ensures DM_OVERHEAD <= TrailerAt(poolSize) && TrailerAt(poolSize) + DM_OVERHEAD <= poolSize <==> 2 * DM_OVERHEAD <= poolSize
    ensures InitialFree(poolSize) <= poolSize <==> 2 * DM_OVERHEAD <= poolSize
    ensures 2 * DM_OVERHEAD <= poolSize ==> InitialFree(poolSize) == poolSize / 4 * 4 - 2 * DM_OVERHEAD
  {
    var size := poolSize / 4 * 4;
    assert size <= poolSize < size + 4;
    if 2 * DM_OVERHEAD <= poolSize {
      assert size >= 2 * DM_OVERHEAD;
    } else {
      assert InitialFree(poolSize) == size - 2 * DM_OVERHEAD + 0x1_0000_0000;
    }
  }

  class Pool {
    const mem: array<Header>
    const end: nat
    const min: u32
    var available: int
    var search: int
    ghost var layout: Layout
    ghost var cursor: nat

    ghost function G(): Geometry {
      Geometry(DM_OVERHEAD, 0, min, end, true)
    }

    /** The headers describe `layout` and link its blocks and the trailer into a ring both ways;
        `available` is the summed payload of the free blocks; the search pointer is on a header. */
    ghost predicate Linked()
      reads this, mem
    {
      && min % 4 == 0
      && Describes(mem[..], layout, G())
      && available == FreeBytes(layout, G())
      && cursor <= |layout| && search == OffsetOf(layout, cursor, G())
    }

    ghost predicate Valid()
      reads this, mem
    {
      Linked() && WellFormed(layout, G())
    }

    /** OS_Create_Memory_Pool, for a pool that has room for its two headers. */
    constructor (poolSize: u32, minAllocation: u32)
      requires 2 * DM_OVERHEAD <= poolSize
      ensures Valid() && fresh(mem)
      ensures end == poolSize / 4 * 4 - DM_OVERHEAD && min == RoundUp(minAllocation)
      ensures layout == [Block(0, end, false)] && search == 0
    {
      HeadersFit(poolSize);
      var trailer := TrailerAt(poolSize);
      end := trailer;
      min := RoundUp(minAllocation);
      mem := new Header[trailer + 1](_ => Header(0, 0, true));
      available := InitialFree(poolSize);
      search := 0;
      layout := [Block(0, trailer, false)];
      cursor := 0;
      new;
      mem[0] := Header(end, end, false);
      mem[end] := Header(0, 0, true);
      assert HeaderInPlace(mem[..], layout, 0, G());
      FreeBytesOfOne(layout[0], G());
    }

    /** OS_GetMem: None when the pool is full. `sane` is whether the test for a split does not wrap; if it does,
        what the split destroys is not followed any further. */
    method GetMem(request: u32) returns (r: Option<int>, sane: bool, ghost p: nat)
      requires Valid()
      modifies this, mem
      ensures Valid()
      ensures var n := Rounded(request, min); var L := old(layout);
        if Full(L, n, G()) then r == None && sane && layout == L && search == old(search)
        else NextFit(L, old(cursor), n, p, G()) && r == Some(OffsetOf(L, p, G()) + DM_OVERHEAD)
      ensures var n := Rounded(request, min); var L := old(layout);
        !Full(L, n, G()) ==>
        && (sane <==> !SplitWraps(Room(L, p, G()), n, min))
        && (sane ==> layout == GetLayout(L, p, n, G()))
        && (sane ==> if p == old(cursor) then cursor == Succ(layout, p) else search == old(search))
        && (!sane ==> layout == L && search == old(search))
    {
      var n := Rounded(request, min);
      var at, room;
      at, room, p := Search(n);
      r, sane := None, true;
      if room >= n {
        sane := !SplitWraps(room, n, min);
        if sane {
          Hand(at, room, n, p);
        }
        r := Some(at + DM_OVERHEAD);
      }
    }

    /** The search loop of OS_GetMem: the block it stopped at and the room it found there. */
    method Search(n: nat) returns (at: int, room: int, ghost p: nat)
      requires Valid()
      ensures room >= n <==> !Full(layout, n, G())
      ensures !Full(layout, n, G()) ==>
        && NextFit(layout, cursor, n, p, G()) && at == OffsetOf(layout, p, G())
        && room == Room(layout, p, G())
    {
      p := cursor;
      at := search;
      while true
        invariant p <= |layout| && at == OffsetOf(layout, p, G())
        invariant forall q :: 0 <= q <= |layout| && Between(cursor, q, p) ==> Room(layout, q, G()) < n
        decreases if p >= cursor then |layout| + 1 - (p - cursor) else cursor - p
      {
        Following(mem[..], layout, p, G());
        room := if mem[at].used then 0 else mem[at].next - at - DM_OVERHEAD;
        if room >= n {
          assert Room(layout, p, G()) >= n;
          return;
        }
        at := mem[at].next;
        SuccOffset(mem[..], layout, p, G());
        p := Succ(layout, p);
        if at == search {
          OffsetUnique(layout, p, cursor, G());
          return;
        }
      }
    }

    /** The part of OS_GetMem that follows a successful search at ring position `p`. */
    method Hand(at: nat, room: int, n: nat, ghost p: nat)
      requires Valid() && p <= |layout| && at == OffsetOf(layout, p, G())
      requires room == Room(layout, p, G()) >= n && n % 4 == 0 && !SplitWraps(room, n, min)
      modifies this, mem
      ensures Valid() && layout == GetLayout(old(layout), p, n, G())
      ensures if p == old(cursor) then cursor == Succ(layout, p) else search == old(search)
    {
      Following(mem[..], layout, p, G());
      OffsetUnique(layout, p, cursor, G());
      Mark(at, room, n, p);
      if search == at {
        SuccOffset(mem[..], layout, p, G());
        search := mem[at].next;
        cursor := Succ(layout, p);
      } else {
        cursor := if cursor > p then cursor + |layout| - |old(layout)| else cursor;
      }
    }

    /** Split the block if it is large enough, and mark what is handed out used. */
    method Mark(at: nat, room: int, n: nat, ghost p: nat)
      requires Valid() && p <= |layout| && at == OffsetOf(layout, p, G())
      requires room == Room(layout, p, G()) >= n && n % 4 == 0 && !SplitWraps(room, n, min)
      modifies this, mem
      ensures Describes(mem[..], layout, G()) && WellFormed(layout, G())
      ensures available == FreeBytes(layout, G())
      ensures layout == GetLayout(old(layout), p, n, G()) && p <= |layout|
      ensures cursor == old(cursor) && search == old(search)
      ensures var d := |layout| - |old(layout)|;
        && at == OffsetOf(layout, p, G())
        && (cursor < p ==> OffsetOf(layout, cursor, G()) == search)
        && (cursor > p ==> d >= 0 && OffsetOf(layout, cursor + d, G()) == search)
    {
      ghost var L := layout;
      if room >= (n + DM_OVERHEAD + min) % 0x1_0000_0000 {
        Divide(at, n, p);
      } else {
        UseWhole(at, room, n, p);
      }
      if FreeAt(L, p) {
        TakeCursor(L, p, n, cursor, G());
        TakeCursor(L, p, n, p, G());
      }
    }

    /** Split the free block at ring position `p` and use its first part. */
    method Divide(at: nat, n: nat, ghost p: nat)
      requires Valid() && FreeAt(layout, p) && at == layout[p].at && n % 4 == 0
      requires Payload(layout[p], G()) >= n + DM_OVERHEAD + min
      modifies this`layout, this`available, mem
      ensures Describes(mem[..], layout, G()) && WellFormed(layout, G()) && available == FreeBytes(layout, G())
      ensures layout == Take(old(layout), p, n, G())
    {
      ghost var L := layout;
      TakeKeepsWellFormed(L, p, n, G());
      TakeFreeBytes(L, p, n, G());
      Carve(at, at + DM_OVERHEAD + n, p);
      available := available - n - DM_OVERHEAD;
      assert layout == Take(L, p, n, G());
    }

    /** Use what is at ring position `p` as a whole. */
    method UseWhole(at: nat, room: int, n: nat, ghost p: nat)
      requires Valid() && p <= |layout| && at == OffsetOf(layout, p, G())
      requires room == Room(layout, p, G()) && n <= room < n + DM_OVERHEAD + min && n % 4 == 0
      modifies this`layout, this`available, mem
      ensures Describes(mem[..], layout, G()) && WellFormed(layout, G()) && available == FreeBytes(layout, G())
      ensures layout == GetLayout(old(layout), p, n, G())
    {
      ghost var L := layout;
      if FreeAt(L, p) {
        TakeKeepsWellFormed(L, p, n, G());
        TakeFreeBytes(L, p, n, G());
      }
      available := available - room;
      SetUsed(at, p);
      assert layout == GetLayout(L, p, n, G());
    }

    /** Split block `i` at `at` by a new header at `cut`. */
    method Carve(at: nat, cut: nat, ghost i: nat)
      requires Describes(mem[..], layout, G()) && CutRange(layout, i, i + 1, cut)
      requires Tiled(CutAt(layout, i, i + 1, cut), G()) && at == layout[i].at
      modifies mem, this`layout
      ensures Describes(mem[..], layout, G()) && layout == CutAt(old(layout), i, i + 1, cut)
    {
      Neighbours(mem[..], layout, i, G());
      CarveDescribed(mem[..], layout, i, i + 1, cut, G());
      var next := mem[at].next;
      mem[cut] := Header(next, at, false);
      mem[next] := mem[next].(prev := cut);
      mem[at] := Header(cut, mem[at].prev, true);
      assert mem[..] == Carved(old(mem[..]), at, cut, next);
      layout := CutAt(layout, i, i + 1, cut);
    }

    /** Mark the header at ring position `p` used. */
    method SetUsed(at: nat, ghost p: nat)
      requires Describes(mem[..], layout, G()) && p <= |layout| && at == OffsetOf(layout, p, G())
      modifies mem, this`layout
      ensures Describes(mem[..], layout, G())
      ensures layout == if p < |old(layout)|
        then old(layout)[p := Block(old(layout)[p].at, old(layout)[p].end, true)] else old(layout)
    {
      Following(mem[..], layout, p, G());
      if p < |layout| {
        FlagDescribed(mem[..], layout, p, true, G());
        layout := layout[p := Block(layout[p].at, layout[p].end, true)];
      } else {
        assert mem[..] == mem[..][at := mem[at].(used := true)];
      }
      mem[at] := mem[at].(used := true);
    }

    /** OS_FreeMem */
    method FreeMem(memory: int)
      requires Valid() && Live(layout, memory)
      modifies this, mem
      ensures Valid() && layout == Release(old(layout), IndexOf(old(layout), memory))
      ensures var L := old(layout); var i := IndexOf(L, memory);
        if FreeAt(L, i - 1) then cursor == i - 1
        else if FreeAt(L, i + 1) then cursor == i else search == old(search)
    {
      ghost var i := IndexOf(layout, memory);
      var at := memory - DM_OVERHEAD;
      ReleaseBackwardFirst(layout, i);
      ReleaseKeepsWellFormed(layout, i, G());
      MarkFree(at, i);
      Neighbours(mem[..], layout, i, G());
      var prev := mem[at].prev;
      if !mem[prev].used {
        Absorb(prev, at, i - 1);
        at := prev;
        i := i - 1;
      }
      Neighbours(mem[..], layout, i, G());
      Following(mem[..], layout, i + 1, G());
      var next := mem[at].next;
      if !mem[next].used {
        Absorb(at, next, i);
      }
    }

    /** The first part of OS_FreeMem: block `i` becomes free and its payload available. */
    method MarkFree(at: nat, ghost i: nat)
      requires Linked() && i < |layout| && layout[i].used && layout[i].at == at
      modifies this, mem
      ensures Linked() && cursor == old(cursor)
      ensures layout == old(layout)[i := Block(at, old(layout)[i].end, false)]
    {
      Neighbours(mem[..], layout, i, G());
      FlagDescribed(mem[..], layout, i, false, G());
      FlagFreeBytes(layout, i, G());
      mem[at] := mem[at].(used := false);
      available := available + mem[at].next - at - DM_OVERHEAD;
      layout := layout[i := Block(layout[i].at, layout[i].end, false)];
    }

    /** A merge in OS_FreeMem: the free block at `a` takes over its free successor at `b`, and the
        search pointer moves to the merged block. */
    method Absorb(a: nat, b: nat, ghost i: nat)
      requires Linked()
      requires FreeAt(layout, i) && FreeAt(layout, i + 1) && layout[i].at == a && layout[i + 1].at == b
      modifies this, mem
      ensures Linked() && layout == Merge(old(layout), i) && cursor == i
    {
      Neighbours(mem[..], layout, i, G());
      MergeDescribed(mem[..], layout, i, G());
      MergeFreeBytes(layout, i, G());
      MergeKeepsTiled(layout, i, G());
      available := available + DM_OVERHEAD;
      var next := mem[b].next;
      mem[a] := mem[a].(next := next);
      mem[next] := mem[next].(prev := a);
      search := a;
      layout := Merge(layout, i);
      cursor := i;
    }
  }

  /** Where the search pointer's block is after an allocation at `p`. */
  lemma TakeCursor(L: Layout, p: nat, n: nat, c: nat, g: Geometry)
    requires p < |L| && c <= |L|
    ensures var M := Take(L, p, n, g);
      if c > p then OffsetOf(M, c + |M| - |L|, g) == OffsetOf(L, c, g)
      else OffsetOf(M, c, g) == OffsetOf(L, c, g)
  {
  }

  lemma SuccOffset(r: seq<Header>, L: Layout, p: nat, g: Geometry)
    requires Describes(r, L, g) && g.ring && p <= |L|
    ensures OffsetOf(L, p, g) < |r| && r[OffsetOf(L, p, g)].next == OffsetOf(L, Succ(L, p), g)
  {
    Following(r, L, p, g);
  }

  /** Different ring positions have different offsets. */
  lemma OffsetUnique(L: Layout, p: nat, q: nat, g: Geometry)
    requires Tiled(L, g) && p <= |L| && q <= |L|
    ensures OffsetOf(L, p, g) == OffsetOf(L, q, g) <==> p == q
  {
    Spread(L, g);
  }
}
