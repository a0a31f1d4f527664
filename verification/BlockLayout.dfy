/** Layouts of a block heap, seen as the sequence of its blocks in address order.

    Both allocators of the firmware (mem.c and os_dmem.c) keep their memory as a chain of
    headers that tile a fixed area and end in a marker that is never free. This module
    defines the layout both of them implement, the three operations on it, and the laws
    that hold for either allocator. */
module BlockLayout {

  /** A block: its header is at byte offset `at`, the next header is at `end`. */
  datatype Block = Block(at: nat, end: nat, used: bool)

  type Layout = seq<Block>

  /** Parameters of an allocator: size of a header, the least payload any block has, the least
      payload a split may leave behind, the offset of the end marker, and whether the headers are
      linked into a ring. */
  datatype Geometry = Geometry(header: nat, floor: nat, split: nat, end: nat, ring: bool)

  ghost predicate Sensible(g: Geometry) {
    0 < g.header && Aligned(g.header) && g.floor <= g.split
  }

  /** Number of user bytes in a block. */
  ghost function Payload(b: Block, g: Geometry): int {
    b.end - b.at - g.header
  }

  ghost predicate Aligned(n: int) {
    n % 4 == 0
  }

  lemma AlignedSum(x: int, y: int, z: int)
    requires Aligned(x) && Aligned(y) && Aligned(z)
    ensures Aligned(x + y + z)
  {
  }

  ghost predicate Sound(b: Block, g: Geometry) {
    Payload(b, g) >= g.floor && Aligned(b.at) && Aligned(b.end)
  }

  ghost predicate Joined(a: Block, b: Block) {
    a.end == b.at
  }

  /** The blocks cover the area from 0 to the end marker without gap or overlap; every block is
      aligned and holds at least the minimum payload. */
  ghost predicate Tiled(L: Layout, g: Geometry) {
    && Sensible(g)
    && L != []
    && L[0].at == 0
    && L[|L| - 1].end == g.end
    && (forall i {:trigger Sound(L[i], g)} :: 0 <= i < |L| ==> Sound(L[i], g))
    && (forall i, j {:trigger Joined(L[i], L[j])} :: 0 <= i && j == i + 1 < |L| ==> Joined(L[i], L[j]))
  }

  /** Block `b` may directly follow block `a`: no gap, no overlap, not both free. */
  ghost predicate Follows(a: Block, b: Block) {
    a.end == b.at && (a.used || b.used)
  }

  ghost predicate Chained(L: Layout) {
    forall i, j {:trigger Follows(L[i], L[j])} :: 0 <= i && j == i + 1 < |L| ==> Follows(L[i], L[j])
  }

  /** A tiling in which no two neighbours are both free. */
  ghost predicate WellFormed(L: Layout, g: Geometry) {
    Tiled(L, g) && Chained(L)
  }

  /** A block is free and holds at least `size` bytes. */
  ghost predicate Fits(b: Block, size: int, g: Geometry) {
    !b.used && Payload(b, g) >= size
  }

  /** Later blocks lie behind earlier ones. */
  lemma {:induction false} Ascending(L: Layout, i: nat, j: nat, g: Geometry)
    requires Tiled(L, g) && i < j < |L|
    ensures L[i].at < L[i].end <= L[j].at < L[j].end
    decreases j
  {
    assert Joined(L[j - 1], L[j]) && Sound(L[i], g) && Sound(L[j], g);
    if i < j - 1 {
      Ascending(L, i, j - 1, g);
    }
  }

  lemma Unique(L: Layout, i: nat, g: Geometry)
    requires Tiled(L, g) && i < |L|
    ensures forall j :: 0 <= j < |L| && j != i ==> L[j].at != L[i].at
  {
    forall j | 0 <= j < |L| && j != i ensures L[j].at != L[i].at {
      if i < j {
        Ascending(L, i, j, g);
      } else {
        Ascending(L, j, i, g);
      }
    }
  }

  /** The offset at which block `k` starts, or the end marker when there is no block `k`. */
  ghost function OffsetOf(L: Layout, k: nat, g: Geometry): nat {
    if k < |L| then L[k].at else g.end
  }

  // ----- the three operations -----

  /** Replace the blocks from index `lo` up to `hi`. */
  ghost function Splice(L: Layout, lo: nat, hi: nat, mid: Layout): Layout
    requires lo <= hi <= |L|
  {
    L[..lo] + mid + L[hi..]
  }

  /** The blocks that replace a free block when `size` bytes of it are handed out: what is left
      becomes a free block of its own when it is large enough. */
  ghost function Cut(b: Block, size: nat, g: Geometry): Layout {
    var mid := b.at + g.header + size;
    if Payload(b, g) >= size + g.header + g.split
    then [Block(b.at, mid, true), Block(mid, b.end, false)]
    else [Block(b.at, b.end, true)]
  }

  ghost function Take(L: Layout, i: nat, size: nat, g: Geometry): Layout
    requires i < |L|
  {
    Splice(L, i, i + 1, Cut(L[i], size, g))
  }

  ghost predicate FreeAt(L: Layout, i: int) {
    0 <= i < |L| && !L[i].used
  }

  /** Join block `i` and its successor into one free block. */
  ghost function Merge(L: Layout, i: nat): Layout
    requires i + 1 < |L|
  {
    Splice(L, i, i + 2, [Block(L[i].at, L[i + 1].end, false)])
  }

  /** Mark block `i` free and merge it with its free neighbours. */
  ghost function Release(L: Layout, i: nat): Layout
    requires i < |L|
  {
    var lo := if FreeAt(L, i - 1) then i - 1 else i;
    var hi := if FreeAt(L, i + 1) then i + 1 else i;
    Splice(L, lo, hi + 1, [Block(L[lo].at, L[hi].end, false)])
  }

  /** A used block can give up what lies behind its first `size` bytes: a free successor can take
      it over, or it is large enough to be a block of its own. */
  ghost predicate Shrinkable(L: Layout, i: nat, size: nat, g: Geometry)
    requires i < |L|
  {
    size < Payload(L[i], g) && (FreeAt(L, i + 1) || size + g.header + g.split <= Payload(L[i], g))
  }

  /** Shrink used block `i` to `size` bytes where that is possible. */
  ghost function Shrink(L: Layout, i: nat, size: nat, g: Geometry): Layout
    requires i < |L|
  {
    var n := if FreeAt(L, i + 1) then i + 2 else i + 1;
    var mid := L[i].at + g.header + size;
    if Shrinkable(L, i, size, g)
    then Splice(L, i, n, [Block(L[i].at, mid, true), Block(mid, L[n - 1].end, false)])
    else L
  }

  // ----- the layout invariant is kept -----

  /** The run of blocks from `lo` up to `hi` can be replaced by `mid`: both cover the same area, and
      `mid` is a sound chain that does not put a free block next to a free neighbour. */
  ghost predicate Replaceable(L: Layout, lo: nat, hi: nat, mid: Layout, g: Geometry) {
    && lo < hi <= |L| && mid != []
    && mid[0].at == L[lo].at && mid[|mid| - 1].end == L[hi - 1].end
    && (forall i {:trigger Sound(mid[i], g)} :: 0 <= i < |mid| ==> Sound(mid[i], g))
    && Chained(mid)
    && (lo > 0 ==> L[lo - 1].used || mid[0].used)
    && (hi < |L| ==> L[hi].used || mid[|mid| - 1].used)
  }

  lemma SpliceKeepsWellFormed(L: Layout, lo: nat, hi: nat, mid: Layout, g: Geometry)
    requires WellFormed(L, g) && Replaceable(L, lo, hi, mid, g)
    ensures WellFormed(Splice(L, lo, hi, mid), g)
  {
    var M := Splice(L, lo, hi, mid);
    SpliceChains(L, lo, hi, mid, g);
    forall i, j | 0 <= i && j == i + 1 < |M| ensures Joined(M[i], M[j]) {
      assert Follows(M[i], M[j]);
    }
    forall i | 0 <= i < |M| ensures Sound(M[i], g) {
      if i < lo {
        assert M[i] == L[i];
      } else if i < lo + |mid| {
        assert M[i] == mid[i - lo];
      } else {
        assert M[i] == L[i - |mid| + hi - lo];
      }
    }
    assert M[0].at == 0;
    assert M[|M| - 1].end == g.end;
  }

  lemma SpliceChains(L: Layout, lo: nat, hi: nat, mid: Layout, g: Geometry)
    requires WellFormed(L, g) && Replaceable(L, lo, hi, mid, g)
    ensures Chained(Splice(L, lo, hi, mid))
  {
    var M := Splice(L, lo, hi, mid);
    var d := |mid| - (hi - lo);
    forall i, j | 0 <= i && j == i + 1 < |M| ensures Follows(M[i], M[j]) {
      if j < lo {
        assert Follows(L[i], L[j]) && M[i] == L[i] && M[j] == L[j];
      } else if j == lo {
        assert Follows(L[i], L[j]) && M[i] == L[i] && M[j] == mid[0];
      } else if j < lo + |mid| {
        assert Follows(mid[i - lo], mid[j - lo]) && M[i] == mid[i - lo] && M[j] == mid[j - lo];
      } else if j == lo + |mid| {
        assert Follows(L[hi - 1], L[hi]) && M[i] == mid[|mid| - 1] && M[j] == L[hi];
      } else {
        assert Follows(L[i - d], L[j - d]) && M[i] == L[i - d] && M[j] == L[j - d];
      }
    }
  }

  lemma TakeKeepsWellFormed(L: Layout, i: nat, size: nat, g: Geometry)
    requires WellFormed(L, g) && i < |L| && Fits(L[i], size, g) && g.floor <= size && Aligned(size)
    ensures WellFormed(Take(L, i, size, g), g)
  {
    assert Sound(L[i], g);
    assert i > 0 ==> Follows(L[i - 1], L[i]);
    assert i + 1 < |L| ==> Follows(L[i], L[i + 1]);
    AlignedSum(L[i].at, g.header, size);
    if Payload(L[i], g) >= size + g.header + g.split {
      PairReplaces(L, i, i + 1, L[i].at + g.header + size, g);
    } else {
      SpliceKeepsWellFormed(L, i, i + 1, [Block(L[i].at, L[i].end, true)], g);
    }
  }

  lemma ReleaseKeepsWellFormed(L: Layout, i: nat, g: Geometry)
    requires WellFormed(L, g) && i < |L| && L[i].used
    ensures WellFormed(Release(L, i), g)
  {
    var lo := if FreeAt(L, i - 1) then i - 1 else i;
    var hi := if FreeAt(L, i + 1) then i + 1 else i;
    assert Sound(L[lo], g) && Sound(L[hi], g) && Sound(L[i], g);
    assert lo < i ==> Follows(L[lo], L[i]);
    assert i < hi ==> Follows(L[i], L[hi]);
    assert lo > 0 ==> Follows(L[lo - 1], L[lo]);
    assert hi + 1 < |L| ==> Follows(L[hi], L[hi + 1]);
    SpliceKeepsWellFormed(L, lo, hi + 1, [Block(L[lo].at, L[hi].end, false)], g);
  }

  lemma ShrinkKeepsWellFormed(L: Layout, i: nat, size: nat, g: Geometry)
    requires WellFormed(L, g) && i < |L| && L[i].used && g.floor <= size && Aligned(size)
    ensures WellFormed(Shrink(L, i, size, g), g)
  {
    var n := if FreeAt(L, i + 1) then i + 2 else i + 1;
    assert Sound(L[i], g) && Sound(L[n - 1], g);
    assert i + 1 < |L| ==> Follows(L[i], L[i + 1]);
    assert n < |L| ==> Follows(L[n - 1], L[n]);
    AlignedSum(L[i].at, g.header, size);
    if Shrinkable(L, i, size, g) {
      PairReplaces(L, i, n, L[i].at + g.header + size, g);
    }
  }

  /** A run may become a used block up to `cut` followed by a free one. */
  lemma PairReplaces(L: Layout, lo: nat, hi: nat, cut: nat, g: Geometry)
    requires WellFormed(L, g) && lo < hi <= |L| && (hi < |L| ==> L[hi].used)
    requires var a := Block(L[lo].at, cut, true); var b := Block(cut, L[hi - 1].end, false);
      Sound(a, g) && Sound(b, g)
    ensures WellFormed(Splice(L, lo, hi, [Block(L[lo].at, cut, true), Block(cut, L[hi - 1].end, false)]), g)
  {
    SpliceKeepsWellFormed(L, lo, hi, [Block(L[lo].at, cut, true), Block(cut, L[hi - 1].end, false)], g);
  }

  lemma FlagKeepsTiled(L: Layout, i: nat, used: bool, g: Geometry)
    requires Tiled(L, g) && i < |L|
    ensures Tiled(L[i := Block(L[i].at, L[i].end, used)], g)
  {
    var M := L[i := Block(L[i].at, L[i].end, used)];
    forall j | 0 <= j < |M| ensures Sound(M[j], g) {
      assert Sound(L[j], g);
    }
    forall a, b | 0 <= a && b == a + 1 < |M| ensures Joined(M[a], M[b]) {
      assert Joined(L[a], L[b]);
    }
  }

  /** Joining two neighbouring free blocks leaves a tiling. */
  lemma MergeKeepsTiled(L: Layout, i: nat, g: Geometry)
    requires Tiled(L, g) && FreeAt(L, i) && FreeAt(L, i + 1)
    ensures Tiled(Merge(L, i), g)
    ensures |Merge(L, i)| == |L| - 1 && Merge(L, i)[i] == Block(L[i].at, L[i + 1].end, false)
    ensures forall k :: 0 <= k < i ==> Merge(L, i)[k] == L[k]
    ensures forall k :: i < k < |L| - 1 ==> Merge(L, i)[k] == L[k + 1]
  {
    var M := Merge(L, i);
    assert Sound(L[i], g) && Sound(L[i + 1], g) && Joined(L[i], L[i + 1]);
    forall a, b | 0 <= a && b == a + 1 < |M| ensures Joined(M[a], M[b]) {
      assert a < i ==> Joined(L[a], L[b]);
      assert a >= i ==> Joined(L[a + 1], L[b + 1]);
    }
    forall k | 0 <= k < |M| ensures Sound(M[k], g) {
      assert Sound(L[if k <= i then k else k + 1], g);
    }
  }

  /** Merging two blocks that stand between `A` and `C`. */
  lemma MergeBetween(L: Layout, A: Layout, x: Block, y: Block, C: Layout)
    requires L == A + [x] + [y] + C
    ensures Merge(L, |A|) == A + [Block(x.at, y.end, false)] + C
  {
    assert L[..|A|] == A && L[|A| + 2..] == C && L[|A|] == x && L[|A| + 1] == y;
  }

  /** Freeing block `i` and merging it with a free successor. */
  lemma FreeThenMerge(L: Layout, i: nat)
    requires i < |L|
    ensures var F := L[i := Block(L[i].at, L[i].end, false)]; var hi := if FreeAt(L, i + 1) then i + 1 else i;
      (if FreeAt(F, i + 1) then Merge(F, i) else F) == L[..i] + [Block(L[i].at, L[hi].end, false)] + L[hi + 1..]
  {
    var F := L[i := Block(L[i].at, L[i].end, false)];
    if FreeAt(F, i + 1) {
      assert F == L[..i] + [F[i]] + [L[i + 1]] + L[i + 2..];
      MergeBetween(F, L[..i], F[i], L[i + 1], L[i + 2..]);
    }
  }

  /** It makes no difference to a release whether the block is marked free before. */
  lemma ReleaseOfFreed(L: Layout, i: nat)
    requires i < |L|
    ensures var F := L[i := Block(L[i].at, L[i].end, false)]; Release(F, i) == Release(L, i)
  {
    var F := L[i := Block(L[i].at, L[i].end, false)];
    var lo := if FreeAt(L, i - 1) then i - 1 else i;
    var hi := if FreeAt(L, i + 1) then i + 1 else i;
    assert F[..lo] == L[..lo] && F[hi + 1..] == L[hi + 1..];
  }

  /** Merging the freed block, joined to what follows, with its predecessor. */
  lemma MergeBackward(L: Layout, i: nat, hi: nat, M: Layout)
    requires i <= hi < |L| && hi == (if FreeAt(L, i + 1) then i + 1 else i)
    requires M == L[..i] + [Block(L[i].at, L[hi].end, false)] + L[hi + 1..]
    ensures Release(L, i) == if FreeAt(L, i - 1) then Merge(M, i - 1) else M
  {
    if FreeAt(L, i - 1) {
      assert L[..i] == L[..i - 1] + [L[i - 1]];
      MergeBetween(M, L[..i - 1], L[i - 1], M[i], L[hi + 1..]);
    }
  }

  /** Releasing a block is freeing it and then merging with its neighbours, in either order. */
  lemma ReleaseInSteps(L: Layout, i: nat)
    requires i < |L|
    ensures var F := L[i := Block(L[i].at, L[i].end, false)];
      var M := if FreeAt(F, i + 1) then Merge(F, i) else F;
      Release(F, i) == Release(L, i)
      && Release(L, i) == (if FreeAt(F, i - 1) then Merge(M, i - 1) else M)
      && i < |M| && M[i].at == L[i].at && !M[i].used && (i > 0 ==> M[i - 1] == L[i - 1])
  {
    ReleaseOfFreed(L, i);
    FreeThenMerge(L, i);
    var F := L[i := Block(L[i].at, L[i].end, false)];
    var M := if FreeAt(F, i + 1) then Merge(F, i) else F;
    MergeBackward(L, i, if FreeAt(L, i + 1) then i + 1 else i, M);
  }

  /** Freeing block `i` and merging it with a free predecessor. */
  lemma FreeThenMergeBack(L: Layout, i: nat)
    requires i < |L|
    ensures var F := L[i := Block(L[i].at, L[i].end, false)]; var lo := if FreeAt(L, i - 1) then i - 1 else i;
      (if FreeAt(F, i - 1) then Merge(F, i - 1) else F) == L[..lo] + [Block(L[lo].at, L[i].end, false)] + L[i + 1..]
  {
    var F := L[i := Block(L[i].at, L[i].end, false)];
    if FreeAt(F, i - 1) {
      assert F == L[..i - 1] + [L[i - 1]] + [F[i]] + L[i + 1..];
      MergeBetween(F, L[..i - 1], L[i - 1], F[i], L[i + 1..]);
    }
  }

  /** Merging the freed block, joined to what precedes it, with its successor. */
  lemma MergeForward(L: Layout, i: nat, lo: nat, P: Layout)
    requires i < |L| && lo == (if FreeAt(L, i - 1) then i - 1 else i)
    requires P == L[..lo] + [Block(L[lo].at, L[i].end, false)] + L[i + 1..]
    ensures FreeAt(P, lo + 1) == FreeAt(L, i + 1) && (FreeAt(L, i + 1) ==> P[lo + 1] == L[i + 1])
    ensures Release(L, i) == if FreeAt(L, i + 1) then Merge(P, lo) else P
  {
    assert i + 1 < |L| ==> P[lo + 1] == L[i + 1];
    if FreeAt(L, i + 1) {
      assert L[i + 1..] == [L[i + 1]] + L[i + 2..];
      MergeBetween(P, L[..lo], P[lo], L[i + 1], L[i + 2..]);
    }
  }

  lemma ReleaseBackwardFirst(L: Layout, i: nat)
    requires i < |L|
    ensures var F := L[i := Block(L[i].at, L[i].end, false)];
      var lo := if FreeAt(L, i - 1) then i - 1 else i;
      var P := if FreeAt(F, i - 1) then Merge(F, i - 1) else F;
      && lo < |P| && P[lo].at == L[lo].at && !P[lo].used
      && FreeAt(P, lo + 1) == FreeAt(L, i + 1) && (FreeAt(L, i + 1) ==> P[lo + 1] == L[i + 1])
      && Release(L, i) == (if FreeAt(P, lo + 1) then Merge(P, lo) else P)
  {
    var F := L[i := Block(L[i].at, L[i].end, false)];
    var lo := if FreeAt(L, i - 1) then i - 1 else i;
    FreeThenMergeBack(L, i);
    MergeForward(L, i, lo, if FreeAt(F, i - 1) then Merge(F, i - 1) else F);
  }

  // ----- one operation undoes another -----

  /** Allocating and then freeing the same block restores the layout exactly. */
  lemma TakeThenRelease(L: Layout, i: nat, size: nat, g: Geometry)
    requires WellFormed(L, g) && i < |L| && Fits(L[i], size, g)
    ensures i < |Take(L, i, size, g)| && Take(L, i, size, g)[i].at == L[i].at
    ensures Release(Take(L, i, size, g), i) == L
  {
    var M := Take(L, i, size, g);
    var n := |Cut(L[i], size, g)|;
    assert i > 0 ==> Follows(L[i - 1], L[i]);
    assert i + 1 < |L| ==> Follows(L[i], L[i + 1]) && M[i + n] == L[i + 1];
    assert !FreeAt(M, i - 1) by {
      assert i > 0 ==> M[i - 1] == L[i - 1];
    }
    var hi := i + n - 1;
    assert M[i] == Cut(L[i], size, g)[0] && M[hi] == Cut(L[i], size, g)[n - 1];
    assert FreeAt(M, i + 1) <==> n == 2;
    assert M[..i] == L[..i];
    assert M[hi + 1..] == L[i + 1..];
    assert Release(M, i) == L[..i] + [L[i]] + L[i + 1..];
  }

  /** Shrinking a block before freeing it gives the same layout as freeing it. */
  lemma ShrinkThenRelease(L: Layout, i: nat, size: nat, g: Geometry)
    requires i < |L| && L[i].used
    ensures i < |Shrink(L, i, size, g)| && Shrink(L, i, size, g)[i].at == L[i].at
    ensures Shrink(L, i, size, g)[i].used
    ensures Release(Shrink(L, i, size, g), i) == Release(L, i)
  {
    var n := if FreeAt(L, i + 1) then i + 2 else i + 1;
    if Shrinkable(L, i, size, g) {
      PairThenRelease(L, i, n, L[i].at + g.header + size);
    } else {
      assert Shrink(L, i, size, g) == L;
    }
  }

  /** Splitting `L[i]` and its free successor, if any, at another point does not change what
      freeing `L[i]` gives. */
  lemma PairThenRelease(L: Layout, i: nat, n: nat, cut: nat)
    requires i < |L| && L[i].used && n == (if FreeAt(L, i + 1) then i + 2 else i + 1)
    ensures var M := Splice(L, i, n, [Block(L[i].at, cut, true), Block(cut, L[n - 1].end, false)]);
      i < |M| && M[i] == Block(L[i].at, cut, true) && Release(M, i) == Release(L, i)
  {
    var M := Splice(L, i, n, [Block(L[i].at, cut, true), Block(cut, L[n - 1].end, false)]);
    var lo := if FreeAt(L, i - 1) then i - 1 else i;
    assert i > 0 ==> M[i - 1] == L[i - 1];
    assert M[i] == Block(L[i].at, cut, true) && M[i + 1] == Block(cut, L[n - 1].end, false);
    assert FreeAt(M, i + 1) && FreeAt(M, i - 1) == FreeAt(L, i - 1);
    assert M[..lo] == L[..lo];
    assert M[i + 2..] == L[n..];
  }

  // ----- what the callers own -----

  /** The blocks handed out to callers. */
  ghost function Owned(L: Layout): set<Block> {
    set b | b in L && b.used
  }

  /** Blocks owned by callers never overlap and lie inside the managed area. */
  lemma OwnedDisjoint(L: Layout, g: Geometry, x: Block, y: Block)
    requires WellFormed(L, g) && x in Owned(L) && y in Owned(L) && x != y
    ensures x.end <= y.at || y.end <= x.at
    ensures x.at + g.header + g.floor <= x.end <= g.end
  {
    var i :| 0 <= i < |L| && x == L[i];
    var j :| 0 <= j < |L| && y == L[j];
    assert Sound(L[i], g);
    if i < |L| - 1 {
      Ascending(L, i, |L| - 1, g);
    }
    if i < j {
      Ascending(L, i, j, g);
    } else {
      Ascending(L, j, i, g);
    }
  }

  /** Allocation adds one block and leaves every other owned block as it was. */
  lemma TakeOwned(L: Layout, i: nat, size: nat, g: Geometry)
    requires WellFormed(L, g) && i < |L| && Fits(L[i], size, g)
    ensures var M := Take(L, i, size, g);
      i < |M| && M[i].at == L[i].at && Payload(M[i], g) >= size
      && Owned(M) == Owned(L) + {M[i]} && M[i] !in Owned(L)
  {
    var M := Take(L, i, size, g);
    assert L == L[..i] + [L[i]] + L[i + 1..];
    assert M[i] == Cut(L[i], size, g)[0];
    Unique(L, i, g);
  }

  /** Freeing removes exactly the freed block. */
  lemma ReleaseOwned(L: Layout, i: nat, g: Geometry)
    requires WellFormed(L, g) && i < |L| && L[i].used
    ensures Owned(Release(L, i)) == Owned(L) - {L[i]}
  {
    var lo := if FreeAt(L, i - 1) then i - 1 else i;
    var hi := if FreeAt(L, i + 1) then i + 1 else i;
    SpliceOwned(L, i, lo, hi + 1, [Block(L[lo].at, L[hi].end, false)], g);
  }

  /** Replacing a run whose only used block is `L[i]`. */
  lemma SpliceOwned(L: Layout, i: nat, lo: nat, hi: nat, mid: Layout, g: Geometry)
    requires WellFormed(L, g) && lo <= i < hi <= |L| && L[i].used
    requires forall k :: lo <= k < hi && L[k].used ==> k == i
    ensures Owned(Splice(L, lo, hi, mid)) == Owned(L) - {L[i]} + Owned(mid)
  {
    Unique(L, i, g);
    var M := Splice(L, lo, hi, mid);
    forall b | b in Owned(M) ensures b in Owned(L) - {L[i]} + Owned(mid) {
    }
    forall b | b in Owned(L) && b != L[i] ensures b in Owned(M) {
      var k :| 0 <= k < |L| && L[k] == b;
      assert b in L[..lo] || b in L[hi..];
    }
  }

  /** Shrinking replaces one block by a prefix of it. */
  lemma ShrinkOwned(L: Layout, i: nat, size: nat, g: Geometry)
    requires WellFormed(L, g) && i < |L| && L[i].used
    ensures var M := Shrink(L, i, size, g);
      i < |M| && M[i].at == L[i].at && M[i].end <= L[i].end && M[i].used
      && Payload(M[i], g) >= (if size < Payload(L[i], g) then size else Payload(L[i], g))
      && Owned(M) == Owned(L) - {L[i]} + {M[i]}
  {
    var M := Shrink(L, i, size, g);
    if M != L {
      var n := if FreeAt(L, i + 1) then i + 2 else i + 1;
      var mid := [M[i], M[i + 1]];
      assert M == Splice(L, i, n, mid);
      SpliceOwned(L, i, i, n, mid, g);
      assert Owned(mid) == {M[i]};
    } else {
      assert L[i] in Owned(L);
    }
  }

  // ----- free bytes -----

  /** Summed payload of the free blocks. */
  ghost function FreeBytes(L: Layout, g: Geometry): int {
    if L == [] then 0
    else (if L[0].used then 0 else Payload(L[0], g)) + FreeBytes(L[1..], g)
  }

  lemma {:induction false} FreeBytesConcat(A: Layout, B: Layout, g: Geometry)
    ensures FreeBytes(A + B, g) == FreeBytes(A, g) + FreeBytes(B, g)
  {
    if A == [] {
      assert A + B == B;
    } else {
      FreeBytesConcat(A[1..], B, g);
      assert (A + B)[1..] == A[1..] + B;
    }
  }

  lemma FreeBytesAround(A: Layout, B: Layout, C: Layout, g: Geometry)
    ensures FreeBytes(A + B + C, g) == FreeBytes(A, g) + FreeBytes(B, g) + FreeBytes(C, g)
  {
    FreeBytesConcat(A + B, C, g);
    FreeBytesConcat(A, B, g);
  }

  lemma FreeBytesNonNegative(L: Layout, g: Geometry)
    requires forall i :: 0 <= i < |L| ==> Sound(L[i], g)
    ensures FreeBytes(L, g) >= 0
  {
    if L != [] {
      assert Sound(L[0], g);
      FreeBytesNonNegative(L[1..], g);
    }
  }

  /** An allocation costs its payload, plus one header when the block is split. */
  lemma TakeFreeBytes(L: Layout, i: nat, size: nat, g: Geometry)
    requires i < |L| && Fits(L[i], size, g)
    ensures FreeBytes(Take(L, i, size, g), g) == FreeBytes(L, g) -
      (if Payload(L[i], g) >= size + g.header + g.split then size + g.header else Payload(L[i], g))
  {
    var cut := Cut(L[i], size, g);
    assert L == L[..i] + [L[i]] + L[i + 1..];
    FreeBytesAround(L[..i], [L[i]], L[i + 1..], g);
    FreeBytesAround(L[..i], cut, L[i + 1..], g);
    assert |cut| == 2 ==> cut[1..][1..] == [];
    assert |cut| == 1 ==> cut[1..] == [];
    assert [L[i]][1..] == [];
  }

  /** The bytes from `lo` up to `hi` belong to one free block. */
  ghost predicate FreeArea(L: Layout, lo: int, hi: int) {
    exists b :: b in L && !b.used && b.at <= lo && hi <= b.end
  }

  /** The exact effect of handing `size` bytes of a free block out: the block has just these bytes if there is
      room for another block behind them, which is then free, and all of the block's bytes otherwise. */
  lemma TakeExact(L: Layout, i: nat, size: nat, g: Geometry)
    requires i < |L| && Fits(L[i], size, g)
    ensures var M, room := Take(L, i, size, g), Payload(L[i], g); var split := room >= size + g.header + g.split;
      && i < |M| && M[i].used && M[i].at == L[i].at && Payload(M[i], g) == (if split then size else room)
      && (split ==> FreeArea(M, M[i].end, L[i].end))
      && FreeBytes(M, g) == FreeBytes(L, g) - (if split then size + g.header else room)
  {
    TakeFreeBytes(L, i, size, g);
    var M := Take(L, i, size, g);
    assert M[i] == Cut(L[i], size, g)[0];
    if Payload(L[i], g) >= size + g.header + g.split {
      assert M[i + 1] == Block(M[i].end, L[i].end, false);
    }
  }

  /** The exact effect of shrinking a used block: it has just the wanted bytes if its successor is free or there is
      room for another block behind them, and then everything up to the next used block is free; otherwise
      nothing happens. */
  lemma ShrinkExact(L: Layout, i: nat, size: nat, g: Geometry)
    requires Tiled(L, g) && i < |L| && L[i].used && size <= Payload(L[i], g)
    ensures var M, was := Shrink(L, i, size, g), Payload(L[i], g);
      var end := if FreeAt(L, i + 1) then L[i + 1].end else L[i].end;
      var cut := size < was && (FreeAt(L, i + 1) || was >= size + g.header + g.split);
      && i < |M| && M[i].used && M[i].at == L[i].at && Payload(M[i], g) == (if cut then size else was)
      && (cut ==> FreeArea(M, M[i].end, end))
      && FreeBytes(M, g) == FreeBytes(L, g) + (if !cut then 0 else if FreeAt(L, i + 1) then was - size else was - size - g.header)
  {
    var M := Shrink(L, i, size, g);
    if M != L {
      ShrinkFreeBytes(L, i, size, g);
      var n := if FreeAt(L, i + 1) then i + 2 else i + 1;
      var rest := Block(L[i].at + g.header + size, L[n - 1].end, false);
      assert M[i] == Block(L[i].at, rest.at, true) && M[i + 1] == rest;
    }
  }

  lemma SpliceFreeBytes(L: Layout, lo: nat, hi: nat, mid: Layout, g: Geometry)
    requires lo <= hi <= |L|
    ensures FreeBytes(Splice(L, lo, hi, mid), g) == FreeBytes(L, g) - FreeBytes(L[lo..hi], g) + FreeBytes(mid, g)
  {
    assert L == L[..lo] + L[lo..hi] + L[hi..];
    FreeBytesAround(L[..lo], L[lo..hi], L[hi..], g);
    FreeBytesAround(L[..lo], mid, L[hi..], g);
  }

  lemma FreeBytesOfTwo(a: Block, b: Block, g: Geometry)
    ensures FreeBytes([a, b], g) == (if a.used then 0 else Payload(a, g)) + (if b.used then 0 else Payload(b, g))
  {
    assert [a, b] == [a] + [b];
    FreeBytesConcat([a], [b], g);
    FreeBytesOfOne(a, g);
    FreeBytesOfOne(b, g);
  }

  lemma ShrinkFreeBytes(L: Layout, i: nat, size: nat, g: Geometry)
    requires Tiled(L, g) && i < |L| && L[i].used && Shrinkable(L, i, size, g)
    ensures FreeBytes(Shrink(L, i, size, g), g) ==
      FreeBytes(L, g) + Payload(L[i], g) - size - (if FreeAt(L, i + 1) then 0 else g.header)
  {
    var mid := L[i].at + g.header + size;
    if FreeAt(L, i + 1) {
      assert Joined(L[i], L[i + 1]);
      PairFreeBytes(L, i, Block(L[i].at, mid, true), Block(mid, L[i + 1].end, false), g);
    } else {
      OneFreeBytes(L, i, Block(L[i].at, mid, true), Block(mid, L[i].end, false), g);
    }
  }

  lemma PairFreeBytes(L: Layout, i: nat, a: Block, b: Block, g: Geometry)
    requires i + 1 < |L| && L[i].used && !L[i + 1].used && a.used && !b.used
    ensures FreeBytes(Splice(L, i, i + 2, [a, b]), g) == FreeBytes(L, g) - Payload(L[i + 1], g) + Payload(b, g)
  {
    SpliceFreeBytes(L, i, i + 2, [a, b], g);
    assert L[i..i + 2] == [L[i], L[i + 1]];
    FreeBytesOfTwo(a, b, g);
    FreeBytesOfTwo(L[i], L[i + 1], g);
  }

  lemma OneFreeBytes(L: Layout, i: nat, a: Block, b: Block, g: Geometry)
    requires i < |L| && L[i].used && a.used && !b.used
    ensures FreeBytes(Splice(L, i, i + 1, [a, b]), g) == FreeBytes(L, g) + Payload(b, g)
  {
    SpliceFreeBytes(L, i, i + 1, [a, b], g);
    assert L[i..i + 1] == [L[i]];
    FreeBytesOfTwo(a, b, g);
    FreeBytesOfOne(L[i], g);
  }

  /** The exact effect of releasing a block: its bytes are free, and so is a header for each free neighbour. */
  lemma ReleaseExact(L: Layout, i: nat, g: Geometry)
    requires Tiled(L, g) && i < |L| && L[i].used
    ensures FreeArea(Release(L, i), L[i].at, L[i].end)
    ensures FreeBytes(Release(L, i), g) == FreeBytes(L, g) + Payload(L[i], g)
           + (if FreeAt(L, i - 1) then g.header else 0) + (if FreeAt(L, i + 1) then g.header else 0)
  {
    var M := Release(L, i);
    var lo := if FreeAt(L, i - 1) then i - 1 else i;
    var hi := if FreeAt(L, i + 1) then i + 1 else i;
    assert M[lo] == Block(L[lo].at, L[hi].end, false);
    if lo < i {
      Ascending(L, lo, i, g);
    }
    if i < hi {
      Ascending(L, i, hi, g);
    }
    ReleaseFreeBytes(L, i, g);
  }

  lemma ReleaseFreeBytes(L: Layout, i: nat, g: Geometry)
    requires Tiled(L, g) && i < |L| && L[i].used
    ensures FreeBytes(Release(L, i), g) == FreeBytes(L, g) + Payload(L[i], g)
           + (if FreeAt(L, i - 1) then g.header else 0) + (if FreeAt(L, i + 1) then g.header else 0)
  {
    var F := L[i := Block(L[i].at, L[i].end, false)];
    FlagFreeBytes(L, i, g);
    FlagKeepsTiled(L, i, false, g);
    ReleaseInSteps(L, i);
    if FreeAt(F, i + 1) {
      MergeFreeBytes(F, i, g);
      MergeKeepsTiled(F, i, g);
      if FreeAt(F, i - 1) {
        MergeFreeBytes(Merge(F, i), i - 1, g);
      }
    } else if FreeAt(F, i - 1) {
      MergeFreeBytes(F, i - 1, g);
    }
  }

  /** Marking a block free gives back its payload. */
  lemma FlagFreeBytes(L: Layout, i: nat, g: Geometry)
    requires i < |L| && L[i].used
    ensures FreeBytes(L[i := Block(L[i].at, L[i].end, false)], g) == FreeBytes(L, g) + Payload(L[i], g)
  {
    var freed := Block(L[i].at, L[i].end, false);
    assert L == L[..i] + [L[i]] + L[i + 1..];
    assert L[i := freed] == L[..i] + [freed] + L[i + 1..];
    FreeBytesAround(L[..i], [L[i]], L[i + 1..], g);
    FreeBytesAround(L[..i], [freed], L[i + 1..], g);
    FreeBytesOfOne(L[i], g);
    FreeBytesOfOne(freed, g);
  }

  /** Merging two free blocks gives back one header. */
  lemma MergeFreeBytes(L: Layout, i: nat, g: Geometry)
    requires Tiled(L, g) && FreeAt(L, i) && FreeAt(L, i + 1)
    ensures FreeBytes(Merge(L, i), g) == FreeBytes(L, g) + g.header
  {
    var merged := Block(L[i].at, L[i + 1].end, false);
    assert Joined(L[i], L[i + 1]);
    assert L == L[..i] + ([L[i]] + [L[i + 1]]) + L[i + 2..];
    FreeBytesAround(L[..i], [L[i]] + [L[i + 1]], L[i + 2..], g);
    FreeBytesAround(L[..i], [merged], L[i + 2..], g);
    FreeBytesConcat([L[i]], [L[i + 1]], g);
    FreeBytesOfOne(L[i], g);
    FreeBytesOfOne(L[i + 1], g);
    FreeBytesOfOne(merged, g);
  }

  lemma FreeBytesOfOne(b: Block, g: Geometry)
    ensures FreeBytes([b], g) == if b.used then 0 else Payload(b, g)
  {
    assert [b][1..] == [];
  }

  /** Summed payload of the used blocks. */
  ghost function UsedBytes(L: Layout, g: Geometry): int {
    if L == [] then 0
    else (if L[0].used then Payload(L[0], g) else 0) + UsedBytes(L[1..], g)
  }

  /** Free payload, used payload and headers add up to the managed area. */
  lemma Conservation(L: Layout, g: Geometry)
    requires Tiled(L, g)
    ensures FreeBytes(L, g) + UsedBytes(L, g) + |L| * g.header == g.end
  {
    SuffixConservation(L, 0, g);
  }

  lemma {:induction false} SuffixConservation(L: Layout, k: nat, g: Geometry)
    requires Tiled(L, g) && k < |L|
    ensures FreeBytes(L[k..], g) + UsedBytes(L[k..], g) + (|L| - k) * g.header == g.end - L[k].at
    decreases |L| - k
  {
    assert L[k..][0] == L[k] && L[k..][1..] == L[k + 1..];
    if k + 1 < |L| {
      SuffixConservation(L, k + 1, g);
      assert Joined(L[k], L[k + 1]);
      assert (|L| - k) * g.header == (|L| - (k + 1)) * g.header + g.header;
    } else {
      assert L[k + 1..] == [];
    }
  }
}
