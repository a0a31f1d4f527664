/** Block headers in memory: how a chain of headers describes a layout, and which header writes
    carry one description over to the next. Shared by both allocators. */
module HeaderChain {
  import opened BlockLayout

  /** A header; `next` and `prev` are the offsets of the neighbouring headers. */
  datatype Header = Header(next: nat, prev: nat, used: bool)

  /** The `prev` link of the first header: the end marker when the chain is a ring. */
  ghost function FirstPrev(g: Geometry): nat {
    if g.ring then g.end else 0
  }

  /** The header of block `i`. */
  ghost predicate HeaderInPlace(r: seq<Header>, L: Layout, i: nat, g: Geometry)
    requires i < |L|
  {
    L[i].at < |r| && r[L[i].at] == Header(L[i].end, if i == 0 then FirstPrev(g) else L[i - 1].at, L[i].used)
  }

  /** The end marker is never free. In a ring it links the last block to the first; otherwise it
      is its own successor and its `prev` link has no meaning. */
  ghost predicate EndMarker(m: Header, L: Layout, g: Geometry)
    requires L != []
  {
    m.used && if g.ring then m.next == 0 && m.prev == L[|L| - 1].at else m.next == g.end
  }

  /** The headers in memory `r` describe the layout `L`. */
  ghost predicate Describes(r: seq<Header>, L: Layout, g: Geometry) {
    && Tiled(L, g)
    && |r| == g.end + 1
    && (forall i {:trigger HeaderInPlace(r, L, i, g)} :: 0 <= i < |L| ==> HeaderInPlace(r, L, i, g))
    && EndMarker(r[g.end], L, g)
  }

  /** Headers lie at different offsets below the end marker. */
  lemma Spread(L: Layout, g: Geometry)
    requires Tiled(L, g)
    ensures forall i :: 0 <= i < |L| ==> L[i].at < L[i].end <= g.end
    ensures forall i, j :: 0 <= i < j < |L| ==> L[i].end <= L[j].at
  {
    forall i, j | 0 <= i < j < |L| ensures L[i].end <= L[j].at {
      Ascending(L, i, j, g);
    }
    forall i | 0 <= i < |L| ensures L[i].at < L[i].end <= g.end {
      assert Sound(L[i], g);
      if i + 1 < |L| {
        Ascending(L, i, |L| - 1, g);
      }
    }
  }

  /** What the headers say about the neighbours of block `i`. */
  lemma Neighbours(r: seq<Header>, L: Layout, i: nat, g: Geometry)
    requires Describes(r, L, g) && i < |L|
    ensures L[i].at < L[i].end < |r|
    ensures r[L[i].at] == Header(L[i].end, if i == 0 then FirstPrev(g) else L[i - 1].at, L[i].used)
    ensures i + 1 < |L| ==> r[L[i].end] == Header(L[i + 1].end, L[i].at, L[i + 1].used)
    ensures L[i].end == OffsetOf(L, i + 1, g)
    ensures i + 1 < |L| <==> L[i].end != g.end
    ensures i > 0 ==> L[i - 1].at < L[i].at && r[L[i - 1].at].used == L[i - 1].used
    ensures i == 0 ==> L[i].at == 0
  {
    Spread(L, g);
    assert HeaderInPlace(r, L, i, g);
    assert i + 1 < |L| ==> HeaderInPlace(r, L, i + 1, g) && Joined(L[i], L[i + 1]);
    assert i > 0 ==> HeaderInPlace(r, L, i - 1, g);
  }

  /** Where a walk along `next` is after `k` blocks: at the header of block `k`, or at the end. */
  lemma Following(r: seq<Header>, L: Layout, k: nat, g: Geometry)
    requires Describes(r, L, g) && k <= |L|
    ensures var at := OffsetOf(L, k, g);
      && at < |r| && (at == g.end <==> k == |L|)
      && r[at].used == (k < |L| ==> L[k].used)
      && (k < |L| ==> r[at].next == L[k].end == OffsetOf(L, k + 1, g))
  {
    if k < |L| {
      Neighbours(r, L, k, g);
    }
  }

  // ----- merging -----

  /** The header memory after the header at `a` has been linked past its successor. */
  ghost function Unlinked(r: seq<Header>, a: nat, end: nat): seq<Header>
    requires a < |r| && end < |r|
  {
    var r1 := r[a := r[a].(next := end)];
    r1[end := r1[end].(prev := a)]
  }

  /** Linking the free block `i` past its free successor describes the merged layout. */
  lemma MergeDescribed(r: seq<Header>, L: Layout, i: nat, g: Geometry)
    requires Describes(r, L, g) && FreeAt(L, i) && FreeAt(L, i + 1)
    ensures L[i].at < L[i + 1].at < L[i + 1].end < |r|
    ensures Describes(Unlinked(r, L[i].at, L[i + 1].end), Merge(L, i), g)
  {
    Spread(L, g);
    Neighbours(r, L, i + 1, g);
    Neighbours(r, L, i, g);
    MergeKeepsTiled(L, i, g);
    var M := Merge(L, i);
    var r2 := Unlinked(r, L[i].at, L[i + 1].end);
    forall j | 0 <= j < |M| ensures HeaderInPlace(r2, M, j, g) {
      if j <= i {
        MergeLower(r, L, i, j, g);
      } else {
        MergeUpper(r, L, i, j, g);
      }
    }
  }

  lemma MergeLower(r: seq<Header>, L: Layout, i: nat, j: nat, g: Geometry)
    requires Describes(r, L, g) && FreeAt(L, i) && FreeAt(L, i + 1) && j <= i
    ensures L[i].at < L[i + 1].at < L[i + 1].end < |r| && j < |Merge(L, i)|
    ensures HeaderInPlace(Unlinked(r, L[i].at, L[i + 1].end), Merge(L, i), j, g)
  {
    Spread(L, g);
    Neighbours(r, L, i + 1, g);
    Neighbours(r, L, j, g);
    MergeKeepsTiled(L, i, g);
  }

  lemma MergeUpper(r: seq<Header>, L: Layout, i: nat, j: nat, g: Geometry)
    requires Describes(r, L, g) && FreeAt(L, i) && FreeAt(L, i + 1) && i < j < |Merge(L, i)|
    ensures L[i].at < L[i + 1].at < L[i + 1].end < |r|
    ensures HeaderInPlace(Unlinked(r, L[i].at, L[i + 1].end), Merge(L, i), j, g)
  {
    var M := Merge(L, i);
    Spread(L, g);
    Neighbours(r, L, i + 1, g);
    MergeKeepsTiled(L, i, g);
    assert HeaderInPlace(r, L, j + 1, g);
    assert M[j] == L[j + 1] && M[j].at > L[i].at;
    if j == i + 1 {
      assert M[j].at == L[i + 1].end && M[j - 1].at == L[i].at;
    } else {
      assert M[j].at != L[i + 1].end && M[j - 1] == L[j];
    }
  }

  // ----- cutting -----

  /** The header memory after the block at `a` has been marked `used` and cut at `mid`. */
  ghost function Carved(r: seq<Header>, a: nat, mid: nat, end: nat): seq<Header>
    requires a < |r| && mid < |r| && end < |r|
  {
    var r1 := r[mid := Header(end, a, false)];
    var r2 := r1[a := Header(mid, r1[a].prev, true)];
    r2[end := r2[end].(prev := mid)]
  }

  /** `n` follows the last of the blocks that a cut inside block `i` affects. */
  ghost predicate CutRange(L: Layout, i: nat, n: nat, mid: nat) {
    i < n <= |L| && n <= i + 2 && (n == i + 2 ==> FreeAt(L, i + 1)) && L[i].at < mid < L[i].end
  }

  ghost function CutAt(L: Layout, i: nat, n: nat, mid: nat): Layout
    requires i < n <= |L|
  {
    Splice(L, i, n, [Block(L[i].at, mid, true), Block(mid, L[n - 1].end, false)])
  }

  /** Carving a header out of block `i`, or moving the free header behind it down, describes
      the layout with the cut. */
  lemma CarveDescribed(r: seq<Header>, L: Layout, i: nat, n: nat, mid: nat, g: Geometry)
    requires Describes(r, L, g) && CutRange(L, i, n, mid) && Tiled(CutAt(L, i, n, mid), g)
    ensures L[i].at < mid < L[n - 1].end < |r|
    ensures Describes(Carved(r, L[i].at, mid, L[n - 1].end), CutAt(L, i, n, mid), g)
  {
    Spread(L, g);
    var M := CutAt(L, i, n, mid);
    var r2 := Carved(r, L[i].at, mid, L[n - 1].end);
    forall j | 0 <= j < |M| ensures HeaderInPlace(r2, M, j, g) {
      if j <= i {
        CarveLower(r, L, i, n, mid, j, g);
      } else {
        CarveUpper(r, L, i, n, mid, j, g);
      }
    }
    assert n < |L| ==> M[|M| - 1] == L[|L| - 1];
    Neighbours(r, L, n - 1, g);
  }

  lemma CarveLower(r: seq<Header>, L: Layout, i: nat, n: nat, mid: nat, j: nat, g: Geometry)
    requires Describes(r, L, g) && CutRange(L, i, n, mid) && j <= i
    ensures L[i].at < mid < L[n - 1].end < |r| && j < |CutAt(L, i, n, mid)|
    ensures HeaderInPlace(Carved(r, L[i].at, mid, L[n - 1].end), CutAt(L, i, n, mid), j, g)
  {
    Spread(L, g);
    assert HeaderInPlace(r, L, j, g);
    var M := CutAt(L, i, n, mid);
    assert forall k :: 0 <= k < i ==> M[k] == L[k];
    assert M[i] == Block(L[i].at, mid, true);
  }

  lemma CarveUpper(r: seq<Header>, L: Layout, i: nat, n: nat, mid: nat, j: nat, g: Geometry)
    requires Describes(r, L, g) && CutRange(L, i, n, mid) && i < j < |CutAt(L, i, n, mid)|
    ensures L[i].at < mid < L[n - 1].end < |r|
    ensures HeaderInPlace(Carved(r, L[i].at, mid, L[n - 1].end), CutAt(L, i, n, mid), j, g)
  {
    Spread(L, g);
    var M := CutAt(L, i, n, mid);
    assert M[i] == Block(L[i].at, mid, true) && M[i + 1] == Block(mid, L[n - 1].end, false);
    if j > i + 1 {
      var k := j - (i + 2) + n;
      assert M[j] == L[k];
      assert HeaderInPlace(r, L, k, g) && HeaderInPlace(r, L, n, g);
      assert j > i + 2 ==> M[j - 1] == L[k - 1];
      Neighbours(r, L, n - 1, g);
    }
  }

  /** Outside a ring the `prev` link of the end marker may be left as it is. */
  lemma EndMarkerPrev(r: seq<Header>, L: Layout, prev: nat, g: Geometry)
    requires Describes(r, L, g) && !g.ring
    ensures Describes(r[g.end := r[g.end].(prev := prev)], L, g)
  {
    Spread(L, g);
    var r2 := r[g.end := r[g.end].(prev := prev)];
    forall j | 0 <= j < |L| ensures HeaderInPlace(r2, L, j, g) {
      assert HeaderInPlace(r, L, j, g);
    }
  }

  // ----- flags -----

  /** Changing the flag of block `i`. */
  lemma FlagDescribed(r: seq<Header>, L: Layout, i: nat, used: bool, g: Geometry)
    requires Describes(r, L, g) && i < |L|
    ensures L[i].at < |r| - 1
    ensures Describes(r[L[i].at := r[L[i].at].(used := used)], L[i := Block(L[i].at, L[i].end, used)], g)
  {
    Spread(L, g);
    FlagKeepsTiled(L, i, used, g);
    var M := L[i := Block(L[i].at, L[i].end, used)];
    var r2 := r[L[i].at := r[L[i].at].(used := used)];
    forall j | 0 <= j < |M| ensures HeaderInPlace(r2, M, j, g) {
      FlagHeader(r, L, i, used, j, g);
    }
  }

  lemma FlagHeader(r: seq<Header>, L: Layout, i: nat, used: bool, j: nat, g: Geometry)
    requires Describes(r, L, g) && i < |L| && j < |L|
    ensures L[i].at < |r|
    ensures HeaderInPlace(r[L[i].at := r[L[i].at].(used := used)], L[i := Block(L[i].at, L[i].end, used)], j, g)
  {
    assert HeaderInPlace(r, L, j, g) && HeaderInPlace(r, L, i, g);
    Unique(L, i, g);
  }
}
