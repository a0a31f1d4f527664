/** What the ring pool promises its callers. */
module DmemPoolLaws {
  import opened Wrappers
  import opened BlockLayout
  import opened DmemPool

  /** For a request that rounds to a positive size, the search fails exactly when no free block fits. */
  lemma FullMeansNoFit(L: Layout, n: nat, g: Geometry)
    requires n > 0
    ensures Full(L, n, g) <==> forall b :: b in L ==> !Fits(b, n, g)
  {
    if !Full(L, n, g) {
      var q :| 0 <= q <= |L| && Room(L, q, g) >= n;
      assert L[q] in L;
    }
    forall b | b in L && Fits(b, n, g) ensures !Full(L, n, g) {
      var q :| 0 <= q < |L| && L[q] == b;
      assert Room(L, q, g) >= n;
    }
  }

  /** A search that does not fail stops at one position, the first going round from `c`. */
  lemma {:induction false} SearchStops(L: Layout, c: nat, n: nat, g: Geometry) returns (p: nat)
    requires c <= |L| && !Full(L, n, g)
    ensures NextFit(L, c, n, p, g)
    ensures forall q: nat :: NextFit(L, c, n, q, g) ==> q == p
  {
    p := c;
    while Room(L, p, g) < n
      invariant p <= |L|
      invariant forall q :: 0 <= q <= |L| && Between(c, q, p) ==> Room(L, q, g) < n
      decreases if p >= c then |L| + 1 - (p - c) else c - p
    {
      if Succ(L, p) == c {
        assert false by {
          assert Full(L, n, g);
        }
      }
      p := Succ(L, p);
    }
    forall q: nat | NextFit(L, c, n, q, g) ensures q == p {
      assert q != p ==> Between(c, p, q) || Between(c, q, p);
    }
  }

  /** The requests that round to zero bytes: the three largest sizes, and zero itself in a pool without
      a minimum. */
  predicate RoundsAway(size: u32, min: u32) {
    min <= size && (size == 0 || size > 0xFFFF_FFFC)
  }

  /** What is handed out for a request was free before if and only if the request does not round to zero
      bytes or the search pointer stands on a free block. */
  lemma HandedOutWasFree(L: Layout, c: nat, size: u32, min: u32, p: nat, g: Geometry)
    requires WellFormed(L, g) && c <= |L| && min % 4 == 0 && NextFit(L, c, Rounded(size, min), p, g)
    ensures FreeAt(L, p) <==> !RoundsAway(size, min) || FreeAt(L, c)
    ensures !RoundsAway(size, min) ==> Rounded(size, min) >= size
  {
    PositiveIsFree(L, c, Rounded(size, min), p, g);
  }

  lemma PositiveIsFree(L: Layout, c: nat, n: nat, p: nat, g: Geometry)
    requires WellFormed(L, g) && c <= |L| && NextFit(L, c, n, p, g)
    ensures FreeAt(L, p) <==> n > 0 || FreeAt(L, c)
    ensures n == 0 ==> p == c
  {
    if n == 0 && p != c {
      RoomNonNegative(L, c, g);
      assert Between(c, c, p);
    }
  }

  lemma RoomNonNegative(L: Layout, p: nat, g: Geometry)
    requires WellFormed(L, g) && p <= |L|
    ensures Room(L, p, g) >= 0
  {
    if p < |L| {
      assert Sound(L[p], g);
    }
  }

  /** A search stops where it begins if there is room. */
  lemma StopsAtOnce(L: Layout, c: nat, n: nat, g: Geometry)
    requires c <= |L| && Room(L, c, g) >= n
    ensures !Full(L, n, g) && forall p: nat :: NextFit(L, c, n, p, g) ==> p == c
  {
    forall p: nat | NextFit(L, c, n, p, g) ensures p == c {
      assert p != c ==> Between(c, c, p);
    }
  }

  /** A request that the block at the search pointer can satisfy. */
  method GetAtCursor(pool: Pool, size: u32) returns (r: Option<int>)
    requires pool.Valid() && Room(pool.layout, pool.cursor, pool.G()) >= Rounded(size, pool.min)
    requires !SplitWraps(Room(pool.layout, pool.cursor, pool.G()), Rounded(size, pool.min), pool.min)
    modifies pool, pool.mem
    ensures pool.Valid() && pool.layout == GetLayout(old(pool.layout), old(pool.cursor), Rounded(size, pool.min), pool.G())
    ensures r == Some(old(pool.search) + DM_OVERHEAD) && pool.cursor == Succ(pool.layout, old(pool.cursor))
  {
    StopsAtOnce(pool.layout, pool.cursor, Rounded(size, pool.min), pool.G());
    var sane;
    ghost var p;
    r, sane, p := pool.GetMem(size);
  }

  /** The layouts of the run below. */
  const ONE_FREE := [Block(0, 96, false)]
  const HALF_USED := [Block(0, 48, true), Block(48, 96, false)]
  const ALL_USED := [Block(0, 48, true), Block(48, 96, true)]

  lemma TwoRequests(g: Geometry)
    requires g == Geometry(DM_OVERHEAD, 0, 16, 96, true)
    ensures GetLayout(ONE_FREE, 0, 32, g) == HALF_USED && GetLayout(HALF_USED, 1, 32, g) == ALL_USED
    ensures GetLayout(ALL_USED, 2, 0, g) == ALL_USED && GetLayout(ALL_USED, 0, 0, g) == ALL_USED
    ensures Rounded(32, 16) == 32 && Rounded(0xFFFF_FFFF, 16) == 0
  {
  }

  /** A run in which memory outside the pool and a block in use are handed out: after two requests have used
      a pool of 112 bytes up, a request that rounds to zero gets the address behind its end, and the next one
      the address that the first one got. */
  method ZeroRequestHandsOutUsedBlock() returns (pool: Pool, first: Option<int>, outside: Option<int>, again: Option<int>)
    ensures fresh(pool) && pool.Valid() && pool.end + DM_OVERHEAD == 112
    ensures first == again == Some(16) && outside == Some(112)
    ensures pool.layout == ALL_USED
  {
    pool := new Pool(112, 16);
    TwoRequests(pool.G());
    first := GetAtCursor(pool, 32);
    var second := GetAtCursor(pool, 32);
    outside := GetAtCursor(pool, 0xFFFF_FFFF);
    again := GetAtCursor(pool, 0xFFFF_FFFF);
  }

  /** A successful positive request adds exactly one block to what callers own. It is large enough
      and was part of a free block; freeing it again restores the layout and the free-byte count. */
  lemma GetAddsOneBlock(L: Layout, c: nat, n: nat, p: nat, g: Geometry)
    requires WellFormed(L, g) && c <= |L| && NextFit(L, c, n, p, g) && n > 0
    requires g.floor <= n && Aligned(n)
    ensures var M := GetLayout(L, p, n, g);
      && WellFormed(M, g) && p < |M| && M[p].at == L[p].at && Payload(M[p], g) >= n
      && Owned(M) == Owned(L) + {M[p]} && M[p] !in Owned(L)
      && Release(M, p) == L && FreeBytes(Release(M, p), g) == FreeBytes(L, g)
  {
    PositiveIsFree(L, c, n, p, g);
    TakeKeepsWellFormed(L, p, n, g);
    TakeOwned(L, p, n, g);
    TakeThenRelease(L, p, n, g);
  }

  /** What a request takes from a free block: exactly `n` bytes if there is room behind them for a header and the
      least allocation, and the whole block otherwise. */
  lemma GetTakes(L: Layout, p: nat, n: nat, g: Geometry)
    requires p < |L| && Fits(L[p], n, g)
    ensures var M, room := GetLayout(L, p, n, g), Payload(L[p], g); var split := room >= n + g.header + g.split;
      && p < |M| && M[p].used && M[p].at == L[p].at && Payload(M[p], g) == (if split then n else room)
      && (split ==> FreeArea(M, M[p].end, L[p].end))
      && FreeBytes(M, g) == FreeBytes(L, g) - (if split then n + g.header else room)
  {
    TakeExact(L, p, n, g);
  }

  /** The size that is rounded up to is the least multiple of four that holds the request, unless the pool's
      minimum is larger or it wraps. */
  lemma RoundedIsLeast(size: u32, min: u32, n: nat)
    requires size <= 0xFFFF_FFFC && min % 4 == 0
    ensures Rounded(size, min) >= size && Rounded(size, min) >= min && Rounded(size, min) % 4 == 0
    ensures n >= size && n >= min && n % 4 == 0 ==> Rounded(size, min) <= n
  {
  }

  /** In a valid pool, the free-byte counter, the callers' bytes and the headers (one per block and
      one for the trailer) add up to the pool. */
  lemma PoolConservation(pool: Pool)
    requires pool.Valid()
    ensures pool.available + UsedBytes(pool.layout, pool.G()) + (|pool.layout| + 1) * DM_OVERHEAD
      == pool.end + DM_OVERHEAD
    ensures pool.available >= 0
  {
    Conservation(pool.layout, pool.G());
    FreeBytesNonNegative(pool.layout, pool.G());
  }
}
