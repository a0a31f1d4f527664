/** Packet buffers in RAM and the heap they come from. */
module PbufHeap {
  import opened Wrappers
  import BlockLayout
  import HeaderChain
  import opened LwipHeap
  import opened LwipHeapLaws
  import opened PbufChain
  import opened PbufBook
  import opened PbufRelease
  import opened PbufAlloc
  import opened PbufStore

  /** The block of buffer `a`. */
  ghost predicate HasHome(m: Memory, home: map<Addr, int>, L: BlockLayout.Layout, a: Addr) {
    && (a in home <==> a in m && m[a].kind == PbufRam)
    && (a in home ==> Live(L, home[a]))
  }

  /** Every buffer in RAM has a block of its own, which is in use. */
  ghost predicate Housed(m: Memory, home: map<Addr, int>, L: BlockLayout.Layout) {
    && (forall a {:trigger HasHome(m, home, L, a)} :: HasHome(m, home, L, a))
    && (forall a, b :: a in home && b in home && a != b ==> home[a] != home[b])
  }

  /** The blocks of some buffers. */
  ghost function BlocksOf(L: BlockLayout.Layout, home: map<Addr, int>, s: set<Addr>): set<BlockLayout.Block>
    requires s <= home.Keys && forall a :: a in s ==> Live(L, home[a])
  {
    set a | a in s :: BlockOf(L, home[a])
  }

  /** A new block is not that of any buffer, and these keep theirs. */
  lemma {:induction false} MallocKeepsHome(L: BlockLayout.Layout, size: u16, p: int)
    requires BlockLayout.WellFormed(L, HEAP) && MallocResult(L, size).Some? && Live(L, p)
    ensures var M := MallocLayout(L, size); Live(M, p) && BlockOf(M, p) == BlockOf(L, p) && p != MallocResult(L, size).value
  {
    MallocIsLowestFit(L, size);
    var M, b := MallocLayout(L, size), BlockOf(L, p);
    assert b in BlockLayout.Owned(L);
    OwnedIsLive(M, b);
  }

  /** Freeing one block leaves the others alone. */
  lemma {:induction false} FreeKeepsHome(L: BlockLayout.Layout, p: int, q: int)
    requires BlockLayout.WellFormed(L, HEAP) && Live(L, p) && Live(L, q) && p != q
    ensures var M := BlockLayout.Release(L, IndexOf(L, p));
      && BlockLayout.WellFormed(M, HEAP) && Live(M, q) && BlockOf(M, q) == BlockOf(L, q)
      && BlockLayout.Owned(M) == BlockLayout.Owned(L) - {BlockOf(L, p)}
  {
    var M := BlockLayout.Release(L, IndexOf(L, p));
    BlockLayout.ReleaseKeepsWellFormed(L, IndexOf(L, p), HEAP);
    BlockLayout.ReleaseOwned(L, IndexOf(L, p), HEAP);
    assert BlockOf(L, q) in BlockLayout.Owned(L);
    OwnedIsLive(M, BlockOf(L, q));
  }

  class Buffers {
    const store: Store
    const heap: Heap
    var home: map<Addr, int>

    ghost predicate Valid()
      reads this, store, heap, heap.ram
    {
      store.Valid() && heap.Valid() && Housed(store.mem, home, heap.layout)
    }

    constructor (pool: seq<Addr>)
      requires NoDup(pool)
      ensures Valid() && fresh(store) && fresh(heap) && fresh(heap.ram) && home == map[]
      ensures BlockLayout.Owned(heap.layout) == {}
    {
      store := new Store(pool);
      heap := new Heap();
      home := map[];
    }

    /** pbuf_alloc for PBUF_RAM: the buffer gets a new block of the heap. */
    method AllocRam(layer: Layer, length: u16, p: Addr, stale: seq<byte>) returns (r: Option<Addr>)
      requires Valid() && p !in store.mem && p !in store.poolAll && |stale| == MEM_SIZE_ALIGNED
      modifies this, store, heap, heap.ram
      ensures Valid() <==> r == None || RamRequest(layer, length) <= 65532
      ensures r == None ==> home == old(home) && store.mem == old(store.mem) && heap.layout == old(heap.layout)
      ensures r.Some? ==> r == Some(p) && p in home && Housed(store.mem, home, heap.layout)
      ensures r.Some? ==>
        && home == old(home)[p := home[p]] && Live(heap.layout, home[p])
        && BlockOf(heap.layout, home[p]) !in BlockLayout.Owned(old(heap.layout))
        && BlockLayout.Owned(heap.layout) == BlockLayout.Owned(old(heap.layout)) + {BlockOf(heap.layout, home[p])}
    {
      ghost var m0, L, home0 := store.mem, heap.layout, home;
      ghost var size := RamRequest(layer, length) % 0x1_0000;
      var block;
      r, block := store.AllocRam(heap, layer, length, p, stale);
      MallocIsLowestFit(L, size);
      if r == None {
        return;
      }
      assert HasHome(m0, home0, L, p);
      home := home[p := block.value];
      forall a ensures HasHome(store.mem, home, heap.layout, a) && (a in home0 ==> home0[a] != block.value) {
        assert HasHome(m0, home0, L, a);
        if a in home0 {
          MallocKeepsHome(L, size, home0[a]);
        }
      }
    }

    /** pbuf_free: the blocks of the buffers that are released go back to the heap, and only these. */
    method Free(p: Addr) returns (count: nat)
      requires Valid() && p in store.mem && p in store.book.held && store.book.held[p] > 0
      modifies this, store, heap, heap.ram
      ensures Valid()
      ensures var l := old(store.ChainAt(p)); var gone := set a | a in old(home) && a !in home;
        && count == FreeCount(old(store.mem), l) % 256
        && gone == (set a | a in l[..FreeCount(old(store.mem), l)] && a in old(home))
        && home == Remaining(old(home), store.mem)
        && (forall a :: a in old(home) ==> Live(old(heap.layout), old(home)[a]))
        && BlockLayout.Owned(heap.layout) == BlockLayout.Owned(old(heap.layout)) - BlocksOf(old(heap.layout), old(home), gone)
    {
      ghost var m0, L, home0 := store.mem, heap.layout, home;
      forall a | a in home0 ensures Live(L, home0[a]) {
        assert HasHome(m0, home0, L, a);
      }
      ghost var l := store.ChainAt(p);
      count := store.Free(Some(p));
      ghost var c := FreeCount(m0, l);
      forall a ensures (a in store.mem <==> a in m0 && a !in l[..c]) && (a in store.mem ==> store.mem[a].kind == m0[a].kind) {
        assert Left(m0, store.mem, l, c, a);
      }
      GiveBack(m0);
      forall a | a in home0 ensures a in m0 {
        assert HasHome(m0, home0, L, a);
      }
    }

    /** The calls of mem_free for the buffers that are gone. */
    method GiveBack(ghost m0: Memory)
      requires store.Valid() && heap.Valid() && Housed(m0, home, heap.layout)
      requires forall a :: a in store.mem ==> a in m0 && store.mem[a].kind == m0[a].kind
      modifies this`home, heap, heap.ram
      ensures Valid() && home == Remaining(old(home), store.mem)
      ensures forall a :: a in old(home) ==> Live(old(heap.layout), old(home)[a])
      ensures BlockLayout.Owned(heap.layout) ==
        BlockLayout.Owned(old(heap.layout)) - BlocksOf(old(heap.layout), old(home), set a | a in old(home) && a !in store.mem)
    {
      ghost var L, home0 := heap.layout, home;
      NothingGivenBack(m0, L, home);
      var gone := set a | a in home && a !in store.mem;
      FreeAll(gone, L);
      home := Remaining(home, store.mem);
      RemainingHoused(m0, store.mem, home0, L, heap.layout, gone);
    }

    method FreeAll(gone: set<Addr>, ghost L: BlockLayout.Layout)
      requires heap.Valid() && GivenBack(L, heap.layout, home, {}) && gone <= home.Keys
      modifies heap, heap.ram
      ensures heap.Valid() && GivenBack(L, heap.layout, home, gone)
    {
      var rest := gone;
      ghost var done: set<Addr> := {};
      while rest != {}
        invariant heap.Valid() && GivenBack(L, heap.layout, home, done) && done == gone - rest && rest <= gone
        decreases rest
      {
        var a :| a in rest;
        FreeBlock(a, L, done);
        rest, done := rest - {a}, done + {a};
      }
      assert done == gone;
    }

    /** mem_free for the block of buffer `a`. */
    method FreeBlock(a: Addr, ghost L: BlockLayout.Layout, ghost done: set<Addr>)
      requires heap.Valid() && GivenBack(L, heap.layout, home, done) && a in home && a !in done
      modifies heap, heap.ram
      ensures heap.Valid() && GivenBack(L, heap.layout, home, done + {a})
    {
      GiveOne(L, heap.layout, home, done, a);
      heap.Free(Some(home[a]));
    }
  }

  function Remaining(home: map<Addr, int>, m: Memory): map<Addr, int> {
    map a | a in home && a in m :: home[a]
  }

  /** The blocks of the buffers `done` are free, the others are where they were. */
  ghost predicate GivenBack(L: BlockLayout.Layout, M: BlockLayout.Layout, home: map<Addr, int>, done: set<Addr>) {
    && BlockLayout.WellFormed(M, HEAP) && done <= home.Keys
    && (forall a, b :: a in home && b in home && a != b ==> home[a] != home[b])
    && (forall a :: a in home ==> Live(L, home[a]))
    && (forall a :: a in home && a !in done ==> Live(M, home[a]) && BlockOf(M, home[a]) == BlockOf(L, home[a]))
    && BlockLayout.Owned(M) == BlockLayout.Owned(L) - BlocksOf(L, home, done)
  }

  lemma NothingGivenBack(m: Memory, L: BlockLayout.Layout, home: map<Addr, int>)
    requires BlockLayout.WellFormed(L, HEAP) && Housed(m, home, L)
    ensures GivenBack(L, L, home, {})
  {
    forall a | a in home ensures Live(L, home[a]) {
      assert HasHome(m, home, L, a);
    }
    assert BlocksOf(L, home, {}) == {};
  }

  lemma {:induction false} RemainingHoused(m0: Memory, m: Memory, home: map<Addr, int>, L: BlockLayout.Layout, M: BlockLayout.Layout,
                                           done: set<Addr>)
    requires Housed(m0, home, L) && GivenBack(L, M, home, done) && done == set a | a in home && a !in m
    requires forall a :: a in m ==> a in m0 && m[a].kind == m0[a].kind
    ensures Housed(m, Remaining(home, m), M)
  {
    var left := Remaining(home, m);
    forall a ensures HasHome(m, left, M, a) {
      assert HasHome(m0, home, L, a);
    }
  }

  /** A live address is inside the heap. */
  lemma LiveInHeap(L: BlockLayout.Layout, p: int)
    requires BlockLayout.WellFormed(L, HEAP) && Live(L, p)
    ensures InHeap(p)
  {
    HeaderChain.Spread(L, HEAP);
    var i := IndexOf(L, p);
    assert BlockLayout.Sound(L[i], HEAP);
  }

  lemma {:induction false} GiveOne(L: BlockLayout.Layout, M: BlockLayout.Layout, home: map<Addr, int>, done: set<Addr>, a: Addr)
    requires GivenBack(L, M, home, done) && a in home && a !in done
    ensures InHeap(home[a]) && Live(M, home[a])
    ensures GivenBack(L, BlockLayout.Release(M, IndexOf(M, home[a])), home, done + {a})
  {
    LiveInHeap(M, home[a]);
    assert BlocksOf(L, home, done + {a}) == BlocksOf(L, home, done) + {BlockOf(L, home[a])};
    var N := BlockLayout.Release(M, IndexOf(M, home[a]));
    forall b | b in home && b !in done + {a} ensures Live(N, home[b]) && BlockOf(N, home[b]) == BlockOf(L, home[b]) {
      FreeKeepsHome(M, home[a], home[b]);
    }
    BlockLayout.ReleaseKeepsWellFormed(M, IndexOf(M, home[a]), HEAP);
    BlockLayout.ReleaseOwned(M, IndexOf(M, home[a]), HEAP);
  }
}
