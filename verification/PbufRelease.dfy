/** Giving up references to packet buffers: the loop of pbuf_free and what it leaves behind. */
module PbufRelease {
  import opened Wrappers
  import opened PbufChain
  import opened PbufBook
  import opened PbufData

  /** A pool element is on the free list or in use, never both. */
  ghost predicate InPool(m: Memory, free: seq<Addr>, all: set<Addr>, a: Addr) {
    && (a in all <==> a in free || (a in m && m[a].kind == PbufPool))
    && (a in free ==> a !in m)
  }

  ghost predicate PoolOk(m: Memory, free: seq<Addr>, all: set<Addr>) {
    NoDup(free) && forall a {:trigger InPool(m, free, all, a)} :: InPool(m, free, all, a)
  }

  /** Exactly the first `c` buffers of `l` have been released. */
  ghost predicate Gone(m0: Memory, m: Memory, l: seq<Addr>, c: nat) {
    && c <= |l|
    && (forall a {:trigger Survives(m0, m, l[..c], a)} :: Survives(m0, m, l[..c], a))
  }

  ghost predicate Survives(m0: Memory, m: Memory, gone: seq<Addr>, a: Addr) {
    && (a in m <==> a in m0 && a !in gone)
    && (a in m ==> m[a] == m0[a])
  }

  /** How many buffers giving up one reference to `l[0]` releases: a buffer goes when that reference
      was its only one, and with it its reference to the next. */
  ghost function FreeCount(m: Memory, l: seq<Addr>): (c: nat)
    ensures c <= |l|
    ensures forall i :: 0 <= i < c ==> l[i] in m && m[l[i]].ref == 1
    ensures c < |l| && l[c] in m ==> m[l[c]].ref != 1
  {
    if l == [] || l[0] !in m || m[l[0]].ref != 1 then 0 else 1 + FreeCount(m, l[1..])
  }

  lemma {:induction false} FreeCountIs(m: Memory, l: seq<Addr>, c: nat)
    requires c <= |l| && forall i :: 0 <= i < c ==> l[i] in m && m[l[i]].ref == 1
    requires c < |l| ==> l[c] in m && m[l[c]].ref != 1
    ensures FreeCount(m, l) == c
  {
  }

  /** pbuf_free has released the first `i` buffers of the chain `l` and now gives up the reference to
      `cur`. */
  ghost predicate Releasing(m0: Memory, m: Memory, b0: Book, b: Book, l: seq<Addr>, i: nat, cur: Option<Addr>) {
    && Counted(m, b, cur) && cur == Head(l, i) && Gone(m0, m, l, i)
    && (forall j :: 0 <= j < i ==> l[j] in m0 && m0[l[j]].ref == 1)
    && (forall a {:trigger SameFrom(b0, b, a)} :: a in m ==> SameFrom(b0, b, a))
  }

  lemma {:induction false} ReleaseStarts(m: Memory, b: Book, p: Addr)
    requires Counted(m, b, Some(p))
    ensures PlaceOk(b, p) && Releasing(m, m, b, b, From(b, p), 0, Some(p)) && NoDup(From(b, p))
  {
    assert PlaceOk(b, p);
    var l := From(b, p);
    var none := l[..0];
    forall a ensures Survives(m, m, none, a) {
    }
    forall a | a in m ensures SameFrom(b, b, a) {
      assert PlaceOk(b, a);
    }
    var h, k := b.place[p].0, b.place[p].1;
    assert ChainOk(m, b, h);
    forall i, j | 0 <= i < j < |l| ensures Apart(l[i], l[j]) {
      assert Apart(b.chains[h][k + i], b.chains[h][k + j]);
    }
  }

  /** The next buffer of the chain being released. */
  lemma {:induction false} ReleaseReads(m0: Memory, m: Memory, b0: Book, b: Book, l: seq<Addr>, i: nat, p: Addr)
    requires Releasing(m0, m, b0, b, l, i, Some(p)) && Counted(m0, b0, Some(l[0])) && PlaceOk(b0, l[0]) && l == From(b0, l[0])
    ensures i < |l| && p == l[i] && p in m && p in m0 && m[p] == m0[p] && m[p].ref > 0
    ensures m[p].next == Head(l, i + 1) && PlaceOk(b, p) && From(b, p) == l[i..]
  {
    assert Survives(m0, m, l[..i], p);
    assert SameFrom(b0, b, p) && RefOk(m, b, p, Some(p));
    FromMember(m0, b0, Some(l[0]), l[0], i);
  }

  lemma {:induction false} ReleaseFrees(m0: Memory, m: Memory, b0: Book, b: Book, l: seq<Addr>, i: nat, p: Addr)
    requires Releasing(m0, m, b0, b, l, i, Some(p)) && Counted(m0, b0, Some(l[0])) && PlaceOk(b0, l[0]) && l == From(b0, l[0])
    requires p in m && m[p].ref == 1
    ensures p in b.chains && b.chains[p] != [] && p in b.held
    ensures Releasing(m0, m - {p}, b0, FreeBook(b, p), l, i + 1, m[p].next)
  {
    ReleaseReads(m0, m, b0, b, l, i, p);
    DropFreesBuffer(m, b, p);
    var n, c := m - {p}, FreeBook(b, p);
    var gone := l[..i + 1];
    assert gone == l[..i] + [p];
    forall a ensures Survives(m0, n, gone, a) {
      assert Survives(m0, m, l[..i], a);
    }
    forall a | a in n ensures SameFrom(b0, c, a) {
      assert SameFrom(b0, b, a) && SameFrom(b, c, a);
    }
  }

  /** What giving up a reference to `l[0]` leaves behind. */
  ghost predicate Released(m0: Memory, m: Memory, b0: Book, b: Book, l: seq<Addr>) {
    var c := FreeCount(m0, l);
    && Counted(m, b, None)
    && (forall a {:trigger Left(m0, m, l, c, a)} :: Left(m0, m, l, c, a))
    && (forall a {:trigger SameFrom(b0, b, a)} :: a in m ==> SameFrom(b0, b, a))
  }

  /** The first `c` buffers of `l` are gone, the next one has one reference less, everything else is as
      before. */
  ghost predicate Left(m0: Memory, m: Memory, l: seq<Addr>, c: nat, a: Addr)
    requires c <= |l|
  {
    && (a in m <==> a in m0 && a !in l[..c])
    && (a in m && c < |l| && a == l[c] ==> m0[a].ref > 1 && m[a] == m0[a].(ref := m0[a].ref - 1))
    && (a in m && !(c < |l| && a == l[c]) ==> m[a] == m0[a])
  }

  lemma {:induction false} ReleaseStops(m0: Memory, m: Memory, b0: Book, b: Book, l: seq<Addr>, i: nat, p: Addr)
    requires Releasing(m0, m, b0, b, l, i, Some(p)) && Counted(m0, b0, Some(l[0])) && PlaceOk(b0, l[0]) && l == From(b0, l[0])
    requires p in m && m[p].ref > 1
    ensures Released(m0, m[p := m[p].(ref := m[p].ref - 1)], b0, b, l) && FreeCount(m0, l) == i
  {
    ReleaseReads(m0, m, b0, b, l, i, p);
    DropKeepsBuffer(m, b, p);
    FreeCountIs(m0, l, i);
    var n := m[p := m[p].(ref := m[p].ref - 1)];
    forall a ensures Left(m0, n, l, i, a) {
      assert Survives(m0, m, l[..i], a);
    }
    forall a | a in n ensures SameFrom(b0, b, a) {
    }
  }

  lemma {:induction false} ReleaseEnds(m0: Memory, m: Memory, b0: Book, b: Book, l: seq<Addr>, i: nat)
    requires Releasing(m0, m, b0, b, l, i, None)
    ensures Released(m0, m, b0, b, l) && FreeCount(m0, l) == i
  {
    FreeCountIs(m0, l, i);
    forall a ensures Left(m0, m, l, i, a) {
      assert Survives(m0, m, l[..i], a);
    }
  }

  /** Putting a released pool buffer back on the free list. */
  lemma {:induction false} PoolAfterFree(m: Memory, free: seq<Addr>, all: set<Addr>, p: Addr)
    requires PoolOk(m, free, all) && p in m
    ensures PoolOk(m - {p}, if m[p].kind == PbufPool then [p] + free else free, all)
  {
    var free' := if m[p].kind == PbufPool then [p] + free else free;
    assert InPool(m, free, all, p);
    forall i, j | 0 <= i < j < |free'| ensures Apart(free'[i], free'[j]) {
      if m[p].kind == PbufPool {
        if i > 0 {
          assert Apart(free[i - 1], free[j - 1]);
        } else {
          assert free'[j] == free[j - 1] && free[j - 1] in free;
        }
      } else {
        assert Apart(free[i], free[j]);
      }
    }
    forall a ensures InPool(m - {p}, free', all, a) {
      assert InPool(m, free, all, a);
    }
  }

  /** A change of the memory that keeps the buffers and their kinds. */
  lemma {:induction false} PoolKept(m: Memory, n: Memory, free: seq<Addr>, all: set<Addr>)
    requires PoolOk(m, free, all) && n.Keys == m.Keys && forall a :: a in m ==> n[a].kind == m[a].kind
    ensures PoolOk(n, free, all)
  {
    forall a ensures InPool(n, free, all, a) {
      assert InPool(m, free, all, a);
    }
  }

  /** The loop of pbuf_free: a reference to `buf` is given up, and the result is the 8-bit count of
      released buffers. */
  method Release(m0: Memory, free0: seq<Addr>, buf: Addr, ghost b0: Book, ghost all: set<Addr>)
    returns (m: Memory, free: seq<Addr>, count: nat, ghost b: Book)
    requires Counted(m0, b0, Some(buf)) && PoolOk(m0, free0, all)
    ensures PlaceOk(b0, buf) && Released(m0, m, b0, b, From(b0, buf)) && PoolOk(m, free, all)
    ensures count == FreeCount(m0, From(b0, buf)) % 256 && |free| >= |free0|
  {
    ReleaseStarts(m0, b0, buf);
    m, free, b := m0, free0, b0;
    ghost var l := From(b0, buf);
    ghost var i: nat := 0;
    count := 0;
    var cur := Some(buf);
    while cur != None
      invariant Releasing(m0, m, b0, b, l, i, cur) && PoolOk(m, free, all) && count == i % 256 && |free| >= |free0|
      decreases |l| - i
    {
      var p := cur.value;
      ReleaseReads(m0, m, b0, b, l, i, p);
      if m[p].ref - 1 == 0 {
        ReleaseFrees(m0, m, b0, b, l, i, p);
        PoolAfterFree(m, free, all, p);
        cur := m[p].next;
        free := if m[p].kind == PbufPool then [p] + free else free;
        m, b := m - {p}, FreeBook(b, p);
        count := (count + 1) % 256;
        i := i + 1;
      } else {
        ReleaseStops(m0, m, b0, b, l, i, p);
        PoolKept(m, m[p := m[p].(ref := m[p].ref - 1)], free, all);
        m := m[p := m[p].(ref := m[p].ref - 1)];
        return;
      }
    }
    ReleaseEnds(m0, m, b0, b, l, i);
  }

  // ----- what stays -----

  /** The packet that starts at a buffer is the same, to the last byte. */
  ghost predicate SamePacket(m0: Memory, m: Memory, b0: Book, b: Book, a: Addr) {
    a in m0 && SameFrom(b0, b, a) && Flat(m, From(b, a)) == Flat(m0, From(b0, a))
  }

  /** Releasing buffers disturbs no packet that is left, nor any of its lengths. */
  lemma {:induction false} ReleaseDisturbsNothing(m0: Memory, m: Memory, b0: Book, b: Book, buf: Addr, a: Addr)
    requires Counted(m0, b0, Some(buf)) && PlaceOk(b0, buf) && Released(m0, m, b0, b, From(b0, buf)) && a in m
    ensures SamePacket(m0, m, b0, b, a) && (GoodTotal(m0, a) ==> GoodTotal(m, a))
  {
    var l := From(b0, buf);
    var c := FreeCount(m0, l);
    assert Left(m0, m, l, c, a) && SameFrom(b0, b, a);
    var s := From(b, a);
    assert PlaceOk(b, a);
    forall i | 0 <= i < |s| ensures s[i] in m && s[i] in m0 && Bytes(m[s[i]]) == Bytes(m0[s[i]]) {
      FromMember(m, b, None, a, i);
      assert Left(m0, m, l, c, s[i]);
    }
    FlatFrame(m0, m, s);
    if m[a].next.Some? {
      NoLinkToHead(m, b, None, a);
      assert Left(m0, m, l, c, m[a].next.value);
    }
  }
}
