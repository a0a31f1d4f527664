/** Allocating a chain of packet buffers from the pool. */
module PbufAlloc {
  import opened Wrappers
  import opened PbufChain
  import opened PbufBook
  import opened PbufRelease
  import opened PbufLink

  /** Protocol layers, by the headers still to be put in front of the payload. */
  datatype Layer = Transport | Ip | Link | Raw

  const LINK_HLEN := 14
  const IP_HLEN := 20
  const TRANSPORT_HLEN := 20

  /** The size of the structure in front of the data of a buffer. */
  const SIZEOF_STRUCT_PBUF := 16

  /** The data bytes of one pool buffer. */
  const POOL_BUFSIZE := 1536

  /** LWIP_MEM_ALIGN_SIZE for 4-byte alignment. */
  function Align4(n: nat): (r: nat)
    ensures n <= r < n + 4 && r % 4 == 0
  {
    (n + 3) / 4 * 4
  }

  /** The bytes of the headers still to come. */
  function HeaderBytes(layer: Layer): (n: nat)
    ensures n <= 54
  {
    match layer
    case Transport => LINK_HLEN + IP_HLEN + TRANSPORT_HLEN
    case Ip => LINK_HLEN + IP_HLEN
    case Link => LINK_HLEN
    case Raw => 0
  }

  /** Each layer adds its own header to those below it: 20 bytes for TCP, 20 for IP, 14 for the link. */
  lemma HeadersAdd()
    ensures HeaderBytes(Transport) == HeaderBytes(Ip) + 20 && HeaderBytes(Ip) == HeaderBytes(Link) + 20
    ensures HeaderBytes(Link) == HeaderBytes(Raw) + 14 && HeaderBytes(Raw) == 0
    ensures HeaderRoom(Transport) == 56 && HeaderRoom(Ip) == 36 && HeaderRoom(Link) == 16 && HeaderRoom(Raw) == 0
  {
  }

  /** The room left in front of the payload of the first pool buffer. */
  function HeaderRoom(layer: Layer): (n: nat)
    ensures n < POOL_BUFSIZE && n % 4 == 0
  {
    Align4(HeaderBytes(layer))
  }

  function Min(a: nat, b: nat): nat {
    if a < b then a else b
  }

  /** The pool buffers that `length` bytes take, the first of which has `first` bytes. */
  function Needed(first: nat, length: nat): nat {
    1 + More(length - Min(length, first))
  }

  function More(rest: nat): nat {
    (rest + POOL_BUFSIZE - 1) / POOL_BUFSIZE
  }

  /** A chain takes the least number of buffers that hold `length` bytes, but always one. */
  lemma {:induction false} NeededIsLeast(first: nat, length: nat, n: nat)
    ensures Needed(first, length) >= 1 && first + (Needed(first, length) - 1) * 1536 >= length
    ensures n >= 1 && first + (n - 1) * 1536 >= length ==> Needed(first, length) <= n
  {
    var rest := length - Min(length, first);
    var k := (rest + 1535) / 1536;
    assert k * 1536 <= rest + 1535 < k * 1536 + 1536;
    if n >= 1 && n - 1 < k {
      assert (n - 1) * 1536 <= (k - 1) * 1536;
    }
  }

  /** The bytes that are left for buffer `i` and those after it. */
  function RestAt(first: nat, length: nat, i: nat): int {
    if i == 0 then length else length - first - (i - 1) * POOL_BUFSIZE
  }

  /** Buffer `i` of an allocated chain. */
  ghost predicate Filled(m: Memory, l: seq<Addr>, first: nat, length: nat, i: nat)
    requires i < |l|
  {
    && l[i] in m && m[l[i]].ref == 1 && m[l[i]].kind == PbufPool
    && m[l[i]].totLen == RestAt(first, length, i)
    && m[l[i]].len == Min(m[l[i]].totLen, if i == 0 then first else POOL_BUFSIZE)
  }

  ghost predicate AllFilled(m: Memory, l: seq<Addr>, first: nat, length: nat) {
    forall i {:trigger Filled(m, l, first, length, i)} :: 0 <= i < |l| ==> Filled(m, l, first, length, i)
  }

  /** Every buffer but the last is full, and the last has the rest. */
  lemma {:induction false} FilledUp(m: Memory, l: seq<Addr>, first: nat, length: nat, i: nat)
    requires AllFilled(m, l, first, length) && |l| == Needed(first, length) && i < |l|
    ensures l[i] in m && (i < |l| - 1 ==> m[l[i]].len == if i == 0 then first else 1536)
    ensures i == |l| - 1 ==> m[l[i]].len == length - if i == 0 then 0 else first + (i - 1) * 1536
  {
    assert Filled(m, l, first, length, i);
    NeededIsLeast(first, length, i + 1);
  }

  /** The old buffers are untouched, the new ones are those of `l`. */
  ghost predicate OnlyAdded(m0: Memory, m: Memory, b0: Book, b: Book, l: seq<Addr>) {
    forall a {:trigger Added(m0, m, b0, b, l, a)} :: Added(m0, m, b0, b, l, a)
  }

  ghost predicate Added(m0: Memory, m: Memory, b0: Book, b: Book, l: seq<Addr>, a: Addr) {
    && (a in m <==> a in m0 || a in l)
    && (a in m0 ==> a !in l && m[a] == m0[a] && SameFrom(b0, b, a))
  }

  /** pbuf_alloc has linked the buffers `l`; `rem` bytes are still without a buffer. */
  ghost predicate Allocating(m0: Memory, m: Memory, b0: Book, b: Book, l: seq<Addr>, first: nat, length: nat, rem: nat) {
    && Counted(m0, b0, None) && Counted(m, b, None) && l != [] && l[0] in b.chains && b.chains[l[0]] == l
    && l[0] in b.held && b.held[l[0]] == 1
    && AllFilled(m, l, first, length) && OnlyAdded(m0, m, b0, b, l)
    && 0 < first && length < 0x1_0000
    && rem <= RestAt(first, length, |l| - 1)
    && rem == RestAt(first, length, |l| - 1) - Min(RestAt(first, length, |l| - 1), if |l| == 1 then first else POOL_BUFSIZE)
  }

  /** A pool buffer is taken off the free list. */
  lemma {:induction false} PoolAfterTake(m: Memory, free: seq<Addr>, all: set<Addr>, x: Pbuf)
    requires PoolOk(m, free, all) && free != [] && x.kind == PbufPool
    ensures free[0] !in m && PoolOk(m[free[0] := x], free[1..], all)
  {
    var q := free[0];
    var rest := free[1..];
    assert InPool(m, free, all, q);
    forall i, j | 0 <= i < j < |rest| ensures Apart(rest[i], rest[j]) {
      assert Apart(free[i + 1], free[j + 1]);
    }
    OthersDiffer(free, 0);
    var n := m[q := x];
    forall a ensures InPool(n, rest, all, a) {
      assert InPool(m, free, all, a);
      assert free == [q] + rest;
    }
  }

  function NewBuffer(data: seq<byte>, len: nat, rest: nat): Pbuf {
    Pbuf(None, data, len, rest, 1, PbufPool)
  }

  lemma {:induction false} FirstBuffer(m: Memory, b: Book, p: Addr, data: seq<byte>, first: nat, length: nat)
    requires Counted(m, b, None) && p !in m && 0 < first <= |data| && length < 0x1_0000
    ensures var n := Min(length, first);
      Allocating(m, m[p := NewBuffer(data, n, length)], b, AddBook(b, p), [p], first, length, length - n)
  {
    var n, c := m[p := NewBuffer(data, Min(length, first), length)], AddBook(b, p);
    AddCounted(m, b, p, n[p]);
    assert Filled(n, [p], first, length, 0);
    AddFrom(m, b, p);
    forall a ensures Added(m, n, b, c, [p], a) {
    }
  }

  lemma {:induction false} AddFrom(m: Memory, b: Book, p: Addr)
    requires Counted(m, b, None) && p !in m
    ensures forall a {:trigger SameFrom(b, AddBook(b, p), a)} :: a in m ==> SameFrom(b, AddBook(b, p), a)
  {
    forall a | a in m ensures SameFrom(b, AddBook(b, p), a) {
      assert PlaceOk(b, a);
      var h := b.place[a].0;
      assert ChainOk(m, b, h);
      assert Links(m, b.chains[h], 0);
    }
  }

  lemma {:induction false} LinkFrom(m: Memory, b: Book, h: Addr, t: Addr, a: Addr)
    requires Counted(m, b, None) && h in b.chains && t in b.chains && h != t && t in b.held && b.held[t] > 0
    requires a in m && a in b.place && b.place[a].0 != h && b.place[a].0 != t
    ensures SameFrom(b, LinkBook(b, h, t), a)
  {
    LinkCounted(m, b, h, t);
    assert PlaceOk(b, a) && PlaceOk(LinkBook(b, h, t), a);
    assert ChainOk(m, b, t) && MemberOk(b, t, b.chains[t], 0);
  }

  lemma {:induction false} NextBuffer(m0: Memory, m: Memory, b0: Book, b: Book, l: seq<Addr>, first: nat, length: nat,
                                      rem: nat, q: Addr, data: seq<byte>)
    requires Allocating(m0, m, b0, b, l, first, length, rem) && rem > 0 && q !in m && |data| == POOL_BUFSIZE
    ensures Last(l) in m && q in AddBook(b, q).chains && l[0] != q
    ensures var n := Min(rem, POOL_BUFSIZE);
      Allocating(m0, m[q := NewBuffer(data, n, rem)][Last(l) := m[Last(l)].(next := Some(q))], b0,
                 LinkBook(AddBook(b, q), l[0], q), l + [q], first, length, rem - n)
  {
    var h, n, b1 := l[0], Min(rem, POOL_BUFSIZE), AddBook(b, q);
    var m1 := m[q := NewBuffer(data, n, rem)];
    assert Filled(m, l, first, length, 0) && Filled(m, l, first, length, |l| - 1);
    AddCounted(m, b, q, m1[q]);
    LinkCounted(m1, b1, h, q);
    assert ChainOk(m, b, h);
    var m2, b2, s := m1[Last(l) := m1[Last(l)].(next := Some(q))], LinkBook(b1, h, q), l + [q];
    assert m2 == m[q := NewBuffer(data, n, rem)][Last(l) := m[Last(l)].(next := Some(q))];
    forall i | 0 <= i < |s| ensures Filled(m2, s, first, length, i) {
      if i < |l| {
        assert Filled(m, l, first, length, i);
      }
    }
    forall a ensures Added(m0, m2, b0, b2, s, a) {
      NextAdded(m0, m, b0, b, l, m1, q, a);
    }
  }

  /** The buffers from before are still where they were. */
  lemma {:induction false} NextAdded(m0: Memory, m: Memory, b0: Book, b: Book, l: seq<Addr>, m1: Memory, q: Addr, a: Addr)
    requires Counted(m, b, None) && OnlyAdded(m0, m, b0, b, l) && l != [] && l[0] in b.chains && b.chains[l[0]] == l
    requires q !in m && m1.Keys == m.Keys + {q} && m1 == m[q := m1[q]] && Counted(m1, AddBook(b, q), None) && l[0] != q
    requires Last(l) in m && q in AddBook(b, q).held
    ensures var m2 := m1[Last(l) := m1[Last(l)].(next := Some(q))];
      q in AddBook(b, q).chains && Added(m0, m2, b0, LinkBook(AddBook(b, q), l[0], q), l + [q], a)
  {
    assert Added(m0, m, b0, b, l, a);
    assert a in l + [q] <==> a in l || a == q;
    AddFrom(m, b, q);
    if a in m0 {
      assert SameFrom(b0, b, a) && SameFrom(b, AddBook(b, q), a);
      OutsideChain(m, b, l[0], l, a);
      LinkFrom(m1, AddBook(b, q), l[0], q, a);
    }
  }

  lemma {:induction false} OutsideChain(m: Memory, b: Book, h: Addr, l: seq<Addr>, a: Addr)
    requires Counted(m, b, None) && h in b.chains && b.chains[h] == l && a in m && a !in l
    ensures a in b.place && b.place[a].0 != h && b.place[a].0 in b.chains
    ensures b.place[a].0 in m
  {
    assert PlaceOk(b, a);
    assert ChainOk(m, b, b.place[a].0);
    assert Links(m, b.chains[b.place[a].0], 0);
  }

  /** What pbuf_alloc hands out: a new chain with room for exactly the wanted bytes, cut at the sizes of
      the pool buffers. */
  ghost predicate Allocated(m0: Memory, m: Memory, b0: Book, b: Book, l: seq<Addr>, first: nat, length: nat) {
    && Counted(m, b, None) && AllTotals(m) && l != [] && l[0] in b.chains && b.chains[l[0]] == l
    && l[0] in b.held && b.held[l[0]] == 1 && AllFilled(m, l, first, length) && OnlyAdded(m0, m, b0, b, l)
    && |Flat(m, l)| == length
  }

  lemma {:induction false} AllocDone(m0: Memory, m: Memory, b0: Book, b: Book, l: seq<Addr>, first: nat, length: nat)
    requires Allocating(m0, m, b0, b, l, first, length, 0) && AllTotals(m0)
    ensures Allocated(m0, m, b0, b, l, first, length)
  {
    assert ChainOk(m, b, l[0]);
    forall a | a in m ensures GoodTotal(m, a) {
      assert Added(m0, m, b0, b, l, a);
      if a in m0 {
        assert GoodTotal(m0, a);
        NextPlace(m0, b0, None, a);
        if m0[a].next.Some? {
          assert Added(m0, m, b0, b, l, m0[a].next.value);
        }
      } else {
        var i :| 0 <= i < |l| && l[i] == a;
        assert Filled(m, l, first, length, i) && Links(m, l, i);
        if i + 1 < |l| {
          assert Filled(m, l, first, length, i + 1);
          FullBuffer(first, length, i, |l|);
        }
      }
    }
    HeadOfChain(m, b, l[0]);
    assert Filled(m, l, first, length, 0);
  }

  lemma {:induction false} FullBuffer(first: nat, length: nat, i: nat, n: nat)
    requires i + 1 < n && 0 <= RestAt(first, length, n - 1)
    ensures RestAt(first, length, i) - (if i == 0 then first else POOL_BUFSIZE) == RestAt(first, length, i + 1) >= 0
  {
  }

  /** Freeing the half-built chain gives everything back. */
  lemma {:induction false} AllocUndone(m0: Memory, m: Memory, b0: Book, b: Book, l: seq<Addr>, first: nat, length: nat, rem: nat,
                                       m': Memory, b': Book)
    requires Allocating(m0, m, b0, b, l, first, length, rem)
    requires Released(m, m', HoldBook(b, l[0], 0), b', l)
    ensures m' == m0
  {
    forall i | 0 <= i < |l| ensures l[i] in m && m[l[i]].ref == 1 {
      assert Filled(m, l, first, length, i);
    }
    FreeCountIs(m, l, |l|);
    assert l[..|l|] == l;
    forall a ensures (a in m' <==> a in m0) && (a in m0 ==> m'[a] == m0[a]) {
      assert Left(m, m', l, |l|, a) && Added(m0, m, b0, b, l, a);
    }
  }

  /** The pool is empty: free the chain allocated so far. */
  method Abandon(m0: Memory, m: Memory, free: seq<Addr>, p: Addr, ghost b0: Book, ghost b: Book, ghost l: seq<Addr>,
                 ghost first: nat, ghost length: nat, ghost rem: nat, ghost all: set<Addr>)
    returns (m': Memory, free': seq<Addr>)
    requires Allocating(m0, m, b0, b, l, first, length, rem) && p == l[0] && PoolOk(m, free, all)
    ensures m' == m0 && PoolOk(m0, free', all)
  {
    assert Filled(m, l, first, length, 0);
    assert ChainOk(m, b, p) && MemberOk(b, p, b.chains[p], 0);
    GiveUp(m, b, p);
    ghost var h := HoldBook(b, p, 0);
    assert PlaceOk(h, p) && From(h, p) == l;
    var count;
    ghost var b';
    m', free', count, b' := Release(m, free, p, h, all);
    AllocUndone(m0, m, b0, b, l, first, length, rem, m', b');
  }

  /** One round: take a buffer for the next bytes and link it to the last one. */
  method AddOne(m0: Memory, m: Memory, free: seq<Addr>, last: Addr, rem: nat, stale: seq<byte>, ghost b0: Book, ghost b: Book,
                ghost l: seq<Addr>, ghost first: nat, ghost length: nat, ghost all: set<Addr>)
    returns (m': Memory, ghost b': Book)
    requires Allocating(m0, m, b0, b, l, first, length, rem) && last == Last(l) && rem > 0 && |stale| == POOL_BUFSIZE
    requires PoolOk(m, free, all) && free != []
    ensures Allocating(m0, m', b0, b', l + [free[0]], first, length, rem - Min(rem, POOL_BUFSIZE))
    ensures PoolOk(m', free[1..], all)
  {
    var q := free[0];
    var n := Min(rem, POOL_BUFSIZE);
    PoolAfterTake(m, free, all, NewBuffer(stale, n, rem));
    NextBuffer(m0, m, b0, b, l, first, length, rem, q, stale);
    var m1 := m[q := NewBuffer(stale, n, rem)];
    m' := m1[last := m[last].(next := Some(q))];
    PoolKept(m1, m', free[1..], all);
    b' := LinkBook(AddBook(b, q), l[0], q);
  }

  /** The PBUF_POOL case of pbuf_alloc. `stale` is what the pool's memory contains. */
  method AllocPool(m0: Memory, free0: seq<Addr>, first: nat, length: u16, stale: seq<byte>, ghost b0: Book, ghost all: set<Addr>)
    returns (m: Memory, free: seq<Addr>, r: Option<Addr>, ghost b: Book)
    requires Counted(m0, b0, None) && AllTotals(m0) && PoolOk(m0, free0, all)
    requires 0 < first <= POOL_BUFSIZE && |stale| == POOL_BUFSIZE
    ensures PoolOk(m, free, all)
    ensures r.Some? <==> Needed(first, length) <= |free0|
    ensures r == None ==> m == m0 && b == b0
    ensures r.Some? ==>
      var l := free0[..Needed(first, length)];
      r.value == l[0] && Allocated(m0, m, b0, b, l, first, length) && free == free0[Needed(first, length)..]
  {
    m, free, r, b := m0, free0, None, b0;
    if free == [] {
      return;
    }
    var p := free[0];
    var len := Min(length, first);
    PoolAfterTake(m, free, all, NewBuffer(stale[..first], len, length));
    FirstBuffer(m, b, p, stale[..first], first, length);
    m := m[p := NewBuffer(stale[..first], len, length)];
    free, b := free[1..], AddBook(b, p);
    ghost var l := [p];
    var last := p;
    var rem: nat := length - len;
    while rem > 0
      invariant PoolOk(m, free, all) && Allocating(m0, m, b0, b, l, first, length, rem)
      invariant Taking(free0, l, free, first, length, rem) && l[0] == p && last == Last(l)
      decreases rem
    {
      if free == [] {
        m, free := Abandon(m0, m, free, p, b0, b, l, first, length, rem, all);
        b := b0;
        return;
      }
      m, b := AddOne(m0, m, free, last, rem, stale, b0, b, l, first, length, all);
      TakingMore(free0, l, free, first, length, rem);
      last := free[0];
      l, free := l + [last], free[1..];
      rem := rem - Min(rem, POOL_BUFSIZE);
    }
    AllocDone(m0, m, b0, b, l, first, length);
    r := Some(p);
  }

  /** The buffers taken so far are the first ones of the pool; with the rest they will be those needed. */
  ghost predicate Taking(free0: seq<Addr>, l: seq<Addr>, free: seq<Addr>, first: nat, length: nat, rem: nat) {
    && l != [] && |l| <= |free0| && l == free0[..|l|] && free == free0[|l|..]
    && |l| + More(rem) == Needed(first, length)
  }

  lemma {:induction false} TakingMore(free0: seq<Addr>, l: seq<Addr>, free: seq<Addr>, first: nat, length: nat, rem: nat)
    requires Taking(free0, l, free, first, length, rem) && free != [] && rem > 0
    ensures Taking(free0, l + [free[0]], free[1..], first, length, rem - Min(rem, POOL_BUFSIZE))
  {
    assert free0[|l|] == free[0];
    if rem >= POOL_BUFSIZE {
      assert More(rem) == 1 + More(rem - POOL_BUFSIZE);
    }
  }
}
