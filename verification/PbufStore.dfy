/** The packet buffers of the stack: reference-counted buffers that are linked into chains. */
module PbufStore {
  import opened Wrappers
  import opened PbufChain
  import opened PbufBook
  import opened PbufData
  import opened PbufCopy
  import opened PbufRelease
  import opened PbufLink
  import opened PbufCut
  import opened PbufAlloc
  import BlockLayout
  import opened LwipHeap
  import LwipHeapLaws

  /** Contents may change, counts and lengths may not. */
  lemma {:induction false} SameShapeKeeps(m: Memory, n: Memory, b: Book, free: seq<Addr>, all: set<Addr>)
    requires Counted(m, b, None) && AllTotals(m) && PoolOk(m, free, all) && SameShape(m, n)
    ensures Counted(n, b, None) && AllTotals(n) && PoolOk(n, free, all)
  {
    forall a | a in m ensures LinkKept(m, n, a) && GoodTotal(n, a) && n[a].kind == m[a].kind {
      assert Alike(m[a], n[a]) && GoodTotal(m, a);
      NextPlace(m, b, None, a);
      if m[a].next.Some? {
        assert Alike(m[m[a].next.value], n[m[a].next.value]);
      }
    }
    SameLinksCounted(m, n, b, None);
    PoolKept(m, n, free, all);
  }

  /** The chain from a live buffer on, and what is known of it. */
  lemma {:induction false} ChainFacts(m: Memory, b: Book, a: Addr)
    requires Counted(m, b, None) && AllTotals(m) && a in m
    ensures PlaceOk(b, a) && IsChain(m, From(b, a)) && Totals(m, From(b, a)) && From(b, a)[0] == a
    ensures m[a].totLen == |Flat(m, From(b, a))|
  {
    assert PlaceOk(b, a);
    var h, k := b.place[a].0, b.place[a].1;
    var l := b.chains[h];
    assert ChainOk(m, b, h);
    var s := From(b, a);
    forall i | 0 <= i < |s| ensures Links(m, s, i) && TotalAt(m, s[i]) {
      assert Links(m, l, k + i) && GoodTotal(m, l[k + i]);
    }
    forall i, j | 0 <= i < j < |s| ensures Apart(s[i], s[j]) {
      assert Apart(l[k + i], l[k + j]);
    }
    TotalIsLength(m, s, 0);
    assert s[0..] == s;
  }

  /** Chains with different first buffers share nothing. */
  lemma {:induction false} ChainsSeparate(m: Memory, b: Book, x: Addr, y: Addr)
    requires Counted(m, b, None) && x in m && y in m && PlaceOk(b, x) && PlaceOk(b, y) && b.place[x].0 != b.place[y].0
    ensures Separate(From(b, x), From(b, y))
  {
    var F, T := From(b, x), From(b, y);
    forall i | 0 <= i < |F| ensures F[i] !in T {
      if F[i] in T {
        var j :| 0 <= j < |T| && T[j] == F[i];
        ChainsApart(m, b, None, b.place[x].0, b.place[y].0, b.place[x].1 + i, b.place[y].1 + j);
        assert false;
      }
    }
  }

  /** The size of the block for a PBUF_RAM buffer, before it is cut to 16 bits. */
  function RamRequest(layer: Layer, length: u16): nat {
    Align4(SIZEOF_STRUCT_PBUF + HeaderBytes(layer)) + Align4(length)
  }

  /** The bytes from the payload pointer to the end of a block of `room` bytes. */
  function PayloadRoom(layer: Layer, room: int): nat {
    var front := Align4(SIZEOF_STRUCT_PBUF + HeaderBytes(layer));
    if room < front then 0 else room - front
  }

  /** In front of the payload of a PBUF_RAM buffer are 72, 52, 32 or 16 bytes for its structure and the headers still to
      come, and behind it nothing but what completes the last four bytes. */
  lemma {:induction false} RamLayout(layer: Layer, length: u16)
    ensures var front := match layer case Transport => 72 case Ip => 52 case Link => 32 case Raw => 16;
      && front + length <= RamRequest(layer, length) < front + length + 4 && RamRequest(layer, length) % 4 == 0
      && length <= PayloadRoom(layer, RamRequest(layer, length)) < length + 4
      && front >= 16 + HeaderBytes(layer)
  {
  }

  lemma {:induction false} RamFits(layer: Layer, length: u16, room: nat)
    requires room <= MEM_SIZE_ALIGNED && (room >= RamRequest(layer, length) <==> RamRequest(layer, length) <= 65532)
    ensures PayloadRoom(layer, room) <= room
    ensures length <= PayloadRoom(layer, room) <==> RamRequest(layer, length) <= 65532
  {
  }

  /** A length that does not fit: 65468 bytes behind the headers of the transport layer ask for 65540 bytes,
      16 bits of which are four, and a fresh heap grants twelve, too few even for the structure. */
  lemma RamTooSmall()
    ensures RamRequest(Transport, 65468) == 65540
    ensures var L := [BlockLayout.Block(0, MEM_SIZE_ALIGNED, false)];
      MallocResult(L, 65540 % 0x1_0000) == Some(8) && MallocLayout(L, 65540 % 0x1_0000)[0] == BlockLayout.Block(0, 8 + 12, true)
    ensures PayloadRoom(Transport, 12) == 0
  {
    assert FirstFit([BlockLayout.Block(0, MEM_SIZE_ALIGNED, false)], 0, 12) == 0;
  }

  /** A buffer by itself whose memory is too small is not what the books allow. */
  lemma MustFit(m: Memory, b: Book, p: Addr)
    requires p in b.chains && b.chains[p] == [p] && p in m
    ensures Counted(m, b, None) ==> m[p].len <= |m[p].data|
  {
    if Counted(m, b, None) {
      assert ChainOk(m, b, p);
      assert Links(m, b.chains[p], 0);
    }
  }

  class Store {
    var mem: Memory
    var poolFree: seq<Addr>
    ghost var book: Book
    ghost const poolAll: set<Addr>

    ghost predicate Valid()
      reads this
    {
      Counted(mem, book, None) && AllTotals(mem) && PoolOk(mem, poolFree, poolAll)
    }

    /** The chain that starts at a live buffer. */
    ghost function ChainAt(a: Addr): seq<Addr>
      requires Valid() && a in mem
      reads this
    {
      assert PlaceOk(book, a);
      From(book, a)
    }

    /** Nothing is allocated, all pool elements are free. */
    constructor (pool: seq<Addr>)
      requires NoDup(pool)
      ensures Valid() && mem == map[] && poolFree == pool
    {
      mem, poolFree := map[], pool;
      book := Book(map[], map[], map[]);
      poolAll := set a | a in pool;
      new;
      forall a ensures InPool(mem, poolFree, poolAll, a) {
      }
    }

    // ----- allocating -----

    /** Enter a new buffer that nobody is linked to. The books stay right if and only if its memory holds
        the bytes it says it has. */
    method Enter(p: Addr, x: Pbuf)
      requires Valid() && p !in mem && p !in poolAll
      requires x.next == None && x.ref == 1 && x.totLen == x.len < 0x1_0000 && x.kind != PbufPool
      modifies this`mem, this`book
      ensures mem == old(mem)[p := x] && book == AddBook(old(book), p)
      ensures Valid() <==> x.len <= |x.data|
      ensures Valid() ==> OnlyAdded(old(mem), mem, old(book), book, [p])
    {
      ghost var m0, b0 := mem, book;
      mem := mem[p := x];
      book := AddBook(book, p);
      if x.len <= |x.data| {
        AddCounted(m0, b0, p, x);
        AddFrom(m0, b0, p);
        forall a | a in mem ensures GoodTotal(mem, a) {
          if a != p {
            assert GoodTotal(m0, a);
            NextPlace(m0, b0, None, a);
          }
        }
        forall a ensures InPool(mem, poolFree, poolAll, a) && Added(m0, mem, b0, book, [p], a) {
          assert InPool(m0, poolFree, poolAll, a);
        }
      } else {
        MustFit(mem, book, p);
      }
    }

    /** pbuf_alloc for PBUF_ROM and PBUF_REF. The pool of such buffers grants an address or nothing; `data`
        is the memory that the caller will let the payload pointer point to. */
    method AllocOne(length: u16, kind: Kind, grant: Option<Addr>, data: seq<byte>) returns (r: Option<Addr>)
      requires Valid() && (kind == PbufRom || kind == PbufRef) && length <= |data|
      requires grant.Some? ==> grant.value !in mem && grant.value !in poolAll
      modifies this`mem, this`book
      ensures Valid() && r == grant
      ensures r == None ==> mem == old(mem) && book == old(book)
      ensures r.Some? ==> mem == old(mem)[r.value := Pbuf(None, data, length, length, 1, kind)]
      ensures r.Some? ==> book == AddBook(old(book), r.value) && OnlyAdded(old(mem), mem, old(book), book, [r.value])
    {
      if grant.Some? {
        Enter(grant.value, Pbuf(None, data, length, length, 1, kind));
      }
      return grant;
    }

    /** pbuf_alloc for PBUF_RAM: structure, header room and payload are one block of the heap, whose sizes
        have 16 bits. `p` names the buffer if there is one, `block` is its address in the heap, `stale` what the heap's memory holds. The
        block is large enough for the payload if and only if the aligned sizes add up to at most 65532. */
    method AllocRam(heap: Heap, layer: Layer, length: u16, p: Addr, stale: seq<byte>) returns (r: Option<Addr>, block: Option<int>)
      requires Valid() && heap.Valid() && p !in mem && p !in poolAll && |stale| == MEM_SIZE_ALIGNED
      modifies this`mem, this`book, heap, heap.ram
      ensures heap.Valid() && heap.layout == MallocLayout(old(heap.layout), RamRequest(layer, length) % 0x1_0000)
      ensures var m := MallocResult(old(heap.layout), RamRequest(layer, length) % 0x1_0000);
        && block == m && (if m.Some? then r == Some(p) else r == None)
        && (m.Some? ==> Live(heap.layout, m.value) && p in mem)
        && (m.Some? ==>
              var room := PayloadRoom(layer, BlockLayout.Payload(LwipHeapLaws.BlockOf(heap.layout, m.value), HEAP));
              room <= |stale| && mem[p].data == stale[..room])
      ensures r == None ==> mem == old(mem) && book == old(book)
      ensures r.Some? ==> p in mem && mem == old(mem)[p := Pbuf(None, mem[p].data, length, length, 1, PbufRam)]
      ensures r.Some? ==> book == AddBook(old(book), p) && (Valid() ==> OnlyAdded(old(mem), mem, old(book), book, [p]))
      ensures Valid() <==> r == None || RamRequest(layer, length) <= 65532
    {
      var g := LwipHeapLaws.Request(heap, RamRequest(layer, length));
      if g == None {
        return None, None;
      }
      RamFits(layer, length, g.value.room);
      Enter(p, Pbuf(None, stale[..PayloadRoom(layer, g.value.room)], length, length, 1, PbufRam));
      return Some(p), Some(g.value.at);
    }

    /** pbuf_alloc for PBUF_POOL: a chain of pool buffers with room for exactly `length` bytes, or nothing
        at all, when the pool has too few. */
    method AllocPool(layer: Layer, length: u16, stale: seq<byte>) returns (r: Option<Addr>)
      requires Valid() && |stale| == POOL_BUFSIZE
      modifies this
      ensures Valid()
      ensures var need := Needed(POOL_BUFSIZE - HeaderRoom(layer), length);
        && (r.Some? <==> need <= |old(poolFree)|)
        && (r.Some? ==> r.value == old(poolFree)[0] && poolFree == old(poolFree)[need..])
        && (r.Some? ==>
          Allocated(old(mem), mem, old(book), book, old(poolFree)[..need], POOL_BUFSIZE - HeaderRoom(layer), length))
      ensures r == None ==> mem == old(mem) && book == old(book)
    {
      mem, poolFree, r, book :=
        PbufAlloc.AllocPool(mem, poolFree, POOL_BUFSIZE - HeaderRoom(layer), length, stale, book, poolAll);
    }

    // ----- counting references -----

    /** `++(p->ref)` in 16 bits. The books stay right if and only if the counter does not wrap. */
    method AddRef(p: Addr)
      requires Counted(mem, book, None) && p in mem && p in book.held
      modifies this`mem, this`book
      ensures mem == old(mem)[p := old(mem)[p].(ref := Add16(old(mem)[p].ref, 1))]
      ensures book == HoldBook(old(book), p, old(book).held[p] + 1)
      ensures Valid() <==> old(Valid()) && old(mem)[p].ref < 0xffff
    {
      RefKeeps(mem, book, poolFree, poolAll, p);
      mem := mem[p := mem[p].(ref := Add16(mem[p].ref, 1))];
      book := HoldBook(book, p, book.held[p] + 1);
    }

    /** pbuf_ref. */
    method Ref(p: Option<Addr>)
      requires Valid() && (p.Some? ==> p.value in mem)
      modifies this`mem, this`book
      ensures p == None ==> Valid() && mem == old(mem) && book == old(book)
      ensures p.Some? ==> mem == old(mem)[p.value := old(mem)[p.value].(ref := Add16(old(mem)[p.value].ref, 1))]
      ensures p.Some? ==> p.value in old(book).held && book == HoldBook(old(book), p.value, old(book).held[p.value] + 1)
      ensures p.Some? ==> (Valid() <==> old(mem)[p.value].ref < 0xffff)
    {
      if p.Some? {
        AddRef(p.value);
      }
    }

    /** pbuf_free: a holder gives its reference to `p` up. Leading buffers without other references go;
        what is left is undisturbed. */
    method Free(p: Option<Addr>) returns (count: nat)
      requires Valid() && (p.Some? ==> p.value in mem && p.value in book.held && book.held[p.value] > 0)
      modifies this
      ensures Valid()
      ensures |poolFree| >= |old(poolFree)|
      ensures p == None ==> count == 0 && mem == old(mem) && book == old(book) && poolFree == old(poolFree)
      ensures p.Some? ==>
        var l := old(ChainAt(p.value));
        var b1 := HoldBook(old(book), p.value, old(book).held[p.value] - 1);
        && count == FreeCount(old(mem), l) % 256 && Released(old(mem), mem, b1, book, l)
        && forall a {:trigger SamePacket(old(mem), mem, b1, book, a)} :: a in mem ==> SamePacket(old(mem), mem, b1, book, a)
    {
      if p == None {
        return 0;
      }
      GiveUp(mem, book, p.value);
      ghost var m0, b1 := mem, HoldBook(book, p.value, book.held[p.value] - 1);
      assert PlaceOk(book, p.value);
      assert From(b1, p.value) == From(book, p.value);
      mem, poolFree, count, book := Release(mem, poolFree, p.value, b1, poolAll);
      forall a | a in mem ensures GoodTotal(mem, a) && SamePacket(m0, mem, b1, book, a) {
        assert Left(m0, mem, From(b1, p.value), FreeCount(m0, From(b1, p.value)), a);
        assert GoodTotal(m0, a);
        ReleaseDisturbsNothing(m0, mem, b1, book, p.value, a);
      }
    }

    // ----- linking and cutting -----

    /** pbuf_cat: the chain `t` becomes the end of the chain `h`; the caller's reference to `t` becomes
        that of the new link. The cached lengths have 16 bits: they stay right if and only if the sum fits. */
    method Cat(h: Addr, t: Addr)
      requires Valid() && h in book.chains && t in book.chains && h != t && h in mem && t in mem
      requires t in book.held && book.held[t] > 0
      modifies this`mem, this`book
      ensures Joined(old(mem), mem, old(book), book, h, t)
      ensures Valid() <==> old(SumFits(mem, h, t))
      ensures old(SumFits(mem, h, t)) ==> Appended(old(mem), mem, old(book), book, h, t)
    {
      ghost var m0 := mem;
      mem := Append(mem, h, t, book);
      book := LinkBook(book, h, t);
      forall a | a in mem ensures a in m0 && mem[a].kind == m0[a].kind {
        assert Grown(m0, mem, old(book), book, h, t, a);
      }
      PoolKept(m0, mem, poolFree, poolAll);
    }

    /** pbuf_chain: like pbuf_cat, but the caller keeps its reference to `t`. */
    method Chain(h: Addr, t: Addr)
      requires Valid() && h in book.chains && t in book.chains && h != t && h in mem && t in mem
      requires t in book.held && book.held[t] > 0
      modifies this`mem, this`book
      ensures mem.Keys == old(mem).Keys && mem[t].ref == Add16(old(mem)[t].ref, 1)
      ensures book == LinkBook(old(book), h, t).(held := old(book).held)
      ensures Valid() <==> old(SumFits(mem, h, t)) && old(mem)[t].ref < 0xffff
      ensures forall a {:trigger Longer(old(mem), mem, old(book), book, h, t, a)} :: a in mem ==>
        Longer(old(mem), mem, old(book), book, h, t, a)
    {
      ghost var m0, b0 := mem, book;
      Cat(h, t);
      ghost var m1, b1 := mem, book;
      assert Grown(m0, m1, b0, b1, h, t, t);
      AddRef(t);
      ChainLonger(m0, m1, b0, b1, h, t);
      assert mem == Referenced(m1, t) && book == HoldBook(b1, t, b1.held[t] + 1);
      assert book.held == b0.held;
    }

    /** Cutting the chain `h` off behind buffer `z`, its buffer number `k`. */
    method CutOff(z: Addr, rem: nat, data: seq<byte>, ghost m0: Memory, ghost h: Addr, ghost k: nat, ghost len: nat)
      returns (gone: nat)
      requires CutReady(m0, mem, book, h, k, len, rem, data) && z == book.chains[h][k] && PoolOk(m0, poolFree, poolAll)
      modifies this
      ensures Valid() && Shortened(m0, mem, old(book), book, h, k, len) && |poolFree| >= |old(poolFree)|
      ensures gone == if k + 1 < |old(book).chains[h]| then FreeCount(m0, old(book).chains[h][k + 1..]) % 256 else 0
    {
      ghost var m1, b0 := mem, book;
      CutCounted(m0, mem, book, h, k, len, rem, data);
      ShrinkReads(m0, mem, book, h, k, len, rem, z);
      var rest := mem[z].next;
      mem := mem[z := mem[z].(len := rem, totLen := rem, data := data, next := None)];
      book := CutBook(book, h, k);
      forall a | a in mem ensures a in m0 && mem[a].kind == m0[a].kind {
        assert ShiftedAt(m0, m1, b0, h, k, len - m0[h].totLen, a);
      }
      PoolKept(m0, mem, poolFree, poolAll);
      gone := 0;
      ghost var n, c := mem, book;
      if rest.Some? {
        CutTail(m0, m1, b0, h, k, len, rem, data);
        mem, poolFree, gone, book := Release(mem, poolFree, rest.value, book, poolAll);
      }
      ShortenResult(m0, m1, b0, h, k, len, rem, data, mem, book);
    }

    /** pbuf_realloc: shorten the chain `p` to its first `len` bytes. */
    method Realloc(p: Addr, len: u16) returns (ghost k: nat)
      requires Valid() && p in book.chains && p in mem
      modifies this
      ensures Valid() && |poolFree| >= |old(poolFree)|
      ensures old(mem)[p].totLen <= len ==> mem == old(mem) && book == old(book) && poolFree == old(poolFree)
      ensures len < old(mem)[p].totLen ==> Shortened(old(mem), mem, old(book), book, p, k, len)
    {
      k := 0;
      if len >= mem[p].totLen {
        return;
      }
      var q, rem;
      ghost var m0 := mem;
      mem, q, rem, k := FindEnd(mem, p, len, book);
      var data := mem[q].data;
      if mem[q].kind == PbufRam && rem != mem[q].len {
        data := data[..rem];
      }
      var gone := CutOff(q, rem, data, m0, p, k, len);
    }

    /** pbuf_dechain: take the first buffer out of its chain. The result is the rest, or null if that
        went because nobody else referred to it. The count of released buffers has 8 bits only. */
    method Dechain(p: Addr) returns (r: Option<Addr>)
      requires Valid() && p in book.chains && p in mem
      modifies this
      ensures Valid() && p in mem && mem[p].next == None && mem[p].totLen == mem[p].len == old(mem)[p].len
      ensures old(mem)[p].next == None ==> r == None && mem == old(mem) && book == old(book)
      ensures old(book).chains[p] != []
      ensures old(mem)[p].next.Some? ==>
        var q, gone := old(mem)[p].next.value, FreeCount(old(mem), old(book).chains[p][1..]);
        && Shortened(old(mem), mem, old(book), book, p, 0, old(mem)[p].len)
        && (r.Some? ==> r.value == q) && (r == None <==> gone % 256 > 0)
        && ((r.Some? <==> q in mem) <==> !(gone > 0 && gone % 256 == 0))
    {
      ghost var m0, b0 := mem, book;
      HeadOfChain(mem, book, p);
      ShiftStarts(mem, book, p, mem[p].len - mem[p].totLen);
      WalkEnds(mem, book.chains[p]);
      assert GoodTotal(mem, p);
      ShrinkReads(mem, mem, book, p, 0, mem[p].len, mem[p].len, p);
      var q := mem[p].next;
      if q == None {
        return None;
      }
      var gone := CutOff(p, mem[p].len, mem[p].data, mem, p, 0, mem[p].len);
      FirstLeft(m0, mem, b0, book, p, q.value);
      return if gone > 0 then None else q;
    }

    // ----- contents -----

    /** pbuf_take: overwrite the first bytes of a chain. */
    method Take(buf: Addr, data: seq<byte>) returns (err: Err)
      requires Valid() && buf in mem
      modifies this`mem
      ensures Valid() && SameShape(old(mem), mem) && SameOutside(old(mem), mem, ChainAt(buf))
      ensures var F := Flat(old(mem), old(ChainAt(buf)));
        if |F| < |data| then err == ErrArg && mem == old(mem)
        else err == Ok && Flat(mem, ChainAt(buf)) == Overwrite(F, 0, data)
    {
      ChainFacts(mem, book, buf);
      if mem[buf].totLen < |data| {
        return ErrArg;
      }
      ghost var m0 := mem;
      mem := FillChain(mem, buf, data, ChainAt(buf));
      SameShapeKeeps(m0, mem, book, poolFree, poolAll);
      return Ok;
    }

    /** A store of one byte through the payload pointer of a buffer. */
    method Put(p: Addr, i: nat, c: byte)
      requires Valid() && p in mem && i < mem[p].len <= |mem[p].data|
      modifies this`mem
      ensures Valid() && mem == Written(old(mem), p, i, [c])
    {
      ghost var m0 := mem;
      mem := Written(mem, p, i, [c]);
      forall a | a in m0 ensures Alike(m0[a], mem[a]) {
      }
      SameShapeKeeps(m0, mem, book, poolFree, poolAll);
    }

    /** pbuf_copy: copy one chain to the beginning of another. It reports success for all chains that
        are packets, however they are divided into buffers. */
    method Copy(to: Option<Addr>, from: Option<Addr>) returns (err: Err)
      requires Valid() && (to.Some? ==> to.value in mem) && (from.Some? ==> from.value in mem)
      requires to.Some? && from.Some? ==>
          to.value in book.place && from.value in book.place && book.place[to.value].0 != book.place[from.value].0
      modifies this`mem
      ensures Valid() && SameShape(old(mem), mem)
      ensures to == None || from == None ==> err == ErrArg && mem == old(mem)
      ensures to.Some? && from.Some? ==>
        var T, F := ChainAt(to.value), ChainAt(from.value);
        var before, source := Flat(old(mem), T), Flat(old(mem), F);
        && SameOutside(old(mem), mem, T) && Flat(mem, F) == source
        && (|before| < |source| ==> err == ErrArg && mem == old(mem))
        && (|before| >= |source| && IsPacket(old(mem), T) && IsPacket(old(mem), F) ==> err == Ok)
        && (|before| >= |source| && (err == Ok || err == ErrArg) ==> Flat(mem, T) == Overwrite(before, 0, source))
    {
      if to == None || from == None {
        return ErrArg;
      }
      ghost var m0 := mem;
      ghost var T, F := ChainAt(to.value), ChainAt(from.value);
      ChainFacts(mem, book, to.value);
      ChainFacts(mem, book, from.value);
      ChainsSeparate(mem, book, from.value, to.value);
      if mem[to.value].totLen < mem[from.value].totLen {
        return ErrArg;
      }
      ghost var n;
      mem, err, n := CopyChain(mem, to.value, from.value, T, F);
      SameShapeKeeps(m0, mem, book, poolFree, poolAll);
      forall i | 0 <= i < |F| ensures F[i] in m0 && F[i] in mem && Bytes(m0[F[i]]) == Bytes(mem[F[i]]) {
        assert Links(m0, F, i) && PbufCopy.Kept(m0, mem, F[i]);
      }
      FlatFrame(m0, mem, F);
    }
  }

  /** Whether the buffer behind the cut is still there. */
  lemma {:induction false} FirstLeft(m0: Memory, m: Memory, b0: Book, b: Book, p: Addr, q: Addr)
    requires Counted(m0, b0, None) && AllTotals(m0) && p in b0.chains && p in m0 && m0[p].next == Some(q)
    requires 0 < |b0.chains[p]| && Shortened(m0, m, b0, b, p, 0, m0[p].len)
    ensures |b0.chains[p]| > 1 && b0.chains[p][1] == q && q in m0
    ensures q in m <==> FreeCount(m0, b0.chains[p][1..]) == 0
    ensures p in m && m[p].next == None && m[p].totLen == m[p].len == m0[p].len
  {
    var l := b0.chains[p];
    HeadOfChain(m0, b0, p);
    assert Links(m0, l, 0);
    assert Links(m0, l, 1);
    assert PbufCut.Kept(m0, m, b0, b, p, 0, q);
    assert l[1..][0] == q;
    var s := From(b, p);
    assert s == [p];
    ChainOfOne(m, b, p);
  }

  lemma {:induction false} ChainOfOne(m: Memory, b: Book, p: Addr)
    requires Counted(m, b, None) && AllTotals(m) && PlaceOk(b, p) && From(b, p) == [p]
    ensures p in m && m[p].next == None && m[p].totLen == m[p].len == |Flat(m, [p])|
  {
    ChainFacts(m, b, p);
    FromMember(m, b, None, p, 0);
    assert GoodTotal(m, p);
  }

  /** The memory after `++(p->ref)`. */
  ghost function Referenced(m: Memory, p: Addr): Memory
    requires p in m
  {
    m[p := m[p].(ref := Add16(m[p].ref, 1))]
  }

  lemma RefMatches(m: Memory, b: Book, p: Addr)
    requires p in m
    ensures Counted(m, b, None) ==> p in b.held && p in b.place && m[p].ref == b.held[p] + (if b.place[p].1 == 0 then 0 else 1)
  {
    if Counted(m, b, None) {
      assert RefOk(m, b, p, None);
    }
  }

  lemma {:induction false} RefKeeps(m: Memory, b: Book, free: seq<Addr>, all: set<Addr>, p: Addr)
    requires Counted(m, b, None) && p in m && p in b.held
    ensures var n := Referenced(m, p);
      && (Counted(n, HoldBook(b, p, b.held[p] + 1), None) <==> m[p].ref < 0xffff)
      && (AllTotals(n) <==> AllTotals(m)) && (PoolOk(n, free, all) <==> PoolOk(m, free, all))
  {
    var n, c := Referenced(m, p), HoldBook(b, p, b.held[p] + 1);
    RefMatches(m, b, p);
    RefMatches(n, c, p);
    if m[p].ref < 0xffff {
      HoldCounted(m, b, p);
    }
    forall a | a in n ensures GoodTotal(n, a) <==> GoodTotal(m, a) {
    }
    if PoolOk(m, free, all) {
      PoolKept(m, n, free, all);
    }
    if PoolOk(n, free, all) {
      PoolKept(n, m, free, all);
    }
  }

  /** Holding a buffer after appending to its chain. */
  lemma {:induction false} ChainLonger(m0: Memory, m1: Memory, b0: Book, b1: Book, h: Addr, t: Addr)
    requires Joined(m0, m1, b0, b1, h, t) && t in m1 && t in b1.held
    ensures t in m0 && m1[t].ref == m0[t].ref
    ensures var m, b := Referenced(m1, t), HoldBook(b1, t, b1.held[t] + 1);
      forall a {:trigger Longer(m0, m, b0, b, h, t, a)} :: a in m ==> Longer(m0, m, b0, b, h, t, a)
  {
    assert Grown(m0, m1, b0, b1, h, t, t);
    var m, b := Referenced(m1, t), HoldBook(b1, t, b1.held[t] + 1);
    forall a | a in m ensures Longer(m0, m, b0, b, h, t, a) {
      assert Grown(m0, m1, b0, b1, h, t, a);
      RefFlat(m1, b1, t, a);
    }
  }

  /** Holding a buffer does not change any packet. */
  lemma {:induction false} RefFlat(m: Memory, b: Book, p: Addr, a: Addr)
    requires Counted(m, b, None) && p in m && p in b.held && a in m
    ensures PlaceOk(b, a) && PlaceOk(HoldBook(b, p, b.held[p] + 1), a)
    ensures Flat(Referenced(m, p), From(HoldBook(b, p, b.held[p] + 1), a)) == Flat(m, From(b, a))
  {
    var n := Referenced(m, p);
    assert PlaceOk(b, a);
    var l := From(b, a);
    assert From(HoldBook(b, p, b.held[p] + 1), a) == l;
    forall i | 0 <= i < |l| ensures l[i] in m && l[i] in n && Bytes(m[l[i]]) == Bytes(n[l[i]]) {
      FromMember(m, b, None, a, i);
    }
    FlatFrame(m, n, l);
  }

  // ----- a tail that dangles -----

  ghost predicate OneByte(m: Memory, b: Book, a: Addr) {
    a in m && m[a].len == 1 && m[a].kind != PbufPool && a in b.held && b.held[a] == if a == 0 then 1 else 0
  }

  /** The first `n` addresses are one chain of buffers of one byte each, held by its first buffer. */
  ghost predicate Row(m: Memory, b: Book, n: nat) {
    && (forall a: Addr :: a in m <==> a < n)
    && (forall a {:trigger OneByte(m, b, a)} :: 0 <= a < n ==> OneByte(m, b, a))
    && 0 in b.chains && |b.chains[0]| == n && forall i {:trigger b.chains[0][i]} :: 0 <= i < n ==> b.chains[0][i] == i
  }

  lemma {:induction false} OnesLength(m: Memory, l: seq<Addr>)
    requires forall i :: 0 <= i < |l| ==> l[i] in m && m[l[i]].len == 1 && |m[l[i]].data| >= 1
    ensures |Flat(m, l)| == |l|
  {
    if l != [] {
      OnesLength(m, l[1..]);
    }
  }

  lemma {:induction false} RowLength(m: Memory, b: Book, n: nat)
    requires Counted(m, b, None) && AllTotals(m) && Row(m, b, n) && n > 0
    ensures m[0].totLen == n
  {
    var l := b.chains[0];
    HeadOfChain(m, b, 0);
    forall i | 0 <= i < n ensures l[i] in m && m[l[i]].len == 1 && |m[l[i]].data| >= 1 {
      assert Links(m, l, i) && OneByte(m, b, l[i]);
    }
    OnesLength(m, l);
  }

  /** Nobody but its predecessor refers to a later buffer of the row. */
  lemma {:induction false} RowRefs(m: Memory, b: Book, n: nat)
    requires Counted(m, b, None) && Row(m, b, n) && n > 1
    ensures FreeCount(m, b.chains[0][1..]) == n - 1 && m[0].next == Some(1)
  {
    var l := b.chains[0];
    assert ChainOk(m, b, 0);
    forall i | 0 < i < n ensures m[i].ref == 1 {
      assert l[i] == i;
      assert MemberOk(b, 0, l, i) && OneByte(m, b, i) && RefOk(m, b, i, None);
    }
    FreeCountIs(m, l[1..], n - 1);
    assert Links(m, l, 0);
  }

  lemma {:induction false} RowGrows(m0: Memory, m1: Memory, m: Memory, b0: Book, b1: Book, b: Book, n: nat)
    requires Row(m0, b0, n) && n > 0 && m1 == m0[n := Pbuf(None, [0], 1, 1, 1, PbufRef)] && b1 == AddBook(b0, n)
    requires Appended(m1, m, b1, b, 0, n)
    ensures Row(m, b, n + 1)
  {
    forall a | 0 <= a < n + 1 ensures OneByte(m, b, a) {
      assert a in m1;
      assert Grown(m1, m, b1, b, 0, n, a);
      assert a < n ==> OneByte(m0, b0, a);
    }
    assert b.chains[0] == b0.chains[0] + [n];
  }

  /** One more buffer for the row. */
  method AddOne(s: Store, n: nat)
    requires s.Valid() && s.poolFree == [] && 0 < n < 257 && Row(s.mem, s.book, n)
    modifies s
    ensures s.Valid() && s.poolFree == [] && Row(s.mem, s.book, n + 1)
  {
    ghost var m0, b0 := s.mem, s.book;
    RowLength(m0, b0, n);
    assert InPool(m0, s.poolFree, s.poolAll, n);
    var r := s.AllocOne(1, PbufRef, Some(n), [0]);
    ghost var m1, b1 := s.mem, s.book;
    s.Cat(0, n);
    RowGrows(m0, m1, s.mem, b0, b1, s.book, n);
  }

  /** A run in which pbuf_dechain returns a buffer that is gone: 257 buffers of one byte each are linked,
      the first one is taken out of the chain, and the other 256 are released, which counts as none. */
  method DanglingTail() returns (s: Store, r: Option<Addr>)
    ensures fresh(s) && s.Valid() && r == Some(1) && 1 !in s.mem
  {
    s := new Store([]);
    assert InPool(s.mem, s.poolFree, s.poolAll, 0);
    r := s.AllocOne(1, PbufRef, Some(0), [0]);
    assert OneByte(s.mem, s.book, 0);
    for n := 1 to 257
      invariant fresh(s) && s.Valid() && s.poolFree == [] && Row(s.mem, s.book, n)
    {
      AddOne(s, n);
    }
    RowRefs(s.mem, s.book, 257);
    r := s.Dechain(0);
  }
}
