/** The receiving side of the SLIP interface: bytes from the serial line are stored in packet buffers. */
module SlipInput {
  import opened Wrappers
  import opened PbufChain
  import opened PbufBook
  import opened PbufData
  import opened PbufRelease
  import opened PbufLink
  import opened PbufCut
  import opened PbufAlloc
  import opened PbufStore
  import opened SlipCodec

  /** A buffer allocated for link-level data, and the length of the chain the receiver asks for. */
  const FIRST: nat := POOL_BUFSIZE - HeaderRoom(Link)
  const CHUNK: u16 := POOL_BUFSIZE - LINK_HLEN

  ghost predicate NonEmpty(m: Memory, a: Addr) {
    a in m && m[a].len > 0
  }

  ghost predicate NoEmpty(m: Memory, l: seq<Addr>) {
    forall k {:trigger NonEmpty(m, l[k])} :: 0 <= k < |l| ==> NonEmpty(m, l[k])
  }

  /** The bytes of `packet` are at the beginning of the chain `q`, and the next one goes to position `i` of
      its buffer `p`, which is number `j`; or to a new buffer, if `p` is null. */
  ghost predicate Collecting(m: Memory, b: Book, p: Option<Addr>, q: Option<Addr>, i: nat, recved: nat, j: nat, packet: seq<byte>) {
    && |packet| == recved
    && if q == None then p == None && i == 0 && recved == 0
       else
         && q.value in b.chains && q.value in b.held && b.held[q.value] > 0 && NoEmpty(m, b.chains[q.value])
         && packet <= Flat(m, b.chains[q.value]) && |Flat(m, b.chains[q.value])| >= CHUNK
         && (if p.Some? then Pointed(m, b.chains[q.value], p.value, i, recved, j)
             else i == 0 && recved == |Flat(m, b.chains[q.value])|)
  }

  ghost predicate Pointed(m: Memory, l: seq<Addr>, p: Addr, i: nat, recved: nat, j: nat) {
    j < |l| && l[j] == p && p in m && i < m[p].len && recved == |Flat(m, l[..j])| + i
  }

  /** The two buffers of a new chain. */
  lemma {:induction false} NewChain(m0: Memory, m: Memory, b0: Book, b: Book, l: seq<Addr>)
    requires Allocated(m0, m, b0, b, l, FIRST, CHUNK) && |l| == Needed(FIRST, CHUNK)
    ensures NoEmpty(m, l) && l[0] in m && 0 < m[l[0]].len && m[l[0]].totLen == CHUNK
    ensures l[0] in b.chains && b.chains[l[0]] == l && l[0] in b.held && b.held[l[0]] == 1
  {
    forall k | 0 <= k < |l| ensures NonEmpty(m, l[k]) {
      assert Filled(m, l, FIRST, CHUNK, k);
    }
    assert Filled(m, l, FIRST, CHUNK, 0);
  }

  lemma {:induction false} FirstChain(m0: Memory, m: Memory, b0: Book, b: Book, l: seq<Addr>)
    requires Allocated(m0, m, b0, b, l, FIRST, CHUNK) && |l| == Needed(FIRST, CHUNK)
    ensures Collecting(m, b, Some(l[0]), Some(l[0]), 0, 0, 0, [])
  {
    NewChain(m0, m, b0, b, l);
    ChainFacts(m, b, l[0]);
    HeadOfChain(m, b, l[0]);
    assert l[..0] == [] && [] <= Flat(m, l);
  }

  /** Allocating leaves the packet being received alone. */
  lemma {:induction false} StillCollecting(m0: Memory, m: Memory, b0: Book, b: Book, l: seq<Addr>, h: Addr)
    requires Counted(m0, b0, None) && AllTotals(m0) && h in b0.chains && h in b0.held
    requires Allocated(m0, m, b0, b, l, FIRST, CHUNK) && |l| == Needed(FIRST, CHUNK)
    ensures h in m0 && h in m && h in b.chains && b.chains[h] == b0.chains[h] && h in b.held && b.held[h] == b0.held[h]
    ensures forall k :: 0 <= k < |b0.chains[h]| ==>
        b0.chains[h][k] in m0 && b0.chains[h][k] in m && m[b0.chains[h][k]] == m0[b0.chains[h][k]]
    ensures Flat(m, b0.chains[h]) == Flat(m0, b0.chains[h]) && m[h].totLen == |Flat(m0, b0.chains[h])| && h != l[0]
  {
    HeadOfChain(m0, b0, h);
    var H := b0.chains[h];
    forall k | 0 <= k < |H| ensures H[k] in m0 && H[k] in m && m[H[k]] == m0[H[k]] {
      assert Links(m0, H, k) && Added(m0, m, b0, b, l, H[k]);
    }
    FlatFrame(m0, m, H);
    assert Added(m0, m, b0, b, l, h);
    assert SameFrom(b0, b, h) && RefOk(m0, b0, h, None) && RefOk(m, b, h, None);
    HeadChain(m, b, h, None);
  }

  /** The new chain `t` continues the full chain `h`. */
  lemma {:induction false} NextChain(m0: Memory, m: Memory, b0: Book, b: Book, h: Addr, t: Addr, recved: nat, packet: seq<byte>)
    requires Counted(m0, b0, None) && AllTotals(m0) && Appended(m0, m, b0, b, h, t) && h != t
    requires Collecting(m0, b0, None, Some(h), 0, recved, 0, packet) && NoEmpty(m0, b0.chains[t])
    ensures Collecting(m, b, Some(t), Some(h), 0, recved, |b0.chains[h]|, packet)
  {
    var H, T := b0.chains[h], b0.chains[t];
    var l := H + T;
    HeadOfChain(m0, b0, h);
    HeadOfChain(m0, b0, t);
    forall k | 0 <= k < |l| ensures NonEmpty(m, l[k]) && Bytes(m[l[k]]) == Bytes(m0[l[k]]) && l[k] in m0 {
      if k < |H| {
        assert NonEmpty(m0, H[k]);
      } else {
        assert NonEmpty(m0, T[k - |H|]);
      }
      assert Grown(m0, m, b0, b, h, t, l[k]);
    }
    forall k | 0 <= k < |H| ensures H[k] in m0 && H[k] in m && Bytes(m0[H[k]]) == Bytes(m[H[k]]) {
      assert l[k] == H[k];
    }
    FlatFrame(m0, m, H);
    FlatConcat(m, H, T);
    assert l[|H|] == t && l[..|H|] == H;
    assert Grown(m0, m, b0, b, h, t, h);
  }

  /** A byte is stored. */
  lemma {:induction false} ByteStored(m: Memory, b: Book, p: Addr, q: Addr, i: nat, recved: nat, j: nat, packet: seq<byte>, c: byte)
    requires Counted(m, b, None) && AllTotals(m) && Collecting(m, b, Some(p), Some(q), i, recved, j, packet)
    ensures p in m && i < m[p].len <= |m[p].data| && m[p].next == Head(b.chains[q], j + 1)
    ensures var n := Written(m, p, i, [c]);
      && n[p] == m[p].(data := n[p].data)
      && Collecting(n, b, if i + 1 < m[p].len then Some(p) else Head(b.chains[q], j + 1), Some(q),
                    if i + 1 < m[p].len then i + 1 else 0, recved + 1, if i + 1 < m[p].len then j else j + 1, packet + [c])
  {
    var l := b.chains[q];
    HeadOfChain(m, b, q);
    WalkStep(m, l, j);
    ChainWritten(m, l, p, j, i, recved, c, packet);
    var n := Written(m, p, i, [c]);
    WalkStep(n, l, j);
    WalkEnds(n, l);
    if j + 1 < |l| {
      assert NonEmpty(n, l[j + 1]);
    }
  }

  /** The chain after a byte has been stored behind the packet. */
  lemma {:induction false} ChainWritten(m: Memory, l: seq<Addr>, p: Addr, j: nat, i: nat, recved: nat, c: byte, packet: seq<byte>)
    requires IsChain(m, l) && NoEmpty(m, l) && packet <= Flat(m, l) && |packet| == recved && Pointed(m, l, p, i, recved, j)
    requires m[p].len <= |m[p].data|
    ensures var n := Written(m, p, i, [c]);
      && IsChain(n, l) && NoEmpty(n, l) && packet + [c] <= Flat(n, l) && |Flat(n, l)| == |Flat(m, l)|
      && |Flat(n, l[..j])| == |Flat(m, l[..j])|
  {
    var F, n := Flat(m, l), Written(m, p, i, [c]);
    WriteKeepsChain(m, l, p, i, [c]);
    WriteKeepsNonEmpty(m, l, p, i, c);
    FlatWrite(m, l, j, i, [c]);
    assert Flat(n, l) == Overwrite(F, |packet|, [c]);
    PrefixGrows(F, packet, c);
  }

  lemma {:induction false} WriteKeepsNonEmpty(m: Memory, l: seq<Addr>, p: Addr, i: nat, c: byte)
    requires NoEmpty(m, l) && p in m && i < m[p].len <= |m[p].data|
    ensures NoEmpty(Written(m, p, i, [c]), l)
  {
    var n := Written(m, p, i, [c]);
    forall k | 0 <= k < |l| ensures NonEmpty(n, l[k]) {
      assert NonEmpty(m, l[k]);
    }
  }

  lemma {:induction false} WholePrefix(s: seq<byte>, packet: seq<byte>)
    requires packet <= s
    ensures s[..|packet|] == packet && (|packet| == |s| ==> packet == s)
  {
  }

  lemma {:induction false} PrefixGrows(s: seq<byte>, packet: seq<byte>, c: byte)
    requires packet <= s && |packet| < |s|
    ensures packet + [c] <= Overwrite(s, |packet|, [c]) && |Overwrite(s, |packet|, [c])| == |s|
  {
  }

  /** A completed packet is handed over as a chain that holds exactly its bytes, and is held once more. */
  ghost predicate Handed(m: Memory, b: Book, t: Option<Addr>, completed: seq<seq<byte>>) {
    if t == None then completed == []
    else t.value in b.chains && t.value in b.held && b.held[t.value] > 0 && completed == [Flat(m, b.chains[t.value])]
  }

  /** The byte is one of a packet, or stands for one. */
  ghost predicate Stores(r: Rx, c: byte) {
    r.escape || (c != END && c != ESC)
  }

  /** The byte is the first of a packet. */
  ghost predicate Begins(r: Rx, c: byte) {
    r.packet == [] && Stores(r, c)
  }

  /** How many packets the first `n` bytes of a stream begin. */
  ghost function Begun(max: nat, r: Rx, s: seq<byte>, n: nat): (k: nat)
    requires n <= |s|
    ensures k <= n
  {
    if n == 0 then 0 else Begun(max, r, s, n - 1) + (if Begins(StateAt(max, r, s, n - 1), s[n - 1]) then 1 else 0)
  }

  lemma {:induction false} BegunGrows(max: nat, r: Rx, s: seq<byte>, n: nat)
    requires n <= |s|
    ensures Begun(max, r, s, n) <= Begun(max, r, s, |s|)
    decreases |s| - n
  {
    if n < |s| {
      BegunGrows(max, r, s, n + 1);
    }
  }

  /** There were buffers enough each time. */
  ghost predicate Sufficient(levels: seq<nat>) {
    forall k :: 0 <= k < |levels| ==> levels[k] >= 2
  }

  /** A bound for the number of times that the bytes of a stream ask for buffers. */
  ghost function Most(max: nat, r: Rx, s: seq<byte>): (k: nat)
    ensures k <= |s|
  {
    if max + 1 < CHUNK then Begun(max, r, s, |s|) else |s|
  }

  /** What is known after `n` bytes: if none was lost, the receiver and the packets handed over are those of
      the stream, and buffers were asked for no more often than packets began. */
  ghost predicate Polled(max: nat, r: Rx, s: seq<byte>, n: nat, state: Rx, packets: seq<seq<byte>>, levels: seq<nat>, lost: nat) {
    && n <= |s| && (lost == 0 <==> Sufficient(levels)) && |levels| <= n
    && (lost == 0 ==> state == StateAt(max, r, s, n) && packets == PacketsAt(max, r, s, n))
    && (lost == 0 && max + 1 < CHUNK ==> |levels| <= Begun(max, r, s, n))
  }

  lemma {:induction false} PolledMore(max: nat, r: Rx, s: seq<byte>, n: nat, before: Rx, packets: seq<seq<byte>>, levels: seq<nat>,
                                      lost: nat, asked: bool, level: nat, gone: bool, after: Rx,
                                      more: seq<seq<byte>>, seen: seq<nat>, pool: nat)
    requires n < |s| && Polled(max, r, s, n, before, packets, levels, lost)
    requires asked && max + 1 < CHUNK ==> Begins(before, s[n])
    requires gone <==> asked && level < 2
    requires !gone ==> after == Next(max, before, s[n])
    requires more == packets + Completed(before, s[n]) && seen == if asked then levels + [level] else levels
    requires level + 2 * |levels| >= pool
    requires pool >= 2 * Most(max, r, s) ==> lost == 0
    ensures Polled(max, r, s, n + 1, after, more, seen, if gone then lost + 1 else lost)
    ensures pool >= 2 * Most(max, r, s) ==> !gone
  {
    BegunGrows(max, r, s, n + 1);
    if gone {
      assert seen[|levels|] < 2;
    } else if asked {
      assert forall k :: 0 <= k < |levels| ==> seen[k] == levels[k];
    }
  }

  ghost function Elements(s: seq<Addr>): set<Addr> {
    set a | a in s
  }

  lemma {:induction false} Distinct(s: seq<Addr>)
    requires NoDup(s)
    ensures |Elements(s)| == |s|
  {
    if s == [] {
      assert Elements(s) == {};
    } else {
      var t, z := s[..|s| - 1], s[|s| - 1];
      LastDiffers(s);
      Distinct(t);
      assert Elements(s) == Elements(t) + {z};
    }
  }

  lemma {:induction false} LastDiffers(s: seq<Addr>)
    requires NoDup(s) && s != []
    ensures NoDup(s[..|s| - 1]) && s[|s| - 1] !in Elements(s[..|s| - 1])
    ensures s == s[..|s| - 1] + [s[|s| - 1]]
  {
    var t, z := s[..|s| - 1], s[|s| - 1];
    forall i, j | 0 <= i < j < |t| ensures Apart(t[i], t[j]) {
      assert Apart(s[i], s[j]);
    }
    forall i | 0 <= i < |t| ensures t[i] != z {
      assert Apart(s[i], s[|s| - 1]);
    }
  }

  /** The same buffers are free, be it in another order. */
  lemma {:induction false} SamePool(m: Memory, f: seq<Addr>, g: seq<Addr>, all: set<Addr>)
    requires PoolOk(m, f, all) && PoolOk(m, g, all)
    ensures |f| == |g|
  {
    Distinct(f);
    Distinct(g);
    forall a ensures a in f <==> a in g {
      assert InPool(m, f, all, a) && InPool(m, g, all, a);
    }
    assert Elements(f) == Elements(g);
  }

  class Receiver {
    const store: Store
    const max: nat
    var p: Option<Addr>
    var q: Option<Addr>
    var escape: bool
    var i: nat
    var recved: nat
    /** The number of `p` in its chain, and the bytes received of the current packet. */
    ghost var j: nat
    ghost var packet: seq<byte>

    ghost predicate Valid()
      reads this, store
    {
      && store.Valid() && Collecting(store.mem, store.book, p, q, i, recved, j, packet)
      && recved <= max + 1 && max + 1 + CHUNK < 0x1_0000
    }

    ghost function State(): Rx
      reads this
    {
      Rx(escape, packet)
    }

    constructor (store: Store, max: nat)
      requires store.Valid() && max + 1 + CHUNK < 0x1_0000
      ensures Valid() && this.store == store && this.max == max && State() == IDLE
    {
      this.store, this.max := store, max;
      p, q, escape, i, recved, j, packet := None, None, false, 0, 0, 0, [];
    }

    /** Make sure that there is a buffer for the next byte. */
    method Extend(stale: seq<byte>) returns (ok: bool)
      requires Valid() && |stale| == POOL_BUFSIZE
      modifies this`p, this`q, this`j, store
      ensures Valid() && (ok ==> p.Some?)
      ensures ok <==> old(p).Some? || Needed(FIRST, CHUNK) <= |old(store.poolFree)|
      ensures !ok ==> p == None && q == old(q) && j == old(j)
      ensures !ok ==> store.mem == old(store.mem) && store.book == old(store.book) && |store.poolFree| == |old(store.poolFree)|
      ensures |store.poolFree| + (if old(p) == None then 2 else 0) >= |old(store.poolFree)|
    {
      if p.Some? {
        return true;
      }
      ghost var m0, b0, free0 := store.mem, store.book, store.poolFree;
      p := store.AllocPool(Link, CHUNK, stale);
      if p == None {
        SamePool(m0, free0, store.poolFree, store.poolAll);
        return false;
      }
      ghost var l := free0[..Needed(FIRST, CHUNK)];
      if q.Some? {
        Attach(m0, b0, l);
      } else {
        FirstChain(m0, store.mem, b0, store.book, l);
        q := p;
        j := 0;
      }
      return true;
    }

    /** The new chain `l` at `p` continues the packet that is being received. */
    method Attach(ghost m0: Memory, ghost b0: Book, ghost l: seq<Addr>)
      requires store.Valid() && Counted(m0, b0, None) && AllTotals(m0) && |l| == Needed(FIRST, CHUNK) && p == Some(l[0])
      requires Allocated(m0, store.mem, b0, store.book, l, FIRST, CHUNK) && q.Some?
      requires Collecting(m0, b0, None, q, i, recved, 0, packet) && recved <= max + 1 && max + 1 + CHUNK < 0x1_0000
      modifies this`j, store`mem, store`book
      ensures Valid()
    {
      ghost var m1, b1 := store.mem, store.book;
      NewChain(m0, m1, b0, b1, l);
      StillCollecting(m0, m1, b0, b1, l, q.value);
      forall k | 0 <= k < |b1.chains[q.value]| ensures NonEmpty(m1, b1.chains[q.value][k]) {
        assert NonEmpty(m0, b0.chains[q.value][k]);
      }
      store.Cat(q.value, p.value);
      NextChain(m1, store.mem, b1, store.book, q.value, p.value, recved, packet);
      j := |b1.chains[q.value]|;
    }

    /** The end of slipif_rxbyte: store a byte, or drop it when the packet is too long. */
    method Collect(c: byte, stale: seq<byte>) returns (ok: bool)
      requires Valid() && |stale| == POOL_BUFSIZE
      modifies this`p, this`q, this`i, this`recved, this`j, this`packet, store
      ensures Valid()
      ensures ok <==> old(p).Some? || Needed(FIRST, CHUNK) <= |old(store.poolFree)|
      ensures packet == if ok then Keep(max, old(packet), c).packet else old(packet)
      ensures !ok ==> store.mem == old(store.mem) && store.book == old(store.book) && |store.poolFree| == |old(store.poolFree)|
      ensures |store.poolFree| + (if old(p) == None then 2 else 0) >= |old(store.poolFree)|
    {
      ok := Extend(stale);
      if !ok {
        return;
      }
      if recved <= max {
        Store1(c);
      }
    }

    /** Store a byte at the current position and move on, to the next buffer if this one is full. */
    method Store1(c: byte)
      requires Valid() && p.Some? && recved <= max
      modifies this`p, this`i, this`recved, this`j, this`packet, store`mem
      ensures Valid() && packet == old(packet) + [c]
    {
      var cur := p.value;
      ByteStored(store.mem, store.book, cur, q.value, i, recved, j, packet, c);
      var b := store.mem[cur];
      NextNotEmpty(store.mem, store.book, q.value, cur, j);
      store.Put(cur, i, c);
      recved := recved + 1;
      i := i + 1;
      packet := packet + [c];
      if i >= b.len {
        i := 0;
        if b.next.Some? && store.mem[b.next.value].len > 0 {
          p := b.next;
        } else {
          p := None;
        }
        j := j + 1;
      }
    }

    /** SLIP_END: hand the packet over. The caller gets the reference to it. */
    method Finish() returns (t: Option<Addr>)
      requires Valid()
      modifies this`p, this`q, this`i, this`recved, this`packet, store
      ensures Valid() && packet == [] && (t.Some? ==> q == None)
      ensures Handed(store.mem, store.book, t, if old(packet) == [] then [] else [old(packet)])
      ensures |store.poolFree| >= |old(store.poolFree)|
      ensures old(packet) == [] ==> p == old(p) && q == old(q) && store.mem == old(store.mem)
    {
      if recved == 0 {
        return None;
      }
      ghost var m0, b0, h := store.mem, store.book, q.value;
      HeadOfChain(m0, b0, h);
      WholePrefix(Flat(m0, b0.chains[h]), packet);
      ghost var k := store.Realloc(q.value, recved);
      if recved < m0[h].totLen {
        ShortenedHead(m0, store.mem, b0, store.book, h, k, recved);
      }
      t := q;
      p, q, i, recved, packet := None, None, 0, 0, [];
    }

    /** slipif_rxbyte: one byte from the line, which may complete a packet. It follows the receiver's
        transitions, except that a byte is lost when it asks for a buffer and the pool has no two. It only
        asks at the beginning of a packet, if packets are shorter than a chain of buffers. */
    method RxByte(c: byte, stale: seq<byte>) returns (t: Option<Addr>, asked: bool, lost: bool)
      requires Valid() && |stale| == POOL_BUFSIZE
      modifies this, store
      ensures Valid()
      ensures asked <==> old(p) == None && Stores(old(State()), c)
      ensures asked && max + 1 < CHUNK ==> Begins(old(State()), c)
      ensures lost <==> asked && |old(store.poolFree)| < 2
      ensures State() == if lost then Rx(false, old(packet)) else Next(max, old(State()), c)
      ensures Handed(store.mem, store.book, t, Completed(old(State()), c)) && (t.Some? ==> q == None)
      ensures |store.poolFree| + (if asked then 2 else 0) >= |old(store.poolFree)|
      ensures lost ==> store.mem == old(store.mem) && store.book == old(store.book)
    {
      t, asked, lost := None, false, false;
      if !escape && c == END {
        t := Finish();
      } else if !escape && c == ESC {
        escape := true;
      } else {
        asked, lost := RxData(c, stale);
      }
    }

    /** A byte of a packet, or one that stands for it. */
    method RxData(c: byte, stale: seq<byte>) returns (asked: bool, lost: bool)
      requires Valid() && |stale| == POOL_BUFSIZE && Stores(State(), c)
      modifies this, store
      ensures Valid() && (asked <==> old(p) == None) && (asked && max + 1 < CHUNK ==> old(packet) == [])
      ensures lost <==> asked && |old(store.poolFree)| < 2
      ensures State() == if lost then Rx(false, old(packet)) else Next(max, old(State()), c)
      ensures |store.poolFree| + (if asked then 2 else 0) >= |old(store.poolFree)|
      ensures lost ==> store.mem == old(store.mem) && store.book == old(store.book)
    {
      var d := c;
      if escape {
        if c == ESC_END {
          d := END;
        } else if c == ESC_ESC {
          d := ESC;
        }
        escape := false;
      }
      asked := p == None;
      var ok := Collect(d, stale);
      lost := !ok;
    }

    /** slipif_poll: feed all bytes that are available. `packets` is what netif->input gets to see; a packet
        that it does not accept is freed. `levels` are the numbers of free buffers that were found whenever a
        byte asked for some. As long as there were two each time, no byte is lost and the packets handed over
        are those of the stream; and there were, if there are two for each packet that begins. */
    method Poll(bytes: seq<byte>, stale: seq<byte>) returns (ghost packets: seq<seq<byte>>, ghost levels: seq<nat>, lost: nat)
      requires Valid() && |stale| == POOL_BUFSIZE
      modifies this, store
      ensures Valid()
      ensures lost == 0 <==> Sufficient(levels)
      ensures lost == 0 ==> State() == RunState(max, old(State()), bytes) && packets == RunPackets(max, old(State()), bytes)
      ensures |store.poolFree| + 2 * |levels| >= |old(store.poolFree)| && |levels| <= |bytes|
      ensures lost == 0 && max + 1 < CHUNK ==> |levels| <= Begun(max, old(State()), bytes, |bytes|)
      ensures |old(store.poolFree)| >= 2 * Most(max, old(State()), bytes) ==> lost == 0
    {
      packets, levels, lost := [], [], 0;
      ghost var r, pool := State(), |store.poolFree|;
      var n: nat := 0;
      while n < |bytes|
        invariant Valid() && n <= |bytes|
        invariant Polled(max, r, bytes, n, State(), packets, levels, lost) && |store.poolFree| + 2 * |levels| >= pool
        invariant pool >= 2 * Most(max, r, bytes) ==> lost == 0
      {
        var gone;
        packets, levels, gone := PollByte(bytes, n, stale, r, packets, levels, lost, pool);
        if gone {
          lost := lost + 1;
        }
        n := n + 1;
      }
    }

    /** Byte number `n` of a stream. */
    method PollByte(bytes: seq<byte>, n: nat, stale: seq<byte>, ghost r: Rx, ghost packets: seq<seq<byte>>, ghost levels: seq<nat>,
                    lost: nat, ghost pool: nat)
      returns (ghost more: seq<seq<byte>>, ghost seen: seq<nat>, gone: bool)
      requires Valid() && |stale| == POOL_BUFSIZE && n < |bytes|
      requires Polled(max, r, bytes, n, State(), packets, levels, lost) && |store.poolFree| + 2 * |levels| >= pool
      requires pool >= 2 * Most(max, r, bytes) ==> lost == 0
      modifies this, store
      ensures Valid() && |store.poolFree| + 2 * |seen| >= pool
      ensures Polled(max, r, bytes, n + 1, State(), more, seen, if gone then lost + 1 else lost)
      ensures pool >= 2 * Most(max, r, bytes) ==> !gone
    {
      ghost var before, level := State(), |store.poolFree|;
      ghost var handed;
      var asked;
      handed, asked, gone := RxByteInput(bytes[n], stale);
      more, seen := packets + handed, if asked then levels + [level] else levels;
      PolledMore(max, r, bytes, n, before, packets, levels, lost, asked, level, gone, State(), more, seen, pool);
    }

    /** slipif_rxbyte_input: one byte; a packet that it completes is read and passed on. */
    method RxByteInput(c: byte, stale: seq<byte>) returns (ghost handed: seq<seq<byte>>, asked: bool, lost: bool)
      requires Valid() && |stale| == POOL_BUFSIZE
      modifies this, store
      ensures Valid() && handed == Completed(old(State()), c)
      ensures asked && max + 1 < CHUNK ==> Begins(old(State()), c)
      ensures lost <==> asked && |old(store.poolFree)| < 2
      ensures State() == if lost then Rx(false, old(packet)) else Next(max, old(State()), c)
      ensures |store.poolFree| + (if asked then 2 else 0) >= |old(store.poolFree)|
    {
      handed := [];
      var t;
      t, asked, lost := RxByte(c, stale);
      if t.Some? {
        handed := [Flat(store.mem, store.book.chains[t.value])];
        Deliver(t.value);
      }
    }

    /** The packet is passed on, and freed if netif->input refuses it. */
    method Deliver(t: Addr)
      requires Valid() && q == None && t in store.book.chains && t in store.book.held && store.book.held[t] > 0
      modifies store
      ensures Valid() && |store.poolFree| >= |old(store.poolFree)|
    {
      var accepted: bool := *;
      HeadOfChain(store.mem, store.book, t);
      if !accepted {
        var count := store.Free(Some(t));
      }
    }
  }

  /** The successor of a buffer of the packet is not empty, so that the receiver moves on to it. */
  lemma {:induction false} NextNotEmpty(m: Memory, b: Book, q: Addr, cur: Addr, j: nat)
    requires Counted(m, b, None) && q in b.chains && j < |b.chains[q]| && b.chains[q][j] == cur && NoEmpty(m, b.chains[q])
    ensures cur in m && m[cur].next == Head(b.chains[q], j + 1)
    ensures m[cur].next.Some? ==> m[cur].next.value in m && m[m[cur].next.value].len > 0
  {
    assert ChainOk(m, b, q);
    assert Links(m, b.chains[q], j);
    if j + 1 < |b.chains[q]| {
      assert NonEmpty(m, b.chains[q][j + 1]);
    }
  }

  lemma {:induction false} ShortenedHead(m0: Memory, m: Memory, b0: Book, b: Book, h: Addr, k: nat, len: nat)
    requires Counted(m0, b0, None) && AllTotals(m0) && Shortened(m0, m, b0, b, h, k, len)
    ensures h in b.chains && h in b.held && h in b0.held && b.held[h] == b0.held[h] && len <= |Flat(m0, b0.chains[h])|
    ensures Flat(m, b.chains[h]) == Flat(m0, b0.chains[h])[..len]
  {
    HeadChain(m, b, h, None);
  }
}
