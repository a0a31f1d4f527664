/** Cutting the end of a chain of packet buffers off: pbuf_realloc and pbuf_dechain. */
module PbufCut {
  import opened Wrappers
  import opened PbufChain
  import opened PbufBook
  import opened PbufData
  import opened PbufRelease
  import opened PbufLink

  /** pbuf_realloc has passed the first `k` buffers of the chain `h`; `rem` of the wanted `len` bytes
      are still to come. */
  ghost predicate Shrinking(m0: Memory, m: Memory, b: Book, h: Addr, k: nat, len: nat, rem: nat) {
    && Counted(m0, b, None) && AllTotals(m0) && h in b.chains && h in m0 && k < |b.chains[h]|
    && len <= m0[h].totLen && Shifted(m0, m, b, h, k, len - m0[h].totLen)
    && |Flat(m0, b.chains[h][..k])| + rem == len
  }

  lemma {:induction false} ShrinkReads(m0: Memory, m: Memory, b: Book, h: Addr, k: nat, len: nat, rem: nat, q: Addr)
    requires Shrinking(m0, m, b, h, k, len, rem) && q == b.chains[h][k]
    ensures q in m && q in m0 && m[q] == m0[q] && m[q].next == Head(b.chains[h], k + 1)
    ensures m[q].len <= |m[q].data| && m[q].len <= m[q].totLen
    ensures rem == m[q].totLen + (len - m0[h].totLen) && m0[h].totLen < 0x1_0000
    ensures rem > m[q].len ==> k + 1 < |b.chains[h]|
    ensures rem > m[q].len ==>
      Shrinking(m0, m[q := m[q].(totLen := Add16(m[q].totLen, len - m0[h].totLen))], b, h, k + 1, len, rem - m[q].len)
  {
    TotalFrom(m0, b, h, k);
    assert GoodTotal(m0, h) && GoodTotal(m0, q);
    ShiftStep(m0, m, b, h, k, len - m0[h].totLen, q);
    FlatAt(m0, b.chains[h], k);
  }

  /** The chain `h` ends at position `k` from now on, where `rem` bytes stay. */
  ghost function Cut(m: Memory, z: Addr, rem: nat, data: seq<byte>): Memory
    requires z in m
  {
    m[z := m[z].(len := rem, totLen := rem, data := data, next := None)]
  }

  ghost predicate CutReady(m0: Memory, m: Memory, b: Book, h: Addr, k: nat, len: nat, rem: nat, data: seq<byte>) {
    && Shrinking(m0, m, b, h, k, len, rem)
    && b.chains[h][k] in m && rem <= m[b.chains[h][k]].len <= |m[b.chains[h][k]].data|
    && rem <= |data| <= |m[b.chains[h][k]].data| && data[..rem] == m[b.chains[h][k]].data[..rem]
  }

  ghost function CutBook(b: Book, h: Addr, k: nat): Book
    requires h in b.chains
  {
    if k + 1 < |b.chains[h]| then SplitBook(b, h, k) else b
  }

  lemma {:induction false} CutCounted(m0: Memory, m: Memory, b: Book, h: Addr, k: nat, len: nat, rem: nat, data: seq<byte>)
    requires CutReady(m0, m, b, h, k, len, rem, data)
    ensures Counted(Cut(m, b.chains[h][k], rem, data), CutBook(b, h, k), Head(b.chains[h], k + 1))
  {
    var l := b.chains[h];
    var z := l[k];
    ShrinkReads(m0, m, b, h, k, len, rem, z);
    var n := m[z := m[z].(len := rem, totLen := rem, data := data)];
    forall a | a in m0 ensures LinkKept(m0, n, a) {
      assert ShiftedAt(m0, m, b, h, k, len - m0[h].totLen, a);
      NextPlace(m0, b, None, a);
    }
    SameLinksCounted(m0, n, b, None);
    if k + 1 < |l| {
      SplitCounted(n, b, h, k);
      assert n[z := n[z].(next := None)] == Cut(m, z, rem, data);
    } else {
      assert n == Cut(m, z, rem, data);
    }
  }

  /** The cached lengths up to the cut do not wrap when they are lowered. */
  lemma {:induction false} LoweredInRange(m0: Memory, b: Book, h: Addr, k: nat, len: nat, rem: nat, i: nat)
    requires Counted(m0, b, None) && AllTotals(m0) && h in b.chains && h in m0 && i <= k < |b.chains[h]|
    requires |Flat(m0, b.chains[h][..k])| + rem == len && len <= m0[h].totLen
    ensures var a := b.chains[h][i]; a in m0 && 0 <= m0[a].totLen + (len - m0[h].totLen) < 0x1_0000
  {
    var l := b.chains[h];
    TotalFrom(m0, b, h, i);
    assert GoodTotal(m0, l[i]);
    assert l[..k] == l[..i] + l[i..k];
    FlatConcat(m0, l[..i], l[i..k]);
  }

  lemma {:induction false} CutTotal(m0: Memory, m: Memory, b: Book, h: Addr, k: nat, len: nat, rem: nat, data: seq<byte>, a: Addr)
    requires CutReady(m0, m, b, h, k, len, rem, data) && a in m
    ensures GoodTotal(Cut(m, b.chains[h][k], rem, data), a)
  {
    var z, d := b.chains[h][k], len - m0[h].totLen;
    ShrinkReads(m0, m, b, h, k, len, rem, z);
    NextPlace(m0, b, None, a);
    assert ChainOk(m0, b, h) && MemberOk(b, h, b.chains[h], k);
    assert GoodTotal(m0, a) && ShiftedAt(m0, m, b, h, k, d, a) && PlaceOk(b, a);
    if b.place[a].0 == h && b.place[a].1 < k {
      LoweredInRange(m0, b, h, k, len, rem, b.place[a].1);
      LoweredInRange(m0, b, h, k, len, rem, b.place[a].1 + 1);
    }
    if m0[a].next.Some? && a != z {
      var x := m0[a].next.value;
      assert ShiftedAt(m0, m, b, h, k, d, x) && PlaceOk(b, x);
    }
  }

  /** A buffer behind or beside the cut is as before. */
  lemma {:induction false} CutKeeps(m0: Memory, m: Memory, b: Book, h: Addr, k: nat, len: nat, rem: nat, data: seq<byte>, a: Addr)
    requires CutReady(m0, m, b, h, k, len, rem, data) && a in m && PlaceOk(b, a)
    requires b.place[a].0 == h ==> b.place[a].1 > k
    ensures a in m0 && Cut(m, b.chains[h][k], rem, data)[a] == m0[a]
    ensures SameFrom(b, CutBook(b, h, k), a)
    ensures SamePacket(m0, Cut(m, b.chains[h][k], rem, data), b, CutBook(b, h, k), a)
  {
    var n, c := Cut(m, b.chains[h][k], rem, data), CutBook(b, h, k);
    assert ShiftedAt(m0, m, b, h, k, len - m0[h].totLen, a);
    assert ChainOk(m0, b, h) && MemberOk(b, h, b.chains[h], k);
    assert PlaceOk(b, a);
    if b.place[a].0 == h {
      SplitFrom(m0, b, h, k, a);
    } else if k + 1 < |b.chains[h]| {
      SplitFrom(m0, b, h, k, a);
    }
    var s := From(b, a);
    forall i | 0 <= i < |s| ensures s[i] in m0 && s[i] in n && Bytes(m0[s[i]]) == Bytes(n[s[i]]) {
      FromMember(m0, b, None, a, i);
      assert ShiftedAt(m0, m, b, h, k, len - m0[h].totLen, s[i]);
      var g := b.place[a].0;
      assert ChainOk(m0, b, g) && MemberOk(b, g, b.chains[g], b.place[a].1 + i);
    }
    FlatFrame(m0, n, s);
  }

  lemma {:induction false} CutHead(m0: Memory, b: Book, h: Addr, k: nat)
    requires Counted(m0, b, None) && AllTotals(m0) && h in b.chains && k < |b.chains[h]|
    ensures PlaceOk(CutBook(b, h, k), h) && From(CutBook(b, h, k), h) == b.chains[h][..k + 1]
  {
    HeadOfChain(m0, b, h);
    if k + 1 < |b.chains[h]| {
      OthersDiffer(b.chains[h], k + 1);
    } else {
      assert b.chains[h][..k + 1] == b.chains[h];
    }
  }

  /** What is left of the chain is the wanted prefix. */
  lemma {:induction false} CutPrefix(m0: Memory, m: Memory, b: Book, h: Addr, k: nat, len: nat, rem: nat, data: seq<byte>)
    requires CutReady(m0, m, b, h, k, len, rem, data)
    ensures len <= |Flat(m0, b.chains[h])|
    ensures Flat(Cut(m, b.chains[h][k], rem, data), b.chains[h][..k + 1]) == Flat(m0, b.chains[h])[..len]
  {
    var l, z := b.chains[h], b.chains[h][k];
    var n := Cut(m, z, rem, data);
    HeadOfChain(m0, b, h);
    ShrinkReads(m0, m, b, h, k, len, rem, z);
    CutFrame(m0, m, b, h, k, len, rem, data);
    var s := l[..k + 1];
    assert s[..k] == l[..k] && s[k + 1..] == [] && s[..k + 1] == s;
    FlatAt(n, s, k);
    FlatAt(m0, l, k);
    PrefixOf(Flat(m0, l[..k]), Bytes(m0[z]), Flat(m0, l[k + 1..]), rem);
    assert Bytes(n[z]) == Bytes(m0[z])[..rem];
  }

  lemma {:induction false} PrefixOf(A: seq<byte>, B: seq<byte>, C: seq<byte>, rem: nat)
    requires rem <= |B|
    ensures (A + B + C)[..|A| + rem] == A + B[..rem]
  {
  }

  lemma {:induction false} CutFrame(m0: Memory, m: Memory, b: Book, h: Addr, k: nat, len: nat, rem: nat, data: seq<byte>)
    requires CutReady(m0, m, b, h, k, len, rem, data)
    ensures Flat(Cut(m, b.chains[h][k], rem, data), b.chains[h][..k]) == Flat(m0, b.chains[h][..k])
  {
    var l := b.chains[h];
    var n := Cut(m, l[k], rem, data);
    HeadOfChain(m0, b, h);
    OthersDiffer(l, k);
    forall i | 0 <= i < k ensures l[i] in m0 && l[i] in n && Bytes(m0[l[i]]) == Bytes(n[l[i]]) {
      assert Links(m0, l, i) && ShiftedAt(m0, m, b, h, k, len - m0[h].totLen, l[i]);
    }
    FlatFrame(m0, n, l[..k]);
  }

  /** The whole effect of shortening the chain `h` to its first `len` bytes, which end in its buffer
      `k`: later buffers go as long as the chain held their only reference, and no other packet is
      disturbed. */
  ghost predicate Shortened(m0: Memory, m: Memory, b0: Book, b: Book, h: Addr, k: nat, len: nat) {
    && Counted(m, b, None) && AllTotals(m) && h in b0.chains && k < |b0.chains[h]|
    && PlaceOk(b, h) && IsHead(b, h) && From(b, h) == b0.chains[h][..k + 1] && h in b.held && h in b0.held && b.held[h] == b0.held[h]
    && len <= |Flat(m0, b0.chains[h])| && Flat(m, b0.chains[h][..k + 1]) == Flat(m0, b0.chains[h])[..len]
    && (forall a {:trigger Kept(m0, m, b0, b, h, k, a)} :: Kept(m0, m, b0, b, h, k, a))
  }

  /** The buffers that the shortened chain no longer needs: those up to the first one behind the cut that
      somebody else refers to as well. */
  ghost predicate Kept(m0: Memory, m: Memory, b0: Book, b: Book, h: Addr, k: nat, a: Addr)
    requires h in b0.chains && k < |b0.chains[h]|
  {
    var tail := b0.chains[h][k + 1..];
    && (a in m <==> a in m0 && a !in tail[..FreeCount(m0, tail)])
    && (a in m && !(a in b0.chains[h][..k + 1]) ==> SamePacket(m0, m, b0, b, a))
  }

  lemma {:induction false} FreeCountFrame(m: Memory, n: Memory, l: seq<Addr>)
    requires forall i :: 0 <= i < |l| ==> l[i] in m && l[i] in n && n[l[i]].ref == m[l[i]].ref
    ensures FreeCount(n, l) == FreeCount(m, l)
  {
  }

  /** Counts behind the cut are as before, so the same buffers go. */
  lemma {:induction false} CutTail(m0: Memory, m: Memory, b: Book, h: Addr, k: nat, len: nat, rem: nat, data: seq<byte>)
    requires CutReady(m0, m, b, h, k, len, rem, data) && k + 1 < |b.chains[h]|
    ensures var l := b.chains[h];
      && PlaceOk(CutBook(b, h, k), l[k + 1]) && From(CutBook(b, h, k), l[k + 1]) == l[k + 1..]
      && FreeCount(Cut(m, l[k], rem, data), l[k + 1..]) == FreeCount(m0, l[k + 1..])
  {
    var l := b.chains[h];
    var tail := l[k + 1..];
    HeadOfChain(m0, b, h);
    assert ChainOk(m0, b, h);
    forall i | 0 <= i < |tail|
      ensures tail[i] in m0 && tail[i] in Cut(m, l[k], rem, data) && Cut(m, l[k], rem, data)[tail[i]].ref == m0[tail[i]].ref
      ensures i == 0 ==> PlaceOk(CutBook(b, h, k), l[k + 1]) && From(CutBook(b, h, k), l[k + 1]) == tail
    {
      assert Links(m0, l, k + 1 + i) && MemberOk(b, h, l, k + 1 + i);
      CutKeeps(m0, m, b, h, k, len, rem, data, tail[i]);
    }
    assert tail[0] == l[k + 1];
    FreeCountFrame(m0, Cut(m, l[k], rem, data), tail);
  }

  /** The rest of the chain after the cut has been released, if there is any. */
  ghost predicate TailReleased(n: Memory, m: Memory, c: Book, b: Book, rest: Option<Addr>) {
    if rest.Some? then Counted(n, c, rest) && PlaceOk(c, rest.value) && Released(n, m, c, b, From(c, rest.value))
    else Counted(n, c, None) && m == n && b == c
  }

  lemma {:induction false} ReleasedKeeps(n: Memory, m: Memory, c: Book, b: Book, rest: Option<Addr>, a: Addr)
    requires TailReleased(n, m, c, b, rest)
    ensures a in m ==> SamePacket(n, m, c, b, a) && SameFrom(c, b, a) && (GoodTotal(n, a) ==> GoodTotal(m, a))
    ensures a in m && (rest.Some? ==> a !in From(c, rest.value)) ==> m[a] == n[a]
    ensures if rest.Some? then (a in m <==> a in n && a !in From(c, rest.value)[..FreeCount(n, From(c, rest.value))])
            else (a in m <==> a in n)
  {
    if rest.Some? {
      var l := From(c, rest.value);
      assert Left(n, m, l, FreeCount(n, l), a);
      if a in m {
        assert SameFrom(c, b, a);
        ReleaseDisturbsNothing(n, m, c, b, rest.value, a);
      }
    } else if a in m {
      assert PlaceOk(c, a) && RefOk(n, c, a, None);
    }
  }

  lemma {:induction false} ShortenKept(m0: Memory, m: Memory, b: Book, h: Addr, k: nat, len: nat, rem: nat, data: seq<byte>,
                                       m': Memory, b': Book, a: Addr)
    requires CutReady(m0, m, b, h, k, len, rem, data)
    requires TailReleased(Cut(m, b.chains[h][k], rem, data), m', CutBook(b, h, k), b', Head(b.chains[h], k + 1))
    ensures Kept(m0, m', b, b', h, k, a) && (a in m' ==> GoodTotal(m', a))
  {
    var l := b.chains[h];
    var n, c := Cut(m, l[k], rem, data), CutBook(b, h, k);
    ReleasedKeeps(n, m', c, b', Head(l, k + 1), a);
    if k + 1 < |l| {
      CutTail(m0, m, b, h, k, len, rem, data);
    }
    if a in m' {
      CutTotal(m0, m, b, h, k, len, rem, data, a);
      assert PlaceOk(b, a);
      if a !in l[..k + 1] {
        CutKeeps(m0, m, b, h, k, len, rem, data, a);
      }
    }
  }

  /** The shortened chain itself survives as it was cut. */
  lemma {:induction false} HeadSurvives(m0: Memory, m: Memory, b: Book, h: Addr, k: nat, len: nat, rem: nat, data: seq<byte>,
                                        m': Memory, b': Book)
    requires CutReady(m0, m, b, h, k, len, rem, data)
    requires TailReleased(Cut(m, b.chains[h][k], rem, data), m', CutBook(b, h, k), b', Head(b.chains[h], k + 1))
    ensures h in m0 && h in m' && m'[h].ref == m0[h].ref
    ensures var c := CutBook(b, h, k); SamePacket(Cut(m, b.chains[h][k], rem, data), m', c, b', h) && SameFrom(c, b', h)
  {
    var l := b.chains[h];
    var n, c := Cut(m, l[k], rem, data), CutBook(b, h, k);
    HeadOfChain(m0, b, h);
    ReleasedKeeps(n, m', c, b', Head(l, k + 1), h);
    assert ShiftedAt(m0, m, b, h, k, len - m0[h].totLen, h);
    if k + 1 < |l| {
      CutTail(m0, m, b, h, k, len, rem, data);
      var tail := l[k + 1..];
      forall i | 0 <= i < |tail| ensures tail[i] != h {
        assert Apart(l[0], l[k + 1 + i]);
      }
    }
  }

  lemma {:induction false} ShortenResult(m0: Memory, m: Memory, b: Book, h: Addr, k: nat, len: nat, rem: nat, data: seq<byte>,
                                         m': Memory, b': Book)
    requires CutReady(m0, m, b, h, k, len, rem, data)
    requires TailReleased(Cut(m, b.chains[h][k], rem, data), m', CutBook(b, h, k), b', Head(b.chains[h], k + 1))
    ensures Shortened(m0, m', b, b', h, k, len)
  {
    CutHead(m0, b, h, k);
    CutPrefix(m0, m, b, h, k, len, rem, data);
    HeadOfChain(m0, b, h);
    HeadSurvives(m0, m, b, h, k, len, rem, data, m', b');
    assert RefOk(m0, b, h, None) && RefOk(m', b', h, None);
    forall a ensures Kept(m0, m', b, b', h, k, a) && (a in m' ==> GoodTotal(m', a)) {
      ShortenKept(m0, m, b, h, k, len, rem, data, m', b', a);
    }
  }

  /** The walk of pbuf_realloc to the new last buffer, of which `rem` bytes stay. */
  method FindEnd(m0: Memory, p: Addr, len: nat, ghost b: Book) returns (m: Memory, q: Addr, rem: nat, ghost k: nat)
    requires Counted(m0, b, None) && AllTotals(m0) && p in b.chains && p in m0 && len < m0[p].totLen
    ensures Shrinking(m0, m, b, p, k, len, rem) && q == b.chains[p][k] && q in m && rem <= m[q].len <= |m[q].data|
    ensures k > 0 ==> rem > 0
  {
    var grow := len - m0[p].totLen;
    m, q, rem, k := m0, p, len, 0;
    HeadOfChain(m0, b, p);
    ShiftStarts(m0, b, p, grow);
    WalkEnds(m0, b.chains[p]);
    ShrinkReads(m0, m, b, p, k, len, rem, q);
    while rem > m[q].len
      invariant Shrinking(m0, m, b, p, k, len, rem) && q == b.chains[p][k] && q in m && m[q].len <= |m[q].data|
      invariant k > 0 ==> rem > 0
      decreases |b.chains[p]| - k
    {
      ShrinkReads(m0, m, b, p, k, len, rem, q);
      var next := m[q].next.value;
      rem := rem - m[q].len;
      m := m[q := m[q].(totLen := Add16(m[q].totLen, grow))];
      q := next;
      k := k + 1;
      ShrinkReads(m0, m, b, p, k, len, rem, q);
    }
  }
}
