/** Linking and cutting chains of packet buffers: pbuf_cat, pbuf_dechain and pbuf_realloc. */
module PbufLink {
  import opened Wrappers
  import opened PbufChain
  import opened PbufBook
  import opened PbufData

  /** The successor of a buffer stands next to it in the same chain. */
  lemma {:induction false} NextPlace(m: Memory, b: Book, surplus: Option<Addr>, a: Addr)
    requires Counted(m, b, surplus) && a in m
    ensures PlaceOk(b, a) && m[a].len <= |m[a].data|
    ensures m[a].next == None ==> b.place[a].1 + 1 == |b.chains[b.place[a].0]|
    ensures m[a].next.Some? ==> m[a].next.value in m && b.place[m[a].next.value] == (b.place[a].0, b.place[a].1 + 1)
  {
    assert PlaceOk(b, a);
    var h, i := b.place[a].0, b.place[a].1;
    assert ChainOk(m, b, h);
    assert Links(m, b.chains[h], i);
    if m[a].next.Some? {
      assert Links(m, b.chains[h], i + 1) && MemberOk(b, h, b.chains[h], i + 1);
    }
  }

  /** The first `i` buffers of the chain `h` have had their cached lengths changed by `d`. */
  ghost predicate Shifted(m0: Memory, m: Memory, b: Book, h: Addr, i: nat, d: int) {
    && m.Keys == m0.Keys && m.Keys == b.place.Keys
    && forall a {:trigger ShiftedAt(m0, m, b, h, i, d, a)} :: a in m ==> ShiftedAt(m0, m, b, h, i, d, a)
  }

  ghost predicate ShiftedAt(m0: Memory, m: Memory, b: Book, h: Addr, i: nat, d: int, a: Addr)
    requires m.Keys == m0.Keys && m.Keys == b.place.Keys && a in m
  {
    && m[a] == m0[a].(totLen := m[a].totLen)
    && m[a].totLen == if b.place[a].0 == h && b.place[a].1 < i then Add16(m0[a].totLen, d) else m0[a].totLen
  }

  /** Adding to a 16-bit field. */
  function Add16(x: nat, d: int): (r: nat)
    ensures r < 0x1_0000 && (0 <= x + d < 0x1_0000 ==> r == x + d)
  {
    (x + d) % 0x1_0000
  }

  lemma {:induction false} ShiftStarts(m: Memory, b: Book, h: Addr, d: int)
    requires Counted(m, b, None)
    ensures Shifted(m, m, b, h, 0, d)
  {
  }

  lemma {:induction false} ShiftStep(m0: Memory, m: Memory, b: Book, h: Addr, i: nat, d: int, a: Addr)
    requires Counted(m0, b, None) && Shifted(m0, m, b, h, i, d) && h in b.chains && i < |b.chains[h]| && a == b.chains[h][i]
    requires a in m0
    ensures a in m && m[a] == m0[a] && m[a].next == Head(b.chains[h], i + 1)
    ensures Shifted(m0, m[a := m[a].(totLen := Add16(m[a].totLen, d))], b, h, i + 1, d)
  {
    assert ChainOk(m0, b, h);
    assert Links(m0, b.chains[h], i) && MemberOk(b, h, b.chains[h], i);
    assert ShiftedAt(m0, m, b, h, i, d, a);
    var n := m[a := m[a].(totLen := Add16(m[a].totLen, d))];
    forall x | x in n ensures ShiftedAt(m0, n, b, h, i + 1, d, x) {
      assert ShiftedAt(m0, m, b, h, i, d, x) && PlaceOk(b, x);
    }
  }

  // ----- appending -----

  /** pbuf_cat has passed the first `i` buffers of the chain `h`. */
  ghost predicate Appending(m0: Memory, m: Memory, b: Book, h: Addr, t: Addr, i: nat) {
    && Counted(m0, b, None) && AllTotals(m0) && h in b.chains && t in b.chains && h != t
    && t in b.held && b.held[t] > 0
    && h in m0 && t in m0 && i < |b.chains[h]| && Shifted(m0, m, b, h, i, m0[t].totLen)
  }

  lemma {:induction false} HeadOfChain(m: Memory, b: Book, h: Addr)
    requires Counted(m, b, None) && AllTotals(m) && h in b.chains
    ensures IsChain(m, b.chains[h]) && Totals(m, b.chains[h]) && b.chains[h][0] == h && h in m
    ensures PlaceOk(b, h) && From(b, h) == b.chains[h] && b.place[h] == (h, 0)
    ensures m[h].totLen == |Flat(m, b.chains[h])|
  {
    var l := b.chains[h];
    assert ChainOk(m, b, h);
    assert Links(m, l, 0) && MemberOk(b, h, l, 0);
    forall i | 0 <= i < |l| ensures TotalAt(m, l[i]) {
      assert Links(m, l, i) && GoodTotal(m, l[i]);
    }
    TotalIsLength(m, l, 0);
    assert l[0..] == l;
    HeadChain(m, b, h, None);
  }

  /** Of the total length, what precedes buffer `i` does not belong to it. */
  lemma {:induction false} TotalFrom(m: Memory, b: Book, h: Addr, i: nat)
    requires Counted(m, b, None) && AllTotals(m) && h in b.chains && i < |b.chains[h]|
    ensures var l := b.chains[h];
      l[i] in m && h in m && m[l[i]].len <= |m[l[i]].data| && m[h].totLen == |Flat(m, l[..i])| + m[l[i]].totLen
  {
    var l := b.chains[h];
    HeadOfChain(m, b, h);
    TotalIsLength(m, l, i);
    assert Links(m, l, i);
    assert l == l[..i] + l[i..];
    FlatConcat(m, l[..i], l[i..]);
  }

  lemma {:induction false} AppendReads(m0: Memory, m: Memory, b: Book, h: Addr, t: Addr, i: nat)
    requires Appending(m0, m, b, h, t, i)
    ensures var a := b.chains[h][i]; a in m && m[a].next == Head(b.chains[h], i + 1)
    ensures t in m && m[t].totLen == m0[t].totLen
    ensures i + 1 < |b.chains[h]| ==>
      var a := b.chains[h][i]; Appending(m0, m[a := m[a].(totLen := Add16(m[a].totLen, m0[t].totLen))], b, h, t, i + 1)
  {
    var a := b.chains[h][i];
    TotalFrom(m0, b, h, i);
    HeadOfChain(m0, b, t);
    assert ShiftedAt(m0, m, b, h, i, m0[t].totLen, t);
    ShiftStep(m0, m, b, h, i, m0[t].totLen, a);
  }

  /** What appending the chain `t` to the chain `h` makes of the packet that starts at `a`. */
  ghost predicate Longer(m0: Memory, m: Memory, b0: Book, b: Book, h: Addr, t: Addr, a: Addr) {
    && PlaceOk(b0, a) && PlaceOk(b, a) && PlaceOk(b0, t)
    && Flat(m, From(b, a)) == Flat(m0, From(b0, a)) + (if b0.place[a].0 == h then Flat(m0, From(b0, t)) else [])
  }

  ghost predicate Grown(m0: Memory, m: Memory, b0: Book, b: Book, h: Addr, t: Addr, a: Addr) {
    && a in m0 && a in m && m[a] == m0[a].(totLen := m[a].totLen, next := m[a].next)
    && Longer(m0, m, b0, b, h, t, a)
  }

  /** The chain `t` is the end of the chain `h`. The cached lengths may be wrong. */
  ghost predicate Joined(m0: Memory, m: Memory, b0: Book, b: Book, h: Addr, t: Addr) {
    && Counted(m, b, None) && m.Keys == m0.Keys
    && h in b0.chains && t in b0.chains && t in b0.held && b0.held[t] > 0 && b == LinkBook(b0, h, t)
    && forall a {:trigger Grown(m0, m, b0, b, h, t, a)} :: a in m ==> Grown(m0, m, b0, b, h, t, a)
  }

  ghost predicate Appended(m0: Memory, m: Memory, b0: Book, b: Book, h: Addr, t: Addr) {
    Joined(m0, m, b0, b, h, t) && AllTotals(m)
  }

  /** The lengths of both chains add up in 16 bits. */
  ghost predicate SumFits(m: Memory, h: Addr, t: Addr) {
    h in m && t in m && m[h].totLen + m[t].totLen < 0x1_0000
  }

  lemma {:induction false} AppendEnds(m0: Memory, m: Memory, b0: Book, h: Addr, t: Addr, z: Addr)
    requires b0.chains.Keys != {} && h in b0.chains && b0.chains[h] != [] && z == Last(b0.chains[h])
    requires Appending(m0, m, b0, h, t, |b0.chains[h]| - 1) && z in m && t in m
    ensures var n := m[z := m[z].(totLen := Add16(m[z].totLen, m[t].totLen), next := Some(t))];
      Joined(m0, n, b0, LinkBook(b0, h, t), h, t) && (AllTotals(n) <==> SumFits(m0, h, t))
  {
    var k := |b0.chains[h]| - 1;
    var d := m0[t].totLen;
    TotalFrom(m0, b0, h, k);
    HeadOfChain(m0, b0, t);
    assert ShiftedAt(m0, m, b0, h, k, d, t);
    ShiftStep(m0, m, b0, h, k, d, z);
    var n := m[z := m[z].(totLen := Add16(m[z].totLen, d))];
    AppendLinks(m0, n, b0, h, t, z);
    assert m[z := m[z].(totLen := Add16(m[z].totLen, m[t].totLen), next := Some(t))] == n[z := n[z].(next := Some(t))];
  }

  /** All cached lengths of the chain `h` have been raised; only the link to `t` is missing. */
  ghost predicate Raised(m0: Memory, n: Memory, b0: Book, h: Addr, t: Addr) {
    && Counted(m0, b0, None) && AllTotals(m0) && h in b0.chains && t in b0.chains && h != t
    && t in b0.held && b0.held[t] > 0 && h in m0 && t in m0
    && b0.chains[h] != [] && Last(b0.chains[h]) in n && Shifted(m0, n, b0, h, |b0.chains[h]|, m0[t].totLen)
  }

  ghost function Linked(n: Memory, z: Addr, t: Addr): Memory
    requires z in n
  {
    n[z := n[z].(next := Some(t))]
  }

  lemma {:induction false} AppendLinks(m0: Memory, n: Memory, b0: Book, h: Addr, t: Addr, z: Addr)
    requires Raised(m0, n, b0, h, t) && z == Last(b0.chains[h])
    ensures var m := Linked(n, z, t);
      Joined(m0, m, b0, LinkBook(b0, h, t), h, t) && (AllTotals(m) <==> SumFits(m0, h, t))
  {
    var d, H := m0[t].totLen, b0.chains[h];
    forall a | a in m0 ensures LinkKept(m0, n, a) {
      assert ShiftedAt(m0, n, b0, h, |H|, d, a);
      NextPlace(m0, b0, None, a);
    }
    SameLinksCounted(m0, n, b0, None);
    LinkCounted(n, b0, h, t);
    var m, b := Linked(n, z, t), LinkBook(b0, h, t);
    forall a | a in m ensures SameBytes(m0, m, a) {
      assert ShiftedAt(m0, n, b0, h, |H|, d, a);
    }
    forall a | a in m ensures (SumFits(m0, h, t) ==> GoodTotal(m, a)) && Grown(m0, m, b0, b, h, t, a) {
      AppendTotal(m0, n, b0, h, t, a);
      AppendFlat(m0, m, b0, h, t, a);
    }
    SumMustFit(m0, m, b0, h, t);
  }

  /** When all cached lengths are right, then the sum fits: the first of them is the sum. */
  lemma {:induction false} SumMustFit(m0: Memory, m: Memory, b0: Book, h: Addr, t: Addr)
    requires Counted(m0, b0, None) && AllTotals(m0) && h in b0.chains && t in b0.chains && t in b0.held && b0.held[t] > 0
    requires Joined(m0, m, b0, LinkBook(b0, h, t), h, t) && h != t
    ensures AllTotals(m) ==> SumFits(m0, h, t)
  {
    if AllTotals(m) {
      var b := LinkBook(b0, h, t);
      HeadOfChain(m0, b0, h);
      HeadOfChain(m0, b0, t);
      HeadOfChain(m, b, h);
      assert Grown(m0, m, b0, b, h, t, h) && GoodTotal(m, h);
    }
  }

  lemma {:induction false} AppendTotal(m0: Memory, n: Memory, b0: Book, h: Addr, t: Addr, a: Addr)
    requires Raised(m0, n, b0, h, t) && a in n
    ensures var m := Linked(n, Last(b0.chains[h]), t);
      (SumFits(m0, h, t) ==> GoodTotal(m, a)) && m[a] == m0[a].(totLen := m[a].totLen, next := m[a].next)
  {
    var d, H := m0[t].totLen, b0.chains[h];
    var k := |H| - 1;
    HeadOfChain(m0, b0, t);
    TotalFrom(m0, b0, h, k);
    NextPlace(m0, b0, None, a);
    NextPlace(m0, b0, None, Last(H));
    assert ChainOk(m0, b0, h) && MemberOk(b0, h, H, k) && Links(m0, H, k);
    assert GoodTotal(m0, a) && ShiftedAt(m0, n, b0, h, |H|, d, a) && ShiftedAt(m0, n, b0, h, |H|, d, t);
    if b0.place[a].0 == h {
      TotalFrom(m0, b0, h, b0.place[a].1);
    }
    if m0[a].next.Some? {
      assert ShiftedAt(m0, n, b0, h, |H|, d, m0[a].next.value) && PlaceOk(b0, m0[a].next.value);
    }
  }

  ghost predicate SameBytes(m0: Memory, m: Memory, a: Addr) {
    a in m0 && a in m && Bytes(m[a]) == Bytes(m0[a])
  }

  lemma {:induction false} AppendFlat(m0: Memory, m: Memory, b0: Book, h: Addr, t: Addr, a: Addr)
    requires Counted(m0, b0, None) && h in b0.chains && t in b0.chains && h != t && t in b0.held && b0.held[t] > 0
    requires Counted(m, LinkBook(b0, h, t), None) && a in m && m.Keys == m0.Keys
    requires forall x {:trigger SameBytes(m0, m, x)} :: x in m ==> SameBytes(m0, m, x)
    ensures PlaceOk(b0, a) && PlaceOk(LinkBook(b0, h, t), a) && PlaceOk(b0, t)
    ensures Flat(m, From(LinkBook(b0, h, t), a)) == Flat(m0, From(b0, a)) + (if b0.place[a].0 == h then Flat(m0, From(b0, t)) else [])
  {
    var b := LinkBook(b0, h, t);
    assert PlaceOk(b0, a) && PlaceOk(b, a);
    assert ChainOk(m0, b0, t);
    assert Links(m0, b0.chains[t], 0) && MemberOk(b0, t, b0.chains[t], 0);
    var s := From(b, a);
    forall i | 0 <= i < |s| ensures s[i] in m && s[i] in m0 && Bytes(m[s[i]]) == Bytes(m0[s[i]]) {
      FromMember(m, b, None, a, i);
      assert SameBytes(m0, m, s[i]);
    }
    FlatFrame(m0, m, s);
    if b0.place[a].0 == h {
      assert s == From(b0, a) + From(b0, t);
      FlatConcat(m0, From(b0, a), From(b0, t));
    } else {
      assert s == From(b0, a);
    }
  }

  /** The loop of pbuf_cat. The bytes come right in any case, the cached lengths if and only if the sum fits 16
      bits. */
  method Append(m0: Memory, h: Addr, t: Addr, ghost b0: Book) returns (m: Memory)
    requires Counted(m0, b0, None) && AllTotals(m0) && h in b0.chains && t in b0.chains && h != t
    requires t in b0.held && b0.held[t] > 0
    requires h in m0 && t in m0
    ensures Joined(m0, m, b0, LinkBook(b0, h, t), h, t) && (AllTotals(m) <==> SumFits(m0, h, t))
  {
    m := m0;
    var p := h;
    ghost var i: nat := 0;
    HeadOfChain(m0, b0, h);
    ShiftStarts(m0, b0, h, m0[t].totLen);
    AppendReads(m0, m, b0, h, t, 0);
    while m[p].next != None
      invariant Appending(m0, m, b0, h, t, i) && p == b0.chains[h][i] && p in m && t in m
      invariant m[p].next == Head(b0.chains[h], i + 1)
      decreases |b0.chains[h]| - i
    {
      AppendReads(m0, m, b0, h, t, i);
      var n := m[p].next.value;
      m := m[p := m[p].(totLen := Add16(m[p].totLen, m[t].totLen))];
      p := n;
      i := i + 1;
      AppendReads(m0, m, b0, h, t, i);
    }
    AppendEnds(m0, m, b0, h, t, p);
    m := m[p := m[p].(totLen := Add16(m[p].totLen, m[t].totLen), next := Some(t))];
  }
}
