/** The bookkeeping behind reference counts: which chains there are, who holds each buffer, and how
    the elementary changes of links and counts keep both in agreement. */
module PbufBook {
  import opened Wrappers
  import opened PbufChain

  /** `held` counts the references that callers hold to each buffer, `chains` lists the chains by
      their first buffer, and `place` gives each buffer's chain and position. */
  datatype Book = Book(held: map<Addr, nat>, chains: map<Addr, seq<Addr>>, place: map<Addr, (Addr, nat)>)

  ghost predicate PlaceOk(b: Book, a: Addr) {
    && a in b.place && b.place[a].0 in b.chains
    && b.place[a].1 < |b.chains[b.place[a].0]| && b.chains[b.place[a].0][b.place[a].1] == a
  }

  ghost predicate MemberOk(b: Book, h: Addr, l: seq<Addr>, i: nat)
    requires i < |l|
  {
    l[i] in b.place && b.place[l[i]] == (h, i)
  }

  ghost predicate ChainOk(m: Memory, b: Book, h: Addr) {
    && h in b.chains && IsChain(m, b.chains[h]) && b.chains[h][0] == h
    && forall i {:trigger MemberOk(b, h, b.chains[h], i)} :: 0 <= i < |b.chains[h]| ==> MemberOk(b, h, b.chains[h], i)
  }

  /** The references to a buffer: its holders, the link to it if it is not the first of its chain,
      and one more if somebody is about to give that one up. */
  ghost predicate RefOk(m: Memory, b: Book, a: Addr, surplus: Option<Addr>) {
    && a in m && a in b.held && a in b.place
    && m[a].ref == b.held[a] + (if b.place[a].1 == 0 then 0 else 1) + (if surplus == Some(a) then 1 else 0)
    && m[a].ref > 0
  }

  /** Every buffer belongs to exactly one chain, and its reference count is the number of its
      references. */
  ghost predicate Counted(m: Memory, b: Book, surplus: Option<Addr>) {
    && b.held.Keys == m.Keys && b.place.Keys == m.Keys
    && (surplus.Some? ==> surplus.value in m)
    && (forall h {:trigger ChainOk(m, b, h)} :: h in b.chains ==> ChainOk(m, b, h))
    && (forall a {:trigger PlaceOk(b, a)} :: a in m ==> PlaceOk(b, a))
    && (forall a {:trigger RefOk(m, b, a, surplus)} :: a in m ==> RefOk(m, b, a, surplus))
  }

  /** The chain from buffer `a` on. */
  ghost function From(b: Book, a: Addr): seq<Addr>
    requires PlaceOk(b, a)
  {
    b.chains[b.place[a].0][b.place[a].1..]
  }

  /** Buffer `a` is the first of its chain. */
  ghost predicate IsHead(b: Book, a: Addr) {
    a in b.place && b.place[a].1 == 0
  }

  lemma {:induction false} HeadChain(m: Memory, b: Book, a: Addr, surplus: Option<Addr>)
    requires Counted(m, b, surplus) && a in m && IsHead(b, a)
    ensures a in b.chains && b.place[a] == (a, 0) && ChainOk(m, b, a) && PlaceOk(b, a) && From(b, a) == b.chains[a]
  {
    assert PlaceOk(b, a);
    assert ChainOk(m, b, b.place[a].0);
    assert From(b, a) == b.chains[a];
  }

  /** Buffers of different chains differ. */
  lemma {:induction false} ChainsApart(m: Memory, b: Book, surplus: Option<Addr>, g: Addr, h: Addr, i: nat, j: nat)
    requires Counted(m, b, surplus) && g in b.chains && h in b.chains && i < |b.chains[g]| && j < |b.chains[h]|
    ensures b.chains[g][i] == b.chains[h][j] ==> g == h && i == j
  {
    assert ChainOk(m, b, g) && ChainOk(m, b, h);
    assert MemberOk(b, g, b.chains[g], i) && MemberOk(b, h, b.chains[h], j);
  }

  /** Nothing links to the first buffer of a chain. */
  lemma {:induction false} NoLinkToHead(m: Memory, b: Book, surplus: Option<Addr>, x: Addr)
    requires Counted(m, b, surplus) && x in m && m[x].next.Some?
    ensures m[x].next.value in m && !IsHead(b, m[x].next.value)
  {
    assert PlaceOk(b, x);
    var h, i := b.place[x].0, b.place[x].1;
    assert ChainOk(m, b, h);
    assert Links(m, b.chains[h], i);
    assert Links(m, b.chains[h], i + 1) && MemberOk(b, h, b.chains[h], i + 1);
  }

  /** The chain from a buffer on, and the number of its holders, are what they were. */
  ghost predicate SameFrom(b: Book, c: Book, a: Addr) {
    && PlaceOk(b, a) && PlaceOk(c, a) && From(c, a) == From(b, a)
    && a in b.held && a in c.held && c.held[a] == b.held[a]
  }

  // ----- contents -----

  /** The same buffers, links and counts. */
  ghost predicate SameLinks(m: Memory, n: Memory) {
    && n.Keys == m.Keys
    && forall a {:trigger LinkKept(m, n, a)} :: a in m ==> LinkKept(m, n, a)
  }

  ghost predicate LinkKept(m: Memory, n: Memory, a: Addr) {
    a in m && a in n && n[a].next == m[a].next && n[a].ref == m[a].ref && n[a].len <= |n[a].data|
  }

  lemma {:induction false} SameLinksCounted(m: Memory, n: Memory, b: Book, surplus: Option<Addr>)
    requires Counted(m, b, surplus) && SameLinks(m, n)
    ensures Counted(n, b, surplus)
  {
    forall h | h in b.chains ensures ChainOk(n, b, h) {
      assert ChainOk(m, b, h);
      var l := b.chains[h];
      forall i | 0 <= i < |l| ensures Links(n, l, i) {
        assert Links(m, l, i) && LinkKept(m, n, l[i]);
      }
      forall i | 0 <= i < |l| ensures MemberOk(b, h, l, i) {
      }
    }
    forall a | a in n ensures PlaceOk(b, a) && RefOk(n, b, a, surplus) {
      assert PlaceOk(b, a) && RefOk(m, b, a, surplus) && LinkKept(m, n, a);
    }
  }

  // ----- a new buffer -----

  ghost function AddBook(b: Book, a: Addr): Book {
    Book(b.held[a := 1], b.chains[a := [a]], b.place[a := (a, 0)])
  }

  /** A fresh buffer is a chain of its own, held once. */
  lemma {:induction false} AddCounted(m: Memory, b: Book, a: Addr, x: Pbuf)
    requires Counted(m, b, None) && a !in m && x.next == None && x.ref == 1 && x.len <= |x.data|
    ensures Counted(m[a := x], AddBook(b, a), None)
  {
    var n, c := m[a := x], AddBook(b, a);
    forall h | h in c.chains ensures ChainOk(n, c, h) {
      if h != a {
        assert ChainOk(m, b, h);
        forall i | 0 <= i < |b.chains[h]| ensures MemberKept(m, n, b, c, b.chains[h][i]) {
          assert Links(m, b.chains[h], i);
        }
        ChainKept(m, n, b, c, h);
      } else {
        assert Links(n, [a], 0) && MemberOk(c, a, [a], 0);
      }
    }
    forall y | y in n ensures PlaceOk(c, y) && RefOk(n, c, y, None) {
      if y != a {
        assert PlaceOk(b, y) && RefOk(m, b, y, None);
        assert ChainOk(m, b, b.place[y].0);
        assert Links(m, b.chains[b.place[y].0], 0);
      }
    }
  }

  /** A chain that no change touches stays a chain. */
  lemma {:induction false} ChainKept(m: Memory, n: Memory, b: Book, c: Book, h: Addr)
    requires ChainOk(m, b, h) && h in c.chains && c.chains[h] == b.chains[h]
    requires forall i :: 0 <= i < |b.chains[h]| ==> MemberKept(m, n, b, c, b.chains[h][i])
    ensures ChainOk(n, c, h)
  {
    var l := b.chains[h];
    forall i | 0 <= i < |l| ensures Links(n, l, i) && MemberOk(c, h, l, i) {
      assert Links(m, l, i) && MemberOk(b, h, l, i) && MemberKept(m, n, b, c, l[i]);
    }
  }

  ghost predicate MemberKept(m: Memory, n: Memory, b: Book, c: Book, a: Addr) {
    a in m && a in b.place ==>
      a in n && n[a].next == m[a].next && n[a].len <= |n[a].data| && a in c.place && c.place[a] == b.place[a]
  }

  // ----- linking two chains -----

  ghost function Last(l: seq<Addr>): Addr
    requires l != []
  {
    l[|l| - 1]
  }

  /** The holder of `t` hands its reference over to the link from the end of chain `h`. */
  ghost function LinkBook(b: Book, h: Addr, t: Addr): Book
    requires h in b.chains && t in b.chains && t in b.held && b.held[t] > 0
  {
    var n := |b.chains[h]|;
    Book(b.held[t := b.held[t] - 1],
         (map x | x in b.chains && x != t :: if x == h then b.chains[h] + b.chains[t] else b.chains[x]),
         (map a | a in b.place :: if b.place[a].0 == t then (h, n + b.place[a].1) else b.place[a]))
  }

  lemma {:induction false} LinkCounted(m: Memory, b: Book, h: Addr, t: Addr)
    requires Counted(m, b, None) && h in b.chains && t in b.chains && h != t && t in b.held && b.held[t] > 0
    ensures b.chains[h] != [] && Last(b.chains[h]) in m
    ensures var z := Last(b.chains[h]); Counted(m[z := m[z].(next := Some(t))], LinkBook(b, h, t), None)
  {
    var H, T := b.chains[h], b.chains[t];
    assert ChainOk(m, b, h) && ChainOk(m, b, t);
    var z := Last(H);
    assert Links(m, H, |H| - 1);
    var n, c := m[z := m[z].(next := Some(t))], LinkBook(b, h, t);
    forall g | g in c.chains ensures ChainOk(n, c, g) {
      assert ChainOk(m, b, g);
      if g == h {
        LinkedChain(m, b, h, t);
      } else {
        forall i | 0 <= i < |b.chains[g]| ensures MemberKept(m, n, b, c, b.chains[g][i]) {
          assert Links(m, b.chains[g], i) && MemberOk(b, g, b.chains[g], i);
          ChainsApart(m, b, None, g, h, i, |H| - 1);
        }
        ChainKept(m, n, b, c, g);
      }
    }
    forall y | y in n ensures PlaceOk(c, y) && RefOk(n, c, y, None) {
      assert PlaceOk(b, y) && RefOk(m, b, y, None) && MemberOk(b, t, T, 0);
      HeadPlace(m, b, None, y);
    }
  }

  /** The first place of a chain belongs to the buffer that names the chain. */
  lemma {:induction false} HeadPlace(m: Memory, b: Book, surplus: Option<Addr>, y: Addr)
    requires Counted(m, b, surplus) && y in m
    ensures y in b.place && b.place[y].0 in b.chains && (b.place[y].1 == 0 <==> y == b.place[y].0)
  {
    assert PlaceOk(b, y);
    var h := b.place[y].0;
    assert ChainOk(m, b, h) && MemberOk(b, h, b.chains[h], 0);
  }

  lemma {:induction false} LinkedChain(m: Memory, b: Book, h: Addr, t: Addr)
    requires Counted(m, b, None) && h in b.chains && t in b.chains && h != t && t in b.held && b.held[t] > 0
    ensures b.chains[h] != [] && Last(b.chains[h]) in m
    ensures var z := Last(b.chains[h]); ChainOk(m[z := m[z].(next := Some(t))], LinkBook(b, h, t), h)
  {
    var H, T := b.chains[h], b.chains[t];
    assert ChainOk(m, b, h) && ChainOk(m, b, t);
    assert Links(m, H, |H| - 1);
    var z := Last(H);
    var n, c := m[z := m[z].(next := Some(t))], LinkBook(b, h, t);
    var l := H + T;
    forall i | 0 <= i < |l| ensures Links(n, l, i) && MemberOk(c, h, l, i) {
      if i < |H| {
        assert Links(m, H, i) && MemberOk(b, h, H, i);
        if i != |H| - 1 {
          ChainsApart(m, b, None, h, h, i, |H| - 1);
        }
      } else {
        assert Links(m, T, i - |H|) && MemberOk(b, t, T, i - |H|);
        ChainsApart(m, b, None, t, h, i - |H|, |H| - 1);
      }
    }
    forall i, j | 0 <= i < j < |l| ensures Apart(l[i], l[j]) {
      assert l[i] == if i < |H| then H[i] else T[i - |H|];
      assert l[j] == if j < |H| then H[j] else T[j - |H|];
      ChainsApart(m, b, None, if i < |H| then h else t, if j < |H| then h else t,
                  if i < |H| then i else i - |H|, if j < |H| then j else j - |H|);
    }
  }

  // ----- cutting a chain in two -----

  /** Chain `h` ends after position `k`; what followed becomes a chain of its own. */
  ghost function SplitBook(b: Book, h: Addr, k: nat): Book
    requires h in b.chains && k + 1 < |b.chains[h]|
  {
    var l := b.chains[h];
    Book(b.held,
         b.chains[h := l[..k + 1]][l[k + 1] := l[k + 1..]],
         (map a | a in b.place :: if b.place[a].0 == h && b.place[a].1 > k then (l[k + 1], b.place[a].1 - (k + 1)) else b.place[a]))
  }

  /** After the cut the reference of the removed link is one too many. */
  lemma {:induction false} SplitCounted(m: Memory, b: Book, h: Addr, k: nat)
    requires Counted(m, b, None) && h in b.chains && k + 1 < |b.chains[h]|
    ensures var l := b.chains[h];
      l[k] in m && Counted(m[l[k] := m[l[k]].(next := None)], SplitBook(b, h, k), Some(l[k + 1]))
  {
    var l := b.chains[h];
    var q := l[k + 1];
    TailIsNoHead(m, b, h, k);
    var n, c := m[l[k] := m[l[k]].(next := None)], SplitBook(b, h, k);
    forall g | g in c.chains ensures ChainOk(n, c, g) {
      if g == h || g == q {
        SplitChain(m, b, h, k, g);
      } else {
        SplitOther(m, b, h, k, g);
      }
    }
    forall y | y in n ensures PlaceOk(c, y) && RefOk(n, c, y, Some(q)) {
      SplitPlace(m, b, h, k, y);
    }
  }

  lemma {:induction false} TailIsNoHead(m: Memory, b: Book, h: Addr, k: nat)
    requires Counted(m, b, None) && h in b.chains && k + 1 < |b.chains[h]|
    ensures var l := b.chains[h]; l[k] in m && l[k + 1] in m && l[k + 1] !in b.chains && l[k + 1] != h
  {
    var l := b.chains[h];
    assert ChainOk(m, b, h);
    assert Links(m, l, k) && Links(m, l, k + 1) && MemberOk(b, h, l, k + 1);
    FirstPlace(m, b, h);
    FirstPlace(m, b, l[k + 1]);
  }

  /** The first buffer of a chain is at its beginning. */
  lemma {:induction false} FirstPlace(m: Memory, b: Book, g: Addr)
    requires Counted(m, b, None)
    ensures g in b.chains ==> g in b.place && b.place[g] == (g, 0)
  {
    if g in b.chains {
      assert ChainOk(m, b, g);
      assert MemberOk(b, g, b.chains[g], 0);
    }
  }

  /** The other chains are not touched. */
  lemma {:induction false} SplitOther(m: Memory, b: Book, h: Addr, k: nat, g: Addr)
    requires Counted(m, b, None) && h in b.chains && k + 1 < |b.chains[h]| && g in b.chains && g != h
    requires b.chains[h][k + 1] !in b.chains && b.chains[h][k] in m
    ensures var l := b.chains[h]; ChainOk(m[l[k] := m[l[k]].(next := None)], SplitBook(b, h, k), g)
  {
    var l := b.chains[h];
    var n, c := m[l[k] := m[l[k]].(next := None)], SplitBook(b, h, k);
    assert ChainOk(m, b, g);
    forall i | 0 <= i < |b.chains[g]| ensures MemberKept(m, n, b, c, b.chains[g][i]) {
      assert Links(m, b.chains[g], i) && MemberOk(b, g, b.chains[g], i);
      ChainsApart(m, b, None, g, h, i, k);
    }
    ChainKept(m, n, b, c, g);
  }

  /** Where a buffer is, and its references, after the cut. */
  lemma {:induction false} SplitPlace(m: Memory, b: Book, h: Addr, k: nat, y: Addr)
    requires Counted(m, b, None) && h in b.chains && k + 1 < |b.chains[h]| && y in m && b.chains[h][k] in m
    requires b.chains[h][k + 1] in m && b.chains[h][k + 1] !in b.chains && b.chains[h][k + 1] != h
    ensures var l := b.chains[h]; var n, c := m[l[k] := m[l[k]].(next := None)], SplitBook(b, h, k);
      PlaceOk(c, y) && RefOk(n, c, y, Some(l[k + 1]))
  {
    var q := b.chains[h][k + 1];
    assert ChainOk(m, b, h) && MemberOk(b, h, b.chains[h], k + 1);
    assert PlaceOk(b, y) && RefOk(m, b, y, None);
    if b.place[y].0 == h && y == q {
      ChainsApart(m, b, None, h, h, b.place[y].1, k + 1);
    }
  }

  lemma {:induction false} SplitChain(m: Memory, b: Book, h: Addr, k: nat, g: Addr)
    requires Counted(m, b, None) && h in b.chains && k + 1 < |b.chains[h]| && (g == h || g == b.chains[h][k + 1])
    requires b.chains[h][k + 1] != h && b.chains[h][k] in m
    ensures var l := b.chains[h]; ChainOk(m[l[k] := m[l[k]].(next := None)], SplitBook(b, h, k), g)
  {
    var l := b.chains[h];
    assert ChainOk(m, b, h);
    var n, c := m[l[k] := m[l[k]].(next := None)], SplitBook(b, h, k);
    var at := if g == h then 0 else k + 1;
    var s := c.chains[g];
    assert forall i :: 0 <= i < |s| ==> s[i] == l[at + i];
    forall i | 0 <= i < |s| ensures Links(n, s, i) && MemberOk(c, g, s, i) {
      assert Links(m, l, at + i) && MemberOk(b, h, l, at + i);
      if at + i != k {
        ChainsApart(m, b, None, h, h, at + i, k);
      }
    }
    forall i, j | 0 <= i < j < |s| ensures Apart(s[i], s[j]) {
      assert Apart(l[at + i], l[at + j]);
    }
  }

  /** Where each buffer's chain continues is unaffected by cutting in front of it. */
  lemma {:induction false} SplitFrom(m: Memory, b: Book, h: Addr, k: nat, a: Addr)
    requires Counted(m, b, None) && h in b.chains && k + 1 < |b.chains[h]| && PlaceOk(b, a)
    requires a in m && (b.place[a].0 == h ==> b.place[a].1 > k)
    ensures SameFrom(b, SplitBook(b, h, k), a)
  {
    SplitCounted(m, b, h, k);
    assert PlaceOk(SplitBook(b, h, k), a);
    var g := b.place[a].0;
    if g != h {
      assert ChainOk(m, b, g) && ChainOk(m, b, h);
      ChainsApart(m, b, None, g, h, 0, k + 1);
    }
  }

  // ----- removing a buffer -----

  ghost function RemoveBook(b: Book, p: Addr): Book {
    Book(b.held - {p}, b.chains - {p}, b.place - {p})
  }

  lemma {:induction false} RemoveCounted(m: Memory, b: Book, p: Addr, surplus: Option<Addr>)
    requires Counted(m, b, surplus) && p in b.chains && b.chains[p] == [p] && surplus != Some(p)
    ensures p in m && Counted(m - {p}, RemoveBook(b, p), surplus)
    ensures forall a {:trigger SameFrom(b, RemoveBook(b, p), a)} :: a in m && a != p ==> SameFrom(b, RemoveBook(b, p), a)
  {
    var n, c := m - {p}, RemoveBook(b, p);
    assert ChainOk(m, b, p);
    assert Links(m, b.chains[p], 0);
    forall g | g in c.chains ensures ChainOk(n, c, g) {
      assert ChainOk(m, b, g);
      forall i | 0 <= i < |b.chains[g]| ensures MemberKept(m, n, b, c, b.chains[g][i]) {
        assert Links(m, b.chains[g], i) && MemberOk(b, g, b.chains[g], i);
        ChainsApart(m, b, surplus, g, p, i, 0);
      }
      ChainKept(m, n, b, c, g);
    }
    forall y | y in n ensures SameFrom(b, c, y) && RefOk(n, c, y, surplus) {
      assert PlaceOk(b, y) && RefOk(m, b, y, surplus);
    }
  }

  // ----- giving a reference up -----

  /** A buffer with other references stays. */
  lemma {:induction false} DropKeepsBuffer(m: Memory, b: Book, p: Addr)
    requires Counted(m, b, Some(p)) && m[p].ref > 1
    ensures Counted(m[p := m[p].(ref := m[p].ref - 1)], b, None)
  {
    var n := m[p := m[p].(ref := m[p].ref - 1)];
    forall g | g in b.chains ensures ChainOk(n, b, g) {
      assert ChainOk(m, b, g);
      forall i | 0 <= i < |b.chains[g]| ensures MemberKept(m, n, b, b, b.chains[g][i]) {
        assert Links(m, b.chains[g], i);
      }
      ChainKept(m, n, b, b, g);
    }
    forall y | y in n ensures PlaceOk(b, y) && RefOk(n, b, y, None) {
      assert PlaceOk(b, y) && RefOk(m, b, y, Some(p));
    }
  }

  /** The holder of `p` is about to give its reference up, or has thought better of it. */
  ghost function HoldBook(b: Book, p: Addr, n: nat): Book {
    b.(held := b.held[p := n])
  }

  lemma {:induction false} GiveUp(m: Memory, b: Book, p: Addr)
    requires Counted(m, b, None) && p in m && p in b.held && b.held[p] > 0
    ensures Counted(m, HoldBook(b, p, b.held[p] - 1), Some(p))
  {
    SameChains(m, m, b, HoldBook(b, p, b.held[p] - 1), None, Some(p));
  }

  lemma {:induction false} TakeBack(m: Memory, b: Book, p: Addr)
    requires Counted(m, b, Some(p)) && p in m && p in b.held
    ensures Counted(m, HoldBook(b, p, b.held[p] + 1), None)
  {
    SameChains(m, m, b, HoldBook(b, p, b.held[p] + 1), Some(p), None);
  }

  /** One more holder. */
  lemma {:induction false} HoldCounted(m: Memory, b: Book, p: Addr)
    requires Counted(m, b, None) && p in m && p in b.held
    ensures Counted(m[p := m[p].(ref := m[p].ref + 1)], HoldBook(b, p, b.held[p] + 1), None)
  {
    SameChains(m, m[p := m[p].(ref := m[p].ref + 1)], b, HoldBook(b, p, b.held[p] + 1), None, None);
  }

  /** Changing only counts, so that each still has the right number of references. */
  lemma {:induction false} SameChains(m: Memory, n: Memory, b: Book, c: Book, s: Option<Addr>, t: Option<Addr>)
    requires Counted(m, b, s) && n.Keys == m.Keys && c.held.Keys == b.held.Keys && c.chains == b.chains && c.place == b.place
    requires t.Some? ==> t.value in n
    requires forall a :: a in m ==> n[a] == m[a].(ref := n[a].ref)
    requires forall a :: a in m ==> n[a].ref - c.held[a] - (if t == Some(a) then 1 else 0) == m[a].ref - b.held[a] - (if s == Some(a) then 1 else 0)
    requires forall a :: a in m ==> n[a].ref >= m[a].ref
    ensures Counted(n, c, t)
  {
    forall g | g in c.chains ensures ChainOk(n, c, g) {
      assert ChainOk(m, b, g);
      forall i | 0 <= i < |b.chains[g]| ensures MemberKept(m, n, b, c, b.chains[g][i]) {
        assert Links(m, b.chains[g], i);
      }
      ChainKept(m, n, b, c, g);
    }
    forall y | y in n ensures PlaceOk(c, y) && RefOk(n, c, y, t) {
      assert PlaceOk(b, y) && RefOk(m, b, y, s);
    }
  }

  /** A buffer whose only reference is given up is the first of its chain; what follows it becomes a
      chain of its own, whose first buffer has lost the link that led to it. */
  ghost function FreeBook(b: Book, p: Addr): Book
    requires p in b.chains && b.chains[p] != [] && p in b.held
  {
    var b1 := HoldBook(b, p, b.held[p] + 1);
    if |b.chains[p]| == 1 then RemoveBook(b1, p) else RemoveBook(SplitBook(b1, p, 0), p)
  }

  lemma {:induction false} DropFreesBuffer(m: Memory, b: Book, p: Addr)
    requires Counted(m, b, Some(p)) && m[p].ref == 1
    ensures IsHead(b, p) && p in b.chains && b.chains[p] != [] && p in b.held
    ensures Counted(m - {p}, FreeBook(b, p), m[p].next)
    ensures forall a {:trigger SameFrom(b, FreeBook(b, p), a)} :: a in m && a != p ==> SameFrom(b, FreeBook(b, p), a)
  {
    assert RefOk(m, b, p, Some(p));
    HeadChain(m, b, p, Some(p));
    var l := b.chains[p];
    assert Links(m, l, 0);
    TakeBack(m, b, p);
    var b1 := HoldBook(b, p, b.held[p] + 1);
    if |l| == 1 {
      RemoveCounted(m, b1, p, None);
      forall a | a in m && a != p ensures SameFrom(b, FreeBook(b, p), a) {
        assert SameFrom(b1, RemoveBook(b1, p), a);
      }
    } else {
      SplitCounted(m, b1, p, 0);
      var n := m[p := m[p].(next := None)];
      assert n - {p} == m - {p};
      ChainsApart(m, b1, None, p, p, 0, 1);
      RemoveCounted(n, SplitBook(b1, p, 0), p, Some(l[1]));
      var b2 := SplitBook(b1, p, 0);
      forall a | a in m && a != p ensures SameFrom(b, FreeBook(b, p), a) {
        assert PlaceOk(b1, a);
        HeadPlace(m, b1, None, a);
        SplitFrom(m, b1, p, 0, a);
        assert SameFrom(b2, RemoveBook(b2, p), a);
      }
    }
  }

  /** The rest of a chain, seen from one of its buffers. */
  lemma {:induction false} FromMember(m: Memory, b: Book, surplus: Option<Addr>, p: Addr, i: nat)
    requires Counted(m, b, surplus) && p in m && PlaceOk(b, p) && i < |From(b, p)|
    ensures From(b, p)[i] in m && PlaceOk(b, From(b, p)[i]) && From(b, From(b, p)[i]) == From(b, p)[i..]
    ensures m[From(b, p)[i]].next == if i + 1 < |From(b, p)| then Some(From(b, p)[i + 1]) else None
  {
    var h, k := b.place[p].0, b.place[p].1;
    assert ChainOk(m, b, h);
    assert Links(m, b.chains[h], k + i) && MemberOk(b, h, b.chains[h], k + i);
  }
}
