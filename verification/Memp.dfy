/** Fixed-size memory pools: each pool keeps its free elements on a linked list. */
module Memp {
  import opened Wrappers

  const NULL: int := -1

  /** Every link is null or leads to an element. */
  predicate Closed(next: seq<int>) {
    forall i :: 0 <= i < |next| ==> NULL <= next[i] < |next|
  }

  predicate IsNode(next: seq<int>, x: int) {
    NULL <= x < |next|
  }

  /** The node reached from `x` after `k` links; null stays null. */
  function Iter(next: seq<int>, x: int, k: nat): (y: int)
    requires Closed(next) && IsNode(next, x)
    ensures IsNode(next, y)
  {
    if k == 0 then x
    else
      var y := Iter(next, x, k - 1);
      if y == NULL then NULL else next[y]
  }

  /** Following the links from `x` comes to an end. */
  ghost predicate Acyclic(next: seq<int>, x: int)
    requires Closed(next) && IsNode(next, x)
  {
    exists k: nat :: Iter(next, x, k) == NULL
  }

  lemma {:induction false} IterAdd(next: seq<int>, x: int, j: nat, k: nat)
    requires Closed(next) && IsNode(next, x)
    ensures Iter(next, x, j + k) == Iter(next, Iter(next, x, j), k)
    decreases k
  {
    if k > 0 {
      IterAdd(next, x, j, k - 1);
    }
  }

  lemma {:induction false} NullStays(next: seq<int>, x: int, j: nat, k: nat)
    requires Closed(next) && IsNode(next, x) && Iter(next, x, j) == NULL && j <= k
    ensures Iter(next, x, k) == NULL
    decreases k - j
  {
    if j < k {
      NullStays(next, x, j, k - 1);
    }
  }

  /** Once the walk repeats after `c` steps it repeats after every multiple of `c`. */
  lemma {:induction false} Repeats(next: seq<int>, x: int, k: nat, c: nat, m: nat)
    requires Closed(next) && IsNode(next, x) && Iter(next, x, k) == Iter(next, x, k + c)
    ensures Iter(next, x, k + m * c) == Iter(next, x, k)
    decreases m
  {
    if m > 0 {
      Repeats(next, x, k, c, m - 1);
      IterAdd(next, x, k + (m - 1) * c, c);
      IterAdd(next, x, k, c);
      assert k + (m - 1) * c + c == k + m * c;
    }
  }

  /** A walk that comes back to a node never ends. */
  lemma {:induction false} CycleNeverEnds(next: seq<int>, x: int, k: nat, c: nat)
    requires Closed(next) && IsNode(next, x) && c > 0
    requires Iter(next, x, k) == Iter(next, x, k + c) != NULL
    ensures !Acyclic(next, x)
  {
    if j: nat :| Iter(next, x, j) == NULL {
      Repeats(next, x, k, c, j);
      assert j <= k + j * c;
      NullStays(next, x, j, k + j * c);
    }
  }

  /** More values than fit below `n` contain a repetition. */
  lemma {:induction false} Pigeonhole(s: seq<int>, n: nat) returns (i: nat, j: nat)
    requires |s| > n && forall k :: 0 <= k < |s| ==> 0 <= s[k] < n
    ensures i < j < |s| && s[i] == s[j]
    decreases n
  {
    assert 0 <= s[0] < n;
    if p :| 0 <= p < |s| && s[p] == n - 1 {
      if q :| 0 <= q < |s| && q != p && s[q] == n - 1 {
        i, j := if p < q then p else q, if p < q then q else p;
      } else {
        i, j := Pigeonhole(s[..p] + s[p + 1..], n - 1);
        i, j := if i < p then i else i + 1, if j < p then j else j + 1;
      }
    } else {
      i, j := Pigeonhole(s, n - 1);
    }
  }

  lemma {:induction false} MultipleAtLeast(m: nat, c: nat)
    requires c >= 1
    ensures m * c >= m
  {
  }

  /** Two walkers, one going one link and the other two links at a time, meet at step `b`, unless
      the slow one has reached the end by then. */
  lemma {:induction false} WalkersMeet(next: seq<int>, x: int) returns (b: nat)
    requires Closed(next) && IsNode(next, x)
    ensures Iter(next, x, b) == NULL || Iter(next, x, b) == Iter(next, x, 2 * b + 1)
  {
    if Acyclic(next, x) {
      b :| Iter(next, x, b) == NULL;
    } else {
      var walk := seq(|next| + 1, k requires 0 <= k => Iter(next, x, k));
      var i, j := Pigeonhole(walk, |next|);
      var c := j - i;
      var m := (i + 1) * c;
      MultipleAtLeast(i + 1, c);
      b := m - 1;
      Repeats(next, x, i, c, i + 1);
      IterAdd(next, x, i, b - i);
      IterAdd(next, x, i + m, b - i);
    }
  }

  // ----- free lists -----

  /** The links from `x` pass through exactly the elements of `l`, in that order, and then end. */
  ghost predicate ListAt(next: seq<int>, x: int, l: seq<nat>)
    decreases |l|
  {
    if l == [] then x == NULL
    else x == l[0] < |next| && ListAt(next, next[x], l[1..])
  }

  lemma {:induction false} ListIsAcyclic(next: seq<int>, x: int, l: seq<nat>)
    requires Closed(next) && ListAt(next, x, l)
    ensures IsNode(next, x) && Iter(next, x, |l|) == NULL && Acyclic(next, x)
    decreases |l|
  {
    if l != [] {
      ListIsAcyclic(next, next[x], l[1..]);
      assert Iter(next, x, 1) == next[x];
      IterAdd(next, x, 1, |l| - 1);
    } else {
      assert Iter(next, x, 0) == NULL;
    }
  }

  /** Rewriting the link of an element that is not on a list leaves the list as it is. */
  lemma {:induction false} ListAtFrame(next: seq<int>, x: int, l: seq<nat>, e: nat, y: int)
    requires ListAt(next, x, l) && e < |next| && e !in l
    ensures ListAt(next[e := y], x, l)
    decreases |l|
  {
    if l != [] {
      ListAtFrame(next, next[x], l[1..], e, y);
    }
  }

  /** The node at position `i` of a list is reached after `i` links, also when the link of a later
      node has been rewritten. */
  lemma {:induction false} ListNode(next: seq<int>, x: int, l: seq<nat>, i: nat, e: nat, y: int)
    requires Closed(next) && ListAt(next, x, l) && i < |l| && e < |next| && NULL <= y < |next|
    requires e !in l[..i]
    ensures IsNode(next, x) && Closed(next[e := y]) && Iter(next[e := y], x, i) == l[i]
    decreases i
  {
    var next' := next[e := y];
    if i > 0 {
      assert l[..i][0] == l[0] && l[1..][..i - 1] == l[..i][1..];
      ListNode(next, next[x], l[1..], i - 1, e, y);
      assert Iter(next', x, 1) == next'[x] == next[x];
      IterAdd(next', x, 1, i - 1);
    }
  }

  /** Pushing an element onto a free list leaves the list acyclic if and only if the element was not
      on it already. */
  lemma {:induction false} PushAcyclicIff(next: seq<int>, x: int, l: seq<nat>, e: nat)
    requires Closed(next) && ListAt(next, x, l) && e < |next|
    ensures IsNode(next, x) && Closed(next[e := x]) && (Acyclic(next[e := x], e) <==> e !in l)
  {
    ListIsAcyclic(next, x, l);
    var next' := next[e := x];
    if e in l {
      var i := FirstIndex(l, e);
      ListNode(next, x, l, i, e, x);
      assert Iter(next', e, 0) == e && Iter(next', e, 1) == x;
      IterAdd(next', e, 1, i);
      CycleNeverEnds(next', e, 0, i + 1);
    } else {
      ListAtFrame(next, x, l, e, x);
      assert ([e] + l)[1..] == l;
      ListIsAcyclic(next', e, [e] + l);
    }
  }

  function FirstIndex(l: seq<nat>, e: nat): (i: nat)
    requires e in l
    ensures i < |l| && l[i] == e && forall k :: 0 <= k < i ==> l[k] != e
  {
    if l[0] == e then 0 else 1 + FirstIndex(l[1..], e)
  }

  /** No element occurs twice. */
  ghost predicate Distinct(lists: seq<seq<nat>>) {
    forall p, i, q, j :: 0 <= p < |lists| && 0 <= i < |lists[p]| && 0 <= q < |lists| && 0 <= j < |lists[q]| ==>
      lists[p][i] == lists[q][j] ==> p == q && i == j
  }

  ghost predicate AllBelow(lists: seq<seq<nat>>, bound: nat) {
    forall p, i :: 0 <= p < |lists| && 0 <= i < |lists[p]| ==> lists[p][i] < bound
  }

  function Sum(num: seq<nat>): nat {
    if num == [] then 0 else Sum(num[..|num| - 1]) + num[|num| - 1]
  }

  lemma {:induction false} SumStep(num: seq<nat>, i: nat)
    requires i < |num|
    ensures Sum(num[..i + 1]) == Sum(num[..i]) + num[i] <= Sum(num)
    decreases |num| - i
  {
    assert num[..i + 1][..i] == num[..i];
    if i + 1 == |num| {
      assert num[..i + 1] == num;
    } else {
      SumStep(num, i + 1);
    }
  }

  // ----- the pools -----

  class Pools {
    const next: array<int>
    const tab: array<int>
    ghost var lists: seq<seq<nat>>

    /** Each head leads along its pool's free list, and no element is on the lists twice. */
    ghost predicate Valid()
      reads this, next, tab
    {
      && next != tab
      && Closed(next[..])
      && |lists| == tab.Length
      && (forall p :: 0 <= p < tab.Length ==> ListAt(next[..], tab[p], lists[p]))
      && Distinct(lists)
    }

    /** memp_init: carve the elements of all pools out of one area and link each pool's elements. */
    constructor (num: seq<nat>)
      ensures Valid() && fresh(next) && fresh(tab) && next.Length == Sum(num) && tab.Length == |num|
      ensures forall p :: 0 <= p < |num| ==> |lists[p]| == num[p]
      ensures forall e: nat :: e < next.Length ==> IsFree(e)
    {
      next := new int[Sum(num)](_ => NULL);
      tab := new int[|num|](_ => NULL);
      lists := seq(|num|, _ => []);
      new;
      var memp: nat := 0;
      for i := 0 to |num|
        invariant memp == Sum(num[..i])
        invariant Valid() && AllBelow(lists, memp)
        invariant forall p :: 0 <= p < |num| ==> |lists[p]| == if p < i then num[p] else 0
        invariant forall e: nat :: e < memp ==> IsFree(e)
      {
        SumStep(num, i);
        Fill(i, num[i], memp);
        memp := memp + num[i];
      }
      assert num[..|num|] == num;
    }

    /** Put the `count` elements from `start` on onto the empty free list of one pool. */
    method Fill(type_: nat, count: nat, start: nat)
      requires Valid() && AllBelow(lists, start)
      requires type_ < tab.Length && start + count <= next.Length && lists[type_] == []
      modifies next, tab, this`lists
      ensures Valid() && AllBelow(lists, start + count)
      ensures |lists[type_]| == count && forall p :: 0 <= p < |lists| && p != type_ ==> lists[p] == old(lists)[p]
      ensures forall e: nat :: IsFree(e) <==> old(IsFree(e)) || start <= e < start + count
    {
      for j := 0 to count
        invariant Valid() && AllBelow(lists, start + j)
        invariant |lists[type_]| == j && forall p :: 0 <= p < |lists| && p != type_ ==> lists[p] == old(lists)[p]
        invariant forall e: nat :: IsFree(e) <==> old(IsFree(e)) || start <= e < start + j
      {
        Link(type_, start + j);
      }
    }

    /** Put element `memp` at the head of a free list. */
    method Link(type_: nat, memp: nat)
      requires Valid() && type_ < tab.Length && memp < next.Length && !IsFree(memp)
      modifies next, tab, this`lists
      ensures Valid() && lists == old(lists)[type_ := [memp] + old(lists)[type_]]
      ensures forall e: nat :: IsFree(e) <==> old(IsFree(e)) || e == memp
    {
      ghost var l := [memp] + lists[type_];
      forall p | 0 <= p < tab.Length ensures ListAt(next[..][memp := tab[type_]], tab[p], lists[p]) {
        ListAtFrame(next[..], tab[p], lists[p], memp, tab[type_]);
      }
      ListIsAcyclic(next[..], tab[type_], lists[type_]);
      next[memp] := tab[type_];
      assert l[1..] == lists[type_];
      tab[type_] := memp;
      lists := lists[type_ := l];
      assert forall p, e :: 0 <= p < |lists| ==> (e in lists[p] <==> e in old(lists)[p] || (p == type_ && e == memp));
    }

    ghost predicate IsFree(e: nat)
      reads this
    {
      exists p :: 0 <= p < |lists| && e in lists[p]
    }

    /** memp_sanity: true exactly when every free list is acyclic; it ends on cyclic lists too. */
    method Sanity() returns (ok: bool)
      requires Closed(next[..]) && forall p :: 0 <= p < tab.Length ==> IsNode(next[..], tab[p])
      ensures ok <==> forall p :: 0 <= p < tab.Length ==> Acyclic(next[..], tab[p])
    {
      for p := 0 to tab.Length
        invariant forall q :: 0 <= q < p ==> Acyclic(next[..], tab[q])
      {
        var t := tab[p];
        ghost var x, k := t, 0;
        ghost var b := WalkersMeet(next[..], x);
        if t != NULL {
          var h := next[t];
          assert Iter(next[..], x, 1) == h;
          while t != NULL && h != NULL
            invariant NULL <= t < next.Length && NULL <= h < next.Length
            invariant k <= b && t == Iter(next[..], x, k)
            invariant if h == NULL then Acyclic(next[..], x) else h == Iter(next[..], x, 2 * k + 1)
            decreases b - k
          {
            if t == h {
              CycleNeverEnds(next[..], x, k, k + 1);
              return false;
            }
            t := next[t];
            var h1 := next[h];
            assert Iter(next[..], x, 2 * k + 2) == h1;
            assert h1 != NULL ==> Iter(next[..], x, 2 * k + 3) == next[h1];
            h := if h1 != NULL && next[h1] != NULL then next[h1] else NULL;
            k := k + 1;
          }
        } else {
          assert Iter(next[..], x, 0) == NULL;
        }
      }
      return true;
    }

    /** memp_malloc: the first free element of a pool, or None when it has none. */
    method Malloc(type_: nat) returns (r: Option<nat>)
      requires Valid()
      modifies next, tab, this`lists
      ensures Valid()
      ensures r == if type_ < tab.Length && old(lists)[type_] != [] then Some(old(lists)[type_][0]) else None
      ensures lists == if r.Some? then old(lists)[type_ := old(lists)[type_][1..]] else old(lists)
      ensures r.Some? ==> old(IsFree(r.value)) && !IsFree(r.value)
    {
      if type_ >= tab.Length {
        return None;
      }
      var memp := tab[type_];
      if memp == NULL {
        return None;
      }
      tab[type_] := next[memp];
      lists := lists[type_ := lists[type_][1..]];
      return Some(memp);
    }

    /** memp_free of an element that is on no list; a null pointer is ignored. The sanity check that
        may follow it succeeds. */
    method Free(type_: nat, mem: Option<nat>)
      requires Valid() && type_ < tab.Length && (mem.Some? ==> mem.value < next.Length && !IsFree(mem.value))
      modifies next, tab, this`lists
      ensures Valid()
      ensures lists == if mem.Some? then old(lists)[type_ := [mem.value] + old(lists)[type_]] else old(lists)
    {
      if mem == None {
        return;
      }
      Link(type_, mem.value);
      forall p | 0 <= p < tab.Length ensures Acyclic(next[..], tab[p]) {
        ListIsAcyclic(next[..], tab[p], lists[p]);
      }
      var ok := Sanity();
      assert ok;
    }
  }
}
