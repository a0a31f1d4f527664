/** Copying into chains: filling a chain from an array, and copying one chain into another that is
    divided into buffers differently. */
module PbufCopy {
  import opened Wrappers
  import opened PbufChain
  import opened PbufData

  datatype Err = Ok | ErrArg | ErrVal

  /** The same buffers with the same links and lengths. */
  ghost predicate SameShape(m: Memory, n: Memory) {
    && n.Keys == m.Keys
    && forall a {:trigger Alike(m[a], n[a])} :: a in m ==> Alike(m[a], n[a])
  }

  /** Two buffers that differ at most in the contents of their memory. */
  ghost predicate Alike(x: Pbuf, y: Pbuf) {
    |y.data| == |x.data| && y == x.(data := y.data)
  }

  ghost predicate Kept(m: Memory, n: Memory, a: Addr) {
    a in m && a in n ==> n[a] == m[a]
  }

  /** Buffers that are not on the list `l` are unchanged. */
  ghost predicate SameOutside(m: Memory, n: Memory, l: seq<Addr>) {
    forall a {:trigger Kept(m, n, a)} :: a !in l ==> Kept(m, n, a)
  }

  ghost predicate Separate(F: seq<Addr>, T: seq<Addr>) {
    forall i {:trigger F[i]} :: 0 <= i < |F| ==> F[i] !in T
  }

  lemma {:induction false} SameShapeChain(m: Memory, n: Memory, l: seq<Addr>)
    requires IsChain(m, l) && SameShape(m, n)
    ensures IsChain(n, l)
  {
    forall i | 0 <= i < |l| ensures Links(n, l, i) {
      assert Links(m, l, i) && Alike(m[l[i]], n[l[i]]);
    }
  }

  lemma {:induction false} SameShapeLength(m: Memory, n: Memory, l: seq<Addr>)
    requires SameShape(m, n) && forall i :: 0 <= i < |l| ==> l[i] in m && m[l[i]].len <= |m[l[i]].data|
    ensures |Flat(n, l)| == |Flat(m, l)|
  {
    if l != [] {
      assert Alike(m[l[0]], n[l[0]]);
      SameShapeLength(m, n, l[1..]);
    }
  }

  /** No buffer but the first starts an empty rest, so that `len == totLen` marks the last buffer. */
  ghost predicate IsPacket(m: Memory, l: seq<Addr>) {
    forall i :: 0 < i < |l| ==> l[i] in m && m[l[i]].totLen > 0
  }

  /** The loop of pbuf_take: walk along the chain and fill one buffer after the other. */
  method FillChain(m0: Memory, buf: Addr, data: seq<byte>, ghost l: seq<Addr>) returns (m: Memory)
    requires IsChain(m0, l) && l[0] == buf && |data| <= |Flat(m0, l)|
    ensures SameShape(m0, m) && Flat(m, l) == Overwrite(Flat(m0, l), 0, data)
    ensures SameOutside(m0, m, l)
  {
    m := m0;
    ghost var i: nat := 0;
    var p := Some(buf);
    var copied: nat := 0;
    TakeStarts(m, l, data);
    while copied != |data|
      invariant i <= |l| && p == Head(l, i) && copied <= |data|
      invariant TakeState(m0, m, l, i, data, copied)
      decreases |l| - i
    {
      TakeNotAtEnd(m0, m, l, i, data, copied);
      m, p, copied := FillOne(m0, m, p, data, copied, l, i);
      i := i + 1;
    }
    TakeEnds(m0, m, l, i, data);
  }

  /** One round of it: fill the buffer at `p`. */
  method FillOne(m0: Memory, m: Memory, p: Option<Addr>, data: seq<byte>, copied: nat, ghost l: seq<Addr>, ghost i: nat)
    returns (m': Memory, next: Option<Addr>, copied': nat)
    requires TakeState(m0, m, l, i, data, copied) && copied < |data| && p == Head(l, i)
    ensures TakeState(m0, m', l, i + 1, data, copied') && next == Head(l, i + 1) && copied' <= |data|
  {
    TakeNotAtEnd(m0, m, l, i, data, copied);
    var n := if |data| - copied > m[p.value].len then m[p.value].len else |data| - copied;
    TakeStep(m0, m, l, i, data, copied, n);
    m' := Written(m, p.value, 0, data[copied..copied + n]);
    copied' := copied + n;
    next := m'[p.value].next;
  }

  /** What pbuf_take has put into a chain is what pbuf_copy_partial reads back from it, however the chain is
      divided into buffers, and behind it the old bytes follow. */
  method FillThenRead(m0: Memory, buf: Addr, data: seq<byte>, ghost l: seq<Addr>) returns (m: Memory, out: seq<byte>, rest: seq<byte>)
    requires IsChain(m0, l) && Totals(m0, l) && l[0] == buf && |data| <= |Flat(m0, l)|
    ensures out == data && data + rest == Flat(m, l) && rest == Flat(m0, l)[|data|..]
  {
    m := FillChain(m0, buf, data, l);
    SameShapeChain(m0, m, l);
    SameShapeFlat(m0, m, l);
    Standing(m0, m, l, 0);
    TotalIsLength(m0, l, 0);
    assert l[0..] == l;
    out := CopyPartial(m, Some(buf), |data|, 0, l);
    rest := CopyPartial(m, Some(buf), m[buf].totLen, |data|, l);
  }

  lemma {:induction false} TakeEnds(m0: Memory, m: Memory, l: seq<Addr>, i: nat, data: seq<byte>)
    requires TakeState(m0, m, l, i, data, |data|)
    ensures SameShape(m0, m) && SameOutside(m0, m, l) && |data| <= |Flat(m0, l)|
    ensures Flat(m, l) == Overwrite(Flat(m0, l), 0, data)
  {
  }

  /** After `i` buffers, pbuf_take has stored the first `copied` bytes. */
  ghost predicate TakeState(m0: Memory, m: Memory, l: seq<Addr>, i: nat, data: seq<byte>, copied: nat) {
    && IsChain(m0, l) && IsChain(m, l) && SameShape(m0, m)
    && SameOutside(m0, m, l)
    && i <= |l| && copied <= |data| <= |Flat(m0, l)|
    && copied <= |Flat(m, l[..i])| && (copied < |data| ==> copied == |Flat(m, l[..i])|)
    && Flat(m, l) == Overwrite(Flat(m0, l), 0, data[..copied])
  }

  lemma {:induction false} TakeStarts(m: Memory, l: seq<Addr>, data: seq<byte>)
    requires IsChain(m, l) && |data| <= |Flat(m, l)|
    ensures TakeState(m, m, l, 0, data, 0)
  {
  }

  lemma {:induction false} TakeNotAtEnd(m0: Memory, m: Memory, l: seq<Addr>, i: nat, data: seq<byte>, copied: nat)
    requires TakeState(m0, m, l, i, data, copied) && copied < |data|
    ensures i < |l| && l[i] in m && m[l[i]].len <= |m[l[i]].data| && m[l[i]].next == Head(l, i + 1)
  {
    if i == |l| {
      WalkEnds(m, l);
    } else {
      WalkStep(m, l, i);
    }
  }

  lemma {:induction false} TakeStep(m0: Memory, m: Memory, l: seq<Addr>, i: nat, data: seq<byte>, copied: nat, n: nat)
    requires TakeState(m0, m, l, i, data, copied) && copied < |data| && i < |l| && l[i] in m
    requires n <= m[l[i]].len <= |m[l[i]].data| && copied + n <= |data|
    requires copied + n < |data| ==> n == m[l[i]].len
    ensures TakeState(m0, Written(m, l[i], 0, data[copied..copied + n]), l, i + 1, data, copied + n)
  {
    var b := data[copied..copied + n];
    WriteKeepsChain(m, l, l[i], 0, b);
    WriteKeepsShape(m0, m, l[i], 0, b);
    FlatWrite(m, l, i, 0, b);
    WalkStep(Written(m, l[i], 0, b), l, i);
    OverwriteNext(Flat(m0, l), data, copied, n);
    assert |b| == n && copied <= |Flat(m, l)|;
  }

  // ----- copying from chain to chain -----

  /** pbuf_copy has copied the first `n` bytes: it stands `offF` bytes into buffer `i` of the source and
      `offT` bytes into buffer `j` of the target. */
  ghost predicate CopyState(m0: Memory, m: Memory, T: seq<Addr>, F: seq<Addr>, j: nat, i: nat, offT: nat, offF: nat, n: nat) {
    && IsChain(m0, T) && IsChain(m, T) && IsChain(m0, F) && SameShape(m0, m)
    && SameOutside(m0, m, T)
    && Separate(F, T)
    && j <= |T| && i <= |F|
    && n == |Flat(m0, F[..i])| + offF && n == |Flat(m, T[..j])| + offT
    && n <= |Flat(m0, F)| <= |Flat(m0, T)|
    && (i < |F| ==> F[i] in m0 && offF <= m0[F[i]].len) && (i == |F| ==> offF == 0)
    && (j < |T| ==> T[j] in m0 && offT <= m0[T[j]].len) && (j == |T| ==> offT == 0)
    && Flat(m, T) == Overwrite(Flat(m0, T), 0, Flat(m0, F)[..n])
  }

  lemma {:induction false} CopyStarts(m: Memory, T: seq<Addr>, F: seq<Addr>)
    requires IsChain(m, T) && IsChain(m, F) && |Flat(m, F)| <= |Flat(m, T)| && Separate(F, T)
    ensures CopyState(m, m, T, F, 0, 0, 0, 0, 0)
  {
    WalkEnds(m, T);
    WalkEnds(m, F);
    assert Links(m, T, 0) && Links(m, F, 0);
    assert Overwrite(Flat(m, T), 0, []) == Flat(m, T);
  }

  /** One MEMCPY of pbuf_copy. */
  lemma {:induction false} CopyChunk(m0: Memory, m: Memory, T: seq<Addr>, F: seq<Addr>, j: nat, i: nat, offT: nat, offF: nat,
                                     n: nat, len: nat)
    requires CopyState(m0, m, T, F, j, i, offT, offF, n) && i < |F| && j < |T|
    requires offT + len <= m0[T[j]].len && offF + len <= m0[F[i]].len
    ensures T[j] in m && F[i] in m && m[F[i]] == m0[F[i]] && offF + len <= |m0[F[i]].data| && offT + len <= |m[T[j]].data|
    ensures CopyState(m0, Written(m, T[j], offT, m0[F[i]].data[offF..offF + len]), T, F, j, i, offT + len, offF + len, n + len)
  {
    assert Links(m, T, j) && Links(m0, F, i);
    assert Kept(m0, m, F[i]) && Alike(m0[T[j]], m[T[j]]);
    var b := m0[F[i]].data[offF..offF + len];
    PartOfChain(m0, F, i, offF, len);
    WriteKeepsChain(m, T, T[j], offT, b);
    WriteKeepsShape(m0, m, T[j], offT, b);
    ChunkBytes(m, T, j, offT, Flat(m0, T), Flat(m0, F), n, len, b);
  }

  /** The bytes of the target after the copied prefix has grown by `len` bytes. */
  lemma {:induction false} ChunkBytes(m: Memory, T: seq<Addr>, j: nat, offT: nat, t: seq<byte>, f: seq<byte>, n: nat, len: nat,
                                      b: seq<byte>)
    requires IsChain(m, T) && j < |T| && T[j] in m && offT + len <= m[T[j]].len <= |m[T[j]].data|
    requires n == |Flat(m, T[..j])| + offT && n + len <= |f| <= |t| && b == f[n..n + len]
    requires Flat(m, T) == Overwrite(t, 0, f[..n])
    ensures var m' := Written(m, T[j], offT, b);
      |Flat(m', T[..j])| == |Flat(m, T[..j])| && Flat(m', T) == Overwrite(t, 0, f[..n + len])
  {
    FlatWrite(m, T, j, offT, b);
    OverwriteNext(t, f, n, len);
  }

  lemma {:induction false} WriteKeepsShape(m0: Memory, m: Memory, a: Addr, off: nat, b: seq<byte>)
    requires SameShape(m0, m) && a in m && off + |b| <= |m[a].data|
    ensures SameShape(m0, Written(m, a, off, b))
    ensures forall l: seq<Addr> :: a in l && SameOutside(m0, m, l) ==> SameOutside(m0, Written(m, a, off, b), l)
  {
    var n := Written(m, a, off, b);
    forall x | x in m0 ensures Alike(m0[x], n[x]) {
      assert Alike(m0[x], m[x]);
    }
    forall l: seq<Addr>, x | a in l && SameOutside(m0, m, l) && x !in l ensures Kept(m0, n, x) {
      assert Kept(m0, m, x);
    }
  }

  lemma {:induction false} OverwriteNext(s: seq<byte>, src: seq<byte>, n: nat, len: nat)
    requires n + len <= |src| <= |s|
    ensures Overwrite(Overwrite(s, 0, src[..n]), n, src[n..n + len]) == Overwrite(s, 0, src[..n + len])
  {
  }

  /** Moving on to the next source buffer. */
  lemma {:induction false} CopyNextFrom(m0: Memory, m: Memory, T: seq<Addr>, F: seq<Addr>, j: nat, i: nat, offT: nat, offF: nat, n: nat)
    requires CopyState(m0, m, T, F, j, i, offT, offF, n) && i < |F| && offF == m0[F[i]].len
    ensures CopyState(m0, m, T, F, j, i + 1, offT, 0, n) && m0[F[i]].next == Head(F, i + 1)
  {
    WalkStep(m0, F, i);
    if i + 1 < |F| {
      assert Links(m0, F, i + 1);
    }
  }

  /** Moving on to the next target buffer. */
  lemma {:induction false} CopyNextTo(m0: Memory, m: Memory, T: seq<Addr>, F: seq<Addr>, j: nat, i: nat, offT: nat, offF: nat, n: nat)
    requires CopyState(m0, m, T, F, j, i, offT, offF, n) && j < |T| && offT == m0[T[j]].len
    ensures CopyState(m0, m, T, F, j + 1, i, 0, offF, n) && m0[T[j]].next == Head(T, j + 1)
  {
    WalkStep(m, T, j);
    assert Alike(m0[T[j]], m[T[j]]);
    if j + 1 < |T| {
      assert Links(m0, T, j + 1);
    }
  }

  /** A chain in which some later buffer has no bytes behind it is not a packet. */
  lemma {:induction false} NotPacket(m: Memory, l: seq<Addr>, i: nat)
    requires IsChain(m, l) && Totals(m, l) && 0 < i < |l| && |Flat(m, l[i..])| == 0
    ensures !IsPacket(m, l)
  {
    TotalIsLength(m, l, i);
  }

  /** The bytes from buffer `i` on. */
  lemma {:induction false} FlatRest(m: Memory, l: seq<Addr>, i: nat)
    requires i <= |l|
    ensures |Flat(m, l[..i])| + |Flat(m, l[i..])| == |Flat(m, l)|
  {
    FlatConcat(m, l[..i], l[i..]);
    assert l[..i] + l[i..] == l;
  }

  /** A buffer that claims to hold all remaining bytes but has a successor. */
  lemma {:induction false} QueueIsNotPacket(m: Memory, l: seq<Addr>, i: nat)
    requires IsChain(m, l) && Totals(m, l) && i < |l| && l[i] in m && m[l[i]].len == m[l[i]].totLen && m[l[i]].next.Some?
    ensures !IsPacket(m, l)
  {
    assert Links(m, l, i) && TotalAt(m, l[i]);
    assert Links(m, l, i + 1);
  }

  /** The source pointer has bytes left in its buffer, or has just moved on to it. */
  ghost predicate Fresh(m: Memory, F: seq<Addr>, i: nat, off: nat)
    requires i < |F|
  {
    F[i] in m && (off < m[F[i]].len || (off == 0 && i > 0))
  }

  /** When the target is used up before the source pointer is null, the source has an empty rest. */
  lemma {:induction false} TargetUsedUp(m0: Memory, m: Memory, T: seq<Addr>, F: seq<Addr>, i: nat, offF: nat, n: nat)
    requires CopyState(m0, m, T, F, |T|, i, 0, offF, n) && i < |F| && Fresh(m0, F, i, offF)
    requires Totals(m0, F)
    ensures n == |Flat(m0, F)| && !IsPacket(m0, F)
  {
    WalkEnds(m, T);
    SameShapeFlat(m0, m, T);
    WalkStep(m0, F, i);
    FlatRest(m0, F, i);
    if i > 0 {
      NotPacket(m0, F, i);
    }
  }

  lemma {:induction false} SameShapeFlat(m0: Memory, m: Memory, l: seq<Addr>)
    requires IsChain(m0, l) && SameShape(m0, m)
    ensures |Flat(m, l)| == |Flat(m0, l)|
  {
    forall i | 0 <= i < |l| ensures l[i] in m0 && m0[l[i]].len <= |m0[l[i]].data| {
      assert Links(m0, l, i);
    }
    SameShapeLength(m0, m, l);
  }

  lemma {:induction false} CopyReads(m0: Memory, m: Memory, T: seq<Addr>, F: seq<Addr>, j: nat, i: nat, offT: nat, offF: nat, n: nat)
    requires CopyState(m0, m, T, F, j, i, offT, offF, n) && i < |F| && j < |T|
    ensures T[j] in m && F[i] in m && m[F[i]] == m0[F[i]] && m[T[j]] == m0[T[j]].(data := m[T[j]].data)
    ensures offF <= m[F[i]].len <= |m[F[i]].data| && offT <= m[T[j]].len <= |m[T[j]].data|
  {
    assert Links(m, T, j) && Links(m0, F, i);
    assert Kept(m0, m, F[i]) && Alike(m0[T[j]], m[T[j]]);
  }

  /** The copying part of one round of pbuf_copy: as many bytes as both current buffers allow. */
  method CopyBytes(m0: Memory, m: Memory, to: Addr, from: Addr, offTo: nat, offFrom: nat,
                   ghost T: seq<Addr>, ghost F: seq<Addr>, ghost j: nat, ghost i: nat, ghost n: nat)
    returns (m': Memory, atTo: nat, atFrom: nat, ghost n': nat)
    requires CopyState(m0, m, T, F, j, i, offTo, offFrom, n) && i < |F| && j < |T| && F[i] == from && T[j] == to
    ensures CopyState(m0, m', T, F, j, i, atTo, atFrom, n')
    ensures atFrom == m0[from].len || atTo == m0[to].len
  {
    CopyReads(m0, m, T, F, j, i, offTo, offFrom, n);
    var len := if m[to].len - offTo >= m[from].len - offFrom then m[from].len - offFrom else m[to].len - offTo;
    CopyChunk(m0, m, T, F, j, i, offTo, offFrom, n, len);
    m' := Written(m, to, offTo, m[from].data[offFrom..offFrom + len]);
    atTo, atFrom, n' := offTo + len, offFrom + len, n + len;
  }

  /** The source pointer moves on when its buffer is used up. */
  method NextFrom(m0: Memory, m: Memory, from: Addr, off: nat, ghost T: seq<Addr>, ghost F: seq<Addr>, ghost j: nat,
                  ghost i: nat, ghost offTo: nat, ghost n: nat) returns (p: Option<Addr>, off': nat, ghost i': nat)
    requires CopyState(m0, m, T, F, j, i, offTo, off, n) && i < |F| && F[i] == from && j < |T|
    ensures CopyState(m0, m, T, F, j, i', offTo, off', n) && p == Head(F, i')
    ensures if off == m0[from].len then i' == i + 1 else i' == i
    ensures i' < |F| ==> Fresh(m0, F, i', off')
  {
    CopyReads(m0, m, T, F, j, i, offTo, off, n);
    p, off', i' := Some(from), off, i;
    if off >= m[from].len {
      CopyNextFrom(m0, m, T, F, j, i, offTo, off, n);
      p, off', i' := m[from].next, 0, i + 1;
    }
  }

  /** The target pointer moves on when its buffer is full. */
  method NextTo(m0: Memory, m: Memory, to: Addr, off: nat, ghost T: seq<Addr>, ghost F: seq<Addr>, ghost j: nat,
                ghost i: nat, ghost offFrom: nat, ghost n: nat) returns (p: Option<Addr>, off': nat, ghost j': nat)
    requires CopyState(m0, m, T, F, j, i, off, offFrom, n) && j < |T| && T[j] == to
    ensures CopyState(m0, m, T, F, j', i, off', offFrom, n) && p == Head(T, j') && (j' == |T| ==> off' == 0)
    ensures if off == m0[to].len then j' == j + 1 else j' == j
  {
    assert Links(m, T, j) && Alike(m0[T[j]], m[T[j]]);
    p, off', j' := Some(to), off, j;
    if off == m[to].len {
      CopyNextTo(m0, m, T, F, j, i, off, offFrom, n);
      p, off', j' := m[to].next, 0, j + 1;
    }
  }

  /** A buffer that a copy stands on is in memory. */
  lemma {:induction false} Standing(m0: Memory, m: Memory, l: seq<Addr>, i: nat)
    requires IsChain(m0, l) && SameShape(m0, m) && i < |l|
    ensures l[i] in m0 && l[i] in m && m[l[i]].len == m0[l[i]].len && m[l[i]].totLen == m0[l[i]].totLen
    ensures m[l[i]].next == m0[l[i]].next
  {
    assert Links(m0, l, i) && Alike(m0[l[i]], m[l[i]]);
  }

  /** What a copy leaves behind when it ends. */
  lemma {:induction false} CopyResult(m0: Memory, m: Memory, T: seq<Addr>, F: seq<Addr>, j: nat, i: nat, offT: nat, offF: nat, n: nat)
    requires CopyState(m0, m, T, F, j, i, offT, offF, n)
    ensures SameShape(m0, m) && SameOutside(m0, m, T)
    ensures n <= |Flat(m0, F)| <= |Flat(m0, T)| && Flat(m, T) == Overwrite(Flat(m0, T), 0, Flat(m0, F)[..n])
    ensures i == |F| ==> n == |Flat(m0, F)|
  {
    WalkEnds(m0, F);
  }

  /** The loop of pbuf_copy. It stops early when one of the chains looks like a queue of packets, or
      when the target is used up although the source pointer is not null. */
  method CopyChain(m0: Memory, to: Addr, from: Addr, ghost T: seq<Addr>, ghost F: seq<Addr>)
    returns (m: Memory, err: Err, ghost n: nat)
    requires IsChain(m0, T) && Totals(m0, T) && T[0] == to && IsChain(m0, F) && Totals(m0, F) && F[0] == from
    requires |Flat(m0, F)| <= |Flat(m0, T)| && Separate(F, T)
    ensures SameShape(m0, m) && SameOutside(m0, m, T)
    ensures n <= |Flat(m0, F)| && Flat(m, T) == Overwrite(Flat(m0, T), 0, Flat(m0, F)[..n])
    ensures err == Ok || err == ErrArg ==> n == |Flat(m0, F)|
    ensures IsPacket(m0, T) && IsPacket(m0, F) ==> err == Ok
  {
    m := m0;
    n := 0;
    var pTo, pFrom := Some(to), Some(from);
    var offTo: nat, offFrom: nat := 0, 0;
    ghost var i: nat, j: nat := 0, 0;
    CopyStarts(m, T, F);
    while true
      invariant i < |F| && j < |T| && pFrom == Head(F, i) && pTo == Head(T, j)
      invariant CopyState(m0, m, T, F, j, i, offTo, offFrom, n)
      decreases |F| - i + |T| - j
    {
      var stop;
      m, pTo, pFrom, offTo, offFrom, stop, i, j, n :=
        CopyRound(m0, m, pTo.value, pFrom.value, offTo, offFrom, T, F, j, i, n);
      if stop.Some? {
        CopyResult(m0, m, T, F, j, i, offTo, offFrom, n);
        return m, stop.value, n;
      }
    }
  }

  /** One round of pbuf_copy. */
  method CopyRound(m0: Memory, m: Memory, to: Addr, from: Addr, offTo: nat, offFrom: nat,
                   ghost T: seq<Addr>, ghost F: seq<Addr>, ghost j: nat, ghost i: nat, ghost n: nat)
    returns (m': Memory, pTo: Option<Addr>, pFrom: Option<Addr>, offTo': nat, offFrom': nat, stop: Option<Err>,
             ghost i': nat, ghost j': nat, ghost n': nat)
    requires CopyState(m0, m, T, F, j, i, offTo, offFrom, n) && i < |F| && j < |T| && F[i] == from && T[j] == to
    requires Totals(m0, T) && Totals(m0, F)
    ensures CopyState(m0, m', T, F, j', i', offTo', offFrom', n') && pTo == Head(T, j') && pFrom == Head(F, i')
    ensures i <= i' && j <= j' && i + j < i' + j'
    ensures stop == None ==> i' < |F| && j' < |T|
    ensures stop == Some(Ok) || stop == Some(ErrArg) ==> n' == |Flat(m0, F)|
    ensures stop.Some? && IsPacket(m0, T) && IsPacket(m0, F) ==> stop == Some(Ok)
  {
    var atTo, atFrom;
    m', atTo, atFrom, n' := CopyBytes(m0, m, to, from, offTo, offFrom, T, F, j, i, n);
    pFrom, offFrom', i' := NextFrom(m0, m', from, atFrom, T, F, j, i, atTo, n');
    pTo, offTo', j' := NextTo(m0, m', to, atTo, T, F, j, i', offFrom', n');
    stop := CopyChecks(m0, m', pTo, pFrom, T, F, j', i', offTo', offFrom', n');
  }

  /** The checks that end a round of pbuf_copy. */
  method CopyChecks(m0: Memory, m: Memory, pTo: Option<Addr>, pFrom: Option<Addr>, ghost T: seq<Addr>, ghost F: seq<Addr>,
                    ghost j: nat, ghost i: nat, ghost offTo: nat, ghost offFrom: nat, ghost n: nat) returns (stop: Option<Err>)
    requires CopyState(m0, m, T, F, j, i, offTo, offFrom, n) && pTo == Head(T, j) && pFrom == Head(F, i)
    requires Totals(m0, T) && Totals(m0, F) && (i < |F| ==> Fresh(m0, F, i, offFrom)) && (j == |T| ==> offTo == 0)
    ensures stop == None ==> pTo.Some? && pFrom.Some?
    ensures stop == Some(Ok) || stop == Some(ErrArg) ==> n == |Flat(m0, F)|
    ensures stop.Some? && IsPacket(m0, T) && IsPacket(m0, F) ==> stop == Some(Ok)
  {
    CopyResult(m0, m, T, F, j, i, offTo, offFrom, n);
    if pTo == None && pFrom != None {
      TargetUsedUp(m0, m, T, F, i, offFrom, n);
      return Some(ErrArg);
    }
    if pFrom.Some? {
      Standing(m0, m, F, i);
      if m[pFrom.value].len == m[pFrom.value].totLen && m[pFrom.value].next != None {
        QueueIsNotPacket(m0, F, i);
        return Some(ErrVal);
      }
    }
    if pTo.Some? {
      Standing(m0, m, T, j);
      if m[pTo.value].len == m[pTo.value].totLen && m[pTo.value].next != None {
        QueueIsNotPacket(m0, T, j);
        return Some(ErrVal);
      }
    }
    return if pFrom == None then Some(Ok) else None;
  }
}
