/** Chains of packet buffers in memory, and the flat byte sequence a chain stands for. */
module PbufChain {
  import opened Wrappers

  type Addr = nat

  datatype Kind = PbufRam | PbufRom | PbufRef | PbufPool

  /** A buffer: `data` is the memory behind its payload pointer, of which `len` bytes are in use;
      `totLen` caches the number of bytes in use from this buffer to the end of its chain. */
  datatype Pbuf = Pbuf(next: Option<Addr>, data: seq<byte>, len: nat, totLen: nat, ref: nat, kind: Kind)

  type Memory = map<Addr, Pbuf>

  function Bytes(b: Pbuf): seq<byte> {
    if b.len <= |b.data| then b.data[..b.len] else b.data
  }

  /** Buffer `i` of the list `l` is in memory and links to the next one. */
  ghost predicate Links(m: Memory, l: seq<Addr>, i: nat)
    requires i < |l|
  {
    l[i] in m && m[l[i]].next == (if i + 1 < |l| then Some(l[i + 1]) else None) && m[l[i]].len <= |m[l[i]].data|
  }

  ghost predicate Apart(a: Addr, b: Addr) {
    a != b
  }

  ghost predicate NoDup(l: seq<Addr>) {
    forall i, j {:trigger Apart(l[i], l[j])} :: 0 <= i < j < |l| ==> Apart(l[i], l[j])
  }

  /** Every other element of a list without repetitions differs from element `j`. */
  lemma {:induction false} OthersDiffer(l: seq<Addr>, j: nat)
    requires NoDup(l) && j < |l|
    ensures forall i :: 0 <= i < |l| && i != j ==> l[i] != l[j]
  {
    forall i | 0 <= i < |l| && i != j ensures l[i] != l[j] {
      assert i < j ==> Apart(l[i], l[j]);
      assert j < i ==> Apart(l[j], l[i]);
    }
  }

  /** The buffers of `l`, in that order, are a whole chain. */
  ghost predicate IsChain(m: Memory, l: seq<Addr>) {
    && l != [] && NoDup(l)
    && forall i {:trigger Links(m, l, i)} :: 0 <= i < |l| ==> Links(m, l, i)
  }

  /** The invariant documented for `tot_len`. */
  ghost predicate TotalAt(m: Memory, a: Addr) {
    a in m && m[a].totLen == m[a].len + (if m[a].next.Some? && m[a].next.value in m then m[m[a].next.value].totLen else 0)
  }

  /** The cached length is right and fits its 16-bit field. */
  ghost predicate GoodTotal(m: Memory, a: Addr) {
    TotalAt(m, a) && m[a].totLen < 0x1_0000
  }

  ghost predicate AllTotals(m: Memory) {
    forall a {:trigger GoodTotal(m, a)} :: a in m ==> GoodTotal(m, a)
  }

  ghost predicate Totals(m: Memory, l: seq<Addr>) {
    forall i {:trigger TotalAt(m, l[i])} :: 0 <= i < |l| ==> TotalAt(m, l[i])
  }

  ghost function Flat(m: Memory, l: seq<Addr>): seq<byte> {
    if l == [] then []
    else (if l[0] in m then Bytes(m[l[0]]) else []) + Flat(m, l[1..])
  }

  /** `s` with the bytes from `k` on replaced by `b`. */
  function Overwrite(s: seq<byte>, k: nat, b: seq<byte>): (r: seq<byte>)
    requires k + |b| <= |s|
    ensures |r| == |s|
  {
    s[..k] + b + s[k + |b|..]
  }

  /** The part of `s` of at most `len` bytes that starts at `offset`. */
  ghost function Slice(s: seq<byte>, offset: nat, len: nat): seq<byte> {
    if offset >= |s| then [] else if offset + len <= |s| then s[offset..offset + len] else s[offset..]
  }

  // ----- laws -----

  /** The slice begins at `offset`, and ends after `len` bytes or with `s`. */
  lemma {:induction false} SliceIs(s: seq<byte>, offset: nat, len: nat)
    ensures var t := Slice(s, offset, len);
      && |t| <= len && (offset >= |s| ==> t == []) && (offset < |s| ==> offset + |t| <= |s| && (|t| == len || offset + |t| == |s|))
      && forall i :: 0 <= i < |t| ==> t[i] == s[offset + i]
  {
  }

  /** Overwriting changes the bytes from `k` on to those of `b`, and no others. */
  lemma {:induction false} OverwriteIs(s: seq<byte>, k: nat, b: seq<byte>)
    requires k + |b| <= |s|
    ensures forall i :: 0 <= i < |s| ==> Overwrite(s, k, b)[i] == if k <= i < k + |b| then b[i - k] else s[i]
  {
  }

  lemma {:induction false} FlatConcat(m: Memory, A: seq<Addr>, B: seq<Addr>)
    ensures Flat(m, A + B) == Flat(m, A) + Flat(m, B)
  {
    if A == [] {
      assert A + B == B;
    } else {
      assert (A + B)[1..] == A[1..] + B;
      FlatConcat(m, A[1..], B);
    }
  }

  /** The bytes of a chain depend only on the contents of its own buffers. */
  lemma {:induction false} FlatFrame(m: Memory, n: Memory, l: seq<Addr>)
    requires forall i :: 0 <= i < |l| ==> l[i] in m && l[i] in n && Bytes(m[l[i]]) == Bytes(n[l[i]])
    ensures Flat(m, l) == Flat(n, l)
  {
    if l != [] {
      FlatFrame(m, n, l[1..]);
    }
  }

  /** Buffer `i` holds the bytes of the chain from the length of what precedes it. */
  lemma {:induction false} FlatAt(m: Memory, l: seq<Addr>, i: nat)
    requires i < |l| && l[i] in m
    ensures Flat(m, l) == Flat(m, l[..i]) + Bytes(m[l[i]]) + Flat(m, l[i + 1..])
    ensures Flat(m, l[..i + 1]) == Flat(m, l[..i]) + Bytes(m[l[i]])
  {
    assert l == l[..i] + ([l[i]] + l[i + 1..]);
    assert l[..i + 1] == l[..i] + [l[i]];
    FlatConcat(m, l[..i], [l[i]] + l[i + 1..]);
    FlatConcat(m, [l[i]], l[i + 1..]);
    FlatConcat(m, l[..i], [l[i]]);
    assert [l[i]][1..] == [];
    assert Flat(m, [l[i]]) == Bytes(m[l[i]]);
  }

  /** In a chain, `totLen` of each buffer is the number of bytes from there on. */
  lemma {:induction false} TotalIsLength(m: Memory, l: seq<Addr>, i: nat)
    requires IsChain(m, l) && Totals(m, l) && i < |l|
    ensures l[i] in m && m[l[i]].totLen == |Flat(m, l[i..])|
    decreases |l| - i
  {
    assert Links(m, l, i) && TotalAt(m, l[i]);
    assert l[i..][1..] == l[i + 1..];
    if i + 1 < |l| {
      TotalIsLength(m, l, i + 1);
    }
  }

  /** MEMCPY into the buffer at `a`, from `off` on. */
  function Written(m: Memory, a: Addr, off: nat, b: seq<byte>): Memory
    requires a in m && off + |b| <= |m[a].data|
  {
    m[a := m[a].(data := Overwrite(m[a].data, off, b))]
  }

  lemma {:induction false} WriteKeepsChain(m: Memory, l: seq<Addr>, a: Addr, off: nat, b: seq<byte>)
    requires IsChain(m, l) && a in m && off + |b| <= |m[a].data|
    ensures IsChain(Written(m, a, off, b), l) && (Totals(m, l) ==> Totals(Written(m, a, off, b), l))
    ensures forall i :: 0 <= i < |l| ==> l[i] in m
  {
    var n := Written(m, a, off, b);
    forall i | 0 <= i < |l| ensures Links(n, l, i) && l[i] in m {
      assert Links(m, l, i);
    }
    if Totals(m, l) {
      forall i | 0 <= i < |l| ensures TotalAt(n, l[i]) {
        assert TotalAt(m, l[i]);
      }
    }
  }

  /** Writing into the bytes in use of buffer `j` overwrites that part of the chain. */
  lemma {:induction false} FlatWrite(m: Memory, l: seq<Addr>, j: nat, off: nat, b: seq<byte>)
    requires IsChain(m, l) && j < |l| && l[j] in m && off + |b| <= m[l[j]].len <= |m[l[j]].data|
    ensures var n := Written(m, l[j], off, b);
      && |Flat(m, l[..j])| + off + |b| <= |Flat(m, l)|
      && Flat(n, l) == Overwrite(Flat(m, l), |Flat(m, l[..j])| + off, b)
      && Flat(n, l[..j]) == Flat(m, l[..j])
  {
    var n := Written(m, l[j], off, b);
    var A, B, C := Flat(m, l[..j]), Bytes(m[l[j]]), Flat(m, l[j + 1..]);
    WriteKeepsOthers(m, l, j, off, b);
    FlatAt(m, l, j);
    FlatAt(n, l, j);
    WrittenBytes(m, l[j], off, b);
    OverwriteMiddle(A, B, C, off, b);
    assert Flat(n, l) == A + Overwrite(B, off, b) + C;
  }

  /** What precedes and what follows a buffer does not change when it is written to. */
  lemma {:induction false} WriteKeepsOthers(m: Memory, l: seq<Addr>, j: nat, off: nat, b: seq<byte>)
    requires IsChain(m, l) && j < |l| && l[j] in m && off + |b| <= |m[l[j]].data|
    ensures var n := Written(m, l[j], off, b);
      Flat(n, l[..j]) == Flat(m, l[..j]) && Flat(n, l[j + 1..]) == Flat(m, l[j + 1..])
  {
    var n := Written(m, l[j], off, b);
    WriteKeepsChain(m, l, l[j], off, b);
    OthersDiffer(l, j);
    FlatFrame(m, n, l[..j]);
    FlatFrame(m, n, l[j + 1..]);
  }

  lemma {:induction false} SliceOfMiddle(A: seq<byte>, B: seq<byte>, C: seq<byte>, off: nat, n: nat)
    requires off + n <= |B|
    ensures (A + B + C)[|A| + off..|A| + off + n] == B[off..off + n]
  {
  }

  lemma {:induction false} SliceOfPrefix(s: seq<byte>, len: nat, c: nat, d: nat)
    requires c <= d <= len <= |s|
    ensures s[..len][c..d] == s[c..d]
  {
  }

  lemma {:induction false} WrittenBytes(m: Memory, a: Addr, off: nat, b: seq<byte>)
    requires a in m && off + |b| <= m[a].len <= |m[a].data|
    ensures Bytes(Written(m, a, off, b)[a]) == Overwrite(Bytes(m[a]), off, b)
  {
  }

  lemma {:induction false} OverwriteMiddle(A: seq<byte>, B: seq<byte>, C: seq<byte>, off: nat, b: seq<byte>)
    requires off + |b| <= |B|
    ensures Overwrite(A + B + C, |A| + off, b) == A + Overwrite(B, off, b) + C
  {
  }
}
