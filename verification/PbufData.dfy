/** Reading from chains: the loops that walk along a chain and copy bytes out of it. */
module PbufData {
  import opened Wrappers
  import opened PbufChain

  /** What the walk along a chain knows about buffer `i`. */
  lemma {:induction false} WalkStep(m: Memory, l: seq<Addr>, i: nat)
    requires IsChain(m, l) && i < |l|
    ensures l[i] in m && m[l[i]].len <= |m[l[i]].data|
    ensures m[l[i]].next == Head(l, i + 1)
    ensures |Flat(m, l[..i + 1])| == |Flat(m, l[..i])| + m[l[i]].len <= |Flat(m, l)|
  {
    assert Links(m, l, i);
    FlatAt(m, l, i);
  }

  /** The pointer to buffer `i`, null behind the last one. */
  ghost function Head(l: seq<Addr>, i: nat): Option<Addr> {
    if i < |l| then Some(l[i]) else None
  }

  lemma {:induction false} WalkEnds(m: Memory, l: seq<Addr>)
    ensures Flat(m, l[..0]) == [] && Flat(m, l[..|l|]) == Flat(m, l)
  {
    assert l[..0] == [] && l[..|l|] == l;
  }

  /** pbuf_get_at: the byte at `offset` of the chain, or zero behind its end. */
  method GetAt(m: Memory, p: Addr, offset: nat, ghost l: seq<Addr>) returns (r: byte)
    requires IsChain(m, l) && l[0] == p
    ensures r == if offset < |Flat(m, l)| then Flat(m, l)[offset] else 0
  {
    ghost var i: nat := 0;
    var q: Option<Addr> := Some(p);
    var from: nat := offset;
    WalkEnds(m, l);
    while q.Some?
      invariant 0 <= i <= |l| && q == Head(l, i)
      invariant offset == |Flat(m, l[..i])| + from
      decreases |l| - i
    {
      WalkStep(m, l, i);
      if m[q.value].len > from {
        PartOfChain(m, l, i, from, 1);
        assert Flat(m, l)[offset] == Flat(m, l)[offset..offset + 1][0];
        return m[q.value].data[from];
      }
      from := from - m[q.value].len;
      q := m[q.value].next;
      i := i + 1;
    }
    return 0;
  }

  lemma {:induction false} PartOfChain(m: Memory, l: seq<Addr>, i: nat, off: nat, n: nat)
    requires IsChain(m, l) && i < |l| && l[i] in m && off + n <= m[l[i]].len <= |m[l[i]].data|
    ensures var pos := |Flat(m, l[..i])| + off;
      pos + n <= |Flat(m, l)| && m[l[i]].data[off..off + n] == Flat(m, l)[pos..pos + n]
  {
    FlatAt(m, l, i);
    SliceOfMiddle(Flat(m, l[..i]), Bytes(m[l[i]]), Flat(m, l[i + 1..]), off, n);
    SliceOfPrefix(m[l[i]].data, m[l[i]].len, off, off + n);
  }

  /** Bytes that follow those already copied extend the copied slice. */
  lemma {:induction false} SliceGrows(F: seq<byte>, offset: nat, len: nat, copied: nat, n: nat)
    requires offset + copied + n <= |F| && copied + n <= len
    ensures Slice(F, offset, copied + n) == Slice(F, offset, copied) + F[offset + copied..offset + copied + n]
    ensures copied + n == |Slice(F, offset, copied + n)|
  {
  }

  lemma {:induction false} CopyStep(m: Memory, l: seq<Addr>, i: nat, offset: nat, len: nat, copied: nat, off: nat, n: nat)
    requires IsChain(m, l) && i < |l| && l[i] in m && off + n <= m[l[i]].len <= |m[l[i]].data|
    requires offset + copied == |Flat(m, l[..i])| + off && copied + n <= len
    ensures var F := Flat(m, l);
      && Slice(F, offset, copied + n) == Slice(F, offset, copied) + m[l[i]].data[off..off + n]
      && copied + n == |Slice(F, offset, copied + n)|
  {
    PartOfChain(m, l, i, off, n);
    SliceGrows(Flat(m, l), offset, len, copied, n);
  }

  /** The copy ends when enough bytes are copied, or at the end of the chain. */
  lemma {:induction false} CopyEnds(F: seq<byte>, offset: nat, len: nat, copied: nat)
    requires copied <= len && copied == |Slice(F, offset, copied)|
    requires copied < len ==> offset + copied >= |F|
    ensures Slice(F, offset, copied) == Slice(F, offset, len)
  {
  }

  /** pbuf_copy_partial: the bytes it stores at the caller's buffer, one after the other, are those of
      the chain from `offset` on, at most `len` of them. A null chain stores nothing. */
  method CopyPartial(m: Memory, buf: Option<Addr>, len: nat, offset: nat, ghost l: seq<Addr>) returns (out: seq<byte>)
    requires buf.Some? ==> IsChain(m, l) && l[0] == buf.value
    ensures out == if buf.Some? then Slice(Flat(m, l), offset, len) else []
  {
    out := [];
    if buf == None {
      return;
    }
    ghost var F := Flat(m, l);
    ghost var i: nat := 0;
    var p := buf;
    var off: nat, rest: nat := offset, len;
    var copied: nat := 0;
    WalkEnds(m, l);
    while rest != 0 && p.Some?
      invariant 0 <= i <= |l| && p == Head(l, i)
      invariant rest + copied == len && |out| == copied && out == Slice(F, offset, copied)
      invariant copied > 0 ==> off == 0
      invariant rest != 0 ==> offset + copied == |Flat(m, l[..i])| + off
      decreases |l| - i
    {
      WalkStep(m, l, i);
      var b := m[p.value];
      if off != 0 && off >= b.len {
        off := off - b.len;
      } else {
        var n := b.len - off;
        if n > rest {
          n := rest;
        }
        CopyStep(m, l, i, offset, len, copied, off, n);
        out := out + b.data[off..off + n];
        copied := copied + n;
        rest := rest - n;
        off := 0;
      }
      p := b.next;
      i := i + 1;
    }
    CopyEnds(F, offset, len, copied);
  }
}
