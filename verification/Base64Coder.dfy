/** The Base64 coder on blocks of the heap of the TCP/IP stack, whose sizes have 16 bits. */
module Base64Coder {
  import opened Wrappers
  import opened BlockLayout
  import opened LwipHeap
  import opened LwipHeapLaws
  import opened Base64

  /** What a block of memory holds after `text` was stored from its start on, one octet after the other:
      octets behind its end are lost to it. */
  ghost predicate Holds(block: seq<Octet>, text: seq<Octet>) {
    forall i :: 0 <= i < |text| && i < |block| ==> block[i] == text[i]
  }

  /** A block of the heap with the pointer through which it is filled. */
  class Buffer {
    const block: array<Octet>
    var pos: nat
    /** Whether every store so far was inside the block. */
    var inside: bool
    /** Everything that was stored, wherever it went. */
    ghost var text: seq<Octet>

    ghost predicate Valid()
      reads this, block
    {
      pos == |text| && (inside <==> pos <= block.Length) && Holds(block[..], text)
    }

    constructor (size: nat)
      ensures Valid() && fresh(block) && block.Length == size && text == []
    {
      block := new Octet[size];
      pos, inside := 0, true;
      text := [];
    }

    /** `*pos++ = c` */
    method Put(c: Octet)
      requires Valid()
      modifies this, block
      ensures Valid() && text == old(text) + [c]
    {
      if pos < block.Length {
        block[pos] := c;
      } else {
        inside := false;
      }
      pos := pos + 1;
      text := text + [c];
    }

    /** Four stores. */
    method PutQuad(q: seq<Octet>)
      requires Valid() && |q| == 4
      modifies this, block
      ensures Valid() && text == old(text) + q
    {
      Put(q[0]);
      Put(q[1]);
      Put(q[2]);
      Put(q[3]);
    }
  }

  // ----- the encoder -----

  /** The loop of base64_encode over the full groups. */
  method EncodeLines(src: seq<Octet>, out: Buffer) returns (i: nat, lineLen: nat)
    requires out.Valid() && out.text == []
    modifies out, out.block
    ensures out.Valid() && i == |src| / 3 * 3 && Stored(Groups(src), |src| / 3, out.text, lineLen)
  {
    i, lineLen := 0, 0;
    ghost var g := Groups(src);
    ghost var k: nat := 0;
    while |src| - i >= 3
      invariant i == 3 * k <= |src| && out.Valid() && Stored(g, k, out.text, lineLen)
    {
      StoredMore(g, k, out.text, lineLen);
      out.PutQuad(Quad(src[i], src[i + 1], src[i + 2]));
      lineLen := lineLen + 4;
      if lineLen >= 72 {
        out.Put(NEWLINE);
        lineLen := 0;
      }
      i := i + 3;
      k := k + 1;
    }
  }

  /** base64_encode. `heap` is the heap of the stack, whose sizes have 16 bits. Where it grants a block,
      the text and its terminator are stored from the start of the block on, and every store is inside the
      block if and only if the computed size is at most 65532. */
  method Encode(heap: Heap, src: seq<Octet>) returns (r: Option<(array<Octet>, nat)>, inside: bool)
    requires heap.Valid()
    modifies heap, heap.ram
    ensures heap.Valid() && heap.layout == MallocLayout(old(heap.layout), BufferSize(|src|) % 0x1_0000)
    ensures var m := MallocResult(old(heap.layout), BufferSize(|src|) % 0x1_0000);
      && (r.Some? <==> m.Some?)
      && (r.Some? ==> Live(heap.layout, m.value) && r.value.0.Length == Payload(BlockOf(heap.layout, m.value), HEAP))
    ensures r.Some? ==> var (out, len) := r.value;
      && fresh(out) && len == |Text(src)| && Holds(out[..], Text(src) + [0])
      && (inside <==> len < out.Length)
      && (inside <==> BufferSize(|src|) <= 65532)
    ensures r.None? ==> inside
  {
    var grant := Request(heap, BufferSize(|src|));
    if grant == None {
      return None, true;
    }
    TextFits(src);
    var out := new Buffer(grant.value.room);
    var i, lineLen := EncodeLines(src, out);
    NothingAdded(out.text);
    if |src| - i != 0 {
      out.PutQuad(LastQuad(src[i..]));
      lineLen := lineLen + 4;
    }
    assert out.text == Lines(Groups(src), |src| / 3) + Tail(src);
    NothingAdded(out.text);
    if lineLen != 0 {
      out.Put(NEWLINE);
    }
    assert out.text == Text(src);
    var len := out.pos;
    out.Put(0);
    return Some((out.block, len)), out.inside;
  }

  lemma NothingAdded(t: seq<Octet>)
    ensures t + [] == t
  {
  }

  /** An input for which the stores leave the block: 49152 octets ask a fresh heap for 66451 bytes, which
      16 bits cut to 915; it grants 916, and 66448 octets are stored. */
  lemma {:induction false} EncodeOverrun(src: seq<Octet>)
    requires |src| == 49152
    ensures var L := [Block(0, MEM_SIZE_ALIGNED, false)]; var n := BufferSize(|src|);
      && n == 66451 && MallocResult(L, n % 0x1_0000) == Some(8)
      && MallocLayout(L, n % 0x1_0000)[0] == Block(0, 8 + 916, true) && |Text(src)| + 1 == 66448
  {
    FreshHeapGrants(915, 916);
    assert |Text(src)| == 4 * 16384 + 16384 / 18 + 1;
  }

  lemma FreshHeapGrants(size: u16, n: nat)
    requires size > 0 && n == Rounded(size) && n + MIN_SIZE_ALIGNED + 2 * SIZEOF_STRUCT_MEM <= MEM_SIZE_ALIGNED
    ensures var L := [Block(0, MEM_SIZE_ALIGNED, false)];
      MallocResult(L, size) == Some(8) && MallocLayout(L, size)[0] == Block(0, 8 + n, true)
  {
    assert FirstFit([Block(0, MEM_SIZE_ALIGNED, false)], 0, n) == 0;
  }

  // ----- the decoder -----

  /** Building the decoder's table. */
  method DecodeTable() returns (dtable: array<Octet>)
    ensures fresh(dtable) && dtable.Length == 256 && forall c :: 0 <= c < 256 ==> dtable[c] == Value(c)
  {
    dtable := new Octet[256](_ => INVALID);
    for i := 0 to 64
      invariant forall c :: 0 <= c < 256 ==> dtable[c] == Find(c, i)
    {
      dtable[Char(i)] := i;
    }
    dtable[PAD] := 0;
  }

  /** The first loop of base64_decode. */
  method CountChars(src: seq<Octet>, dtable: array<Octet>) returns (count: nat)
    requires dtable.Length == 256 && forall c :: 0 <= c < 256 ==> dtable[c] == Value(c)
    ensures count == Counted(src, |src|)
  {
    count := 0;
    for i := 0 to |src|
      invariant count == Counted(src, i)
    {
      if dtable[src[i]] != INVALID {
        count := count + 1;
      }
    }
  }

  /** base64_decode. Where the heap grants a block, every store is inside it if and only if at most 65532
      characters count. Where more count, the heap was only asked for the excess over a multiple of 65536. */
  method Decode(heap: Heap, src: seq<Octet>) returns (r: Option<(array<Octet>, nat)>, inside: bool)
    requires heap.Valid()
    modifies heap, heap.ram
    ensures var n := Counted(src, |src|); var m := MallocResult(old(heap.layout), n % 0x1_0000);
      && heap.Valid() && heap.layout == (if n % 4 == 0 then MallocLayout(old(heap.layout), n % 0x1_0000) else old(heap.layout))
      && (r.Some? <==> n % 4 == 0 && m.Some?)
      && (r.Some? ==> Live(heap.layout, m.value) && r.value.0.Length == Payload(BlockOf(heap.layout, m.value), HEAP))
    ensures r.Some? ==> var (out, len) := r.value;
      && fresh(out) && Decoded(src).Some? && len == |Decoded(src).value| && Holds(out[..], Decoded(src).value)
      && (inside ==> len <= out.Length && Decoded(src) == Some(out[..len]))
      && (inside <==> Counted(src, |src|) <= 65532)
    ensures r.None? ==> inside
  {
    var dtable := DecodeTable();
    var count := CountChars(src, dtable);
    DecodedExists(src);
    if count % 4 != 0 {
      return None, true;
    }
    var grant := Request(heap, count);
    if grant == None {
      return None, true;
    }
    var out, len;
    out, len, inside := DecodeInto(src, dtable, grant.value.room);
    return Some((out, len)), inside;
  }

  /** base64_decode behind the allocation: the stores into a block of `room` bytes. */
  method DecodeInto(src: seq<Octet>, dtable: array<Octet>, room: nat) returns (block: array<Octet>, len: nat, inside: bool)
    requires dtable.Length == 256 && forall c :: 0 <= c < 256 ==> dtable[c] == Value(c)
    requires Counted(src, |src|) % 4 == 0 && Counted(src, |src|) > 0
    ensures fresh(block) && block.Length == room && (inside <==> 3 * Counted(src, |src|) <= 4 * room)
    ensures Decoded(src).Some? && len == |Decoded(src).value| && Holds(block[..], Decoded(src).value)
    ensures inside ==> len <= room && Decoded(src).value == block[..len]
  {
    var out := new Buffer(room);
    var last := DecodeGroups(src, dtable, out);
    ghost var text := out.text;
    TrimmedIs(src, text, last);
    len := out.pos;
    if len > 0 {
      if last[2] == PAD {
        len := len - 2;
      } else if last[3] == PAD {
        len := len - 1;
      }
    }
    assert out.inside ==> out.block[..len] == text[..|text| - Padding(last)];
    return out.block, len, out.inside;
  }

  /** `*pos++ = …` for the three octets of a group. */
  method PutOctets(out: Buffer, block: seq<Octet>)
    requires out.Valid() && |block| == 4
    modifies out, out.block
    ensures out.Valid() && out.text == old(out.text) + Unite(block[0], block[1], block[2], block[3])
  {
    var a: nat, b: nat, c: nat, d: nat := block[0], block[1], block[2], block[3];
    out.Put((a * 4 + b / 16) % 256);
    out.Put((b * 16 + c / 4) % 256);
    out.Put((c * 64 + d) % 256);
  }

  /** The loop of base64_decode. */
  method DecodeGroups(src: seq<Octet>, dtable: array<Octet>, out: Buffer) returns (last: seq<Octet>)
    requires dtable != out.block && dtable.Length == 256 && forall c :: 0 <= c < 256 ==> dtable[c] == Value(c)
    requires out.Valid() && out.text == [] && Counted(src, |src|) % 4 == 0 && Counted(src, |src|) > 0
    modifies out, out.block
    ensures out.Valid() && Holding(src, |src|, out.text, [], [], last) && out.text != [] && |last| == 4
    ensures 4 * |out.text| == 3 * Counted(src, |src|)
  {
    var chars: seq<Octet>, block: seq<Octet> := [], [];
    last := [];
    for i := 0 to |src|
      invariant out.Valid() && Holding(src, i, out.text, chars, block, last)
      invariant forall c :: 0 <= c < 256 ==> dtable[c] == Value(c)
    {
      var tmp := dtable[src[i]];
      HoldingStep(src, i, out.text, chars, block, last);
      if tmp != INVALID {
        chars := chars + [src[i]];
        block := block + [tmp];
        if |block| == 4 {
          PutOctets(out, block);
          last := chars;
          chars, block := [], [];
        }
      }
    }
    HoldingEnds(src, out.text, chars, block, last);
  }

  /** An input for which the stores leave the block: with 65540 characters that count, a fresh heap is asked
      for four bytes and grants twelve, and 49155 octets are stored. */
  lemma {:induction false} DecodeOverrun() returns (src: seq<Octet>)
    ensures var L := [Block(0, MEM_SIZE_ALIGNED, false)]; var n := Counted(src, |src|);
      && n == 65540 && MallocResult(L, n % 0x1_0000) == Some(8)
      && MallocLayout(L, n % 0x1_0000)[0] == Block(0, 8 + 12, true) && |Base64.Run(START, src, |src|).out| == 49155
  {
    src := seq(65540, _ => Char(0));
    AllCount(src, |src|);
    RunCounts(src, |src|);
    FreshHeapGrants(4, 12);
  }

  lemma {:induction false} AllCount(src: seq<Octet>, n: nat)
    requires n <= |src| && forall c :: c in src ==> c == Char(0)
    ensures Counted(src, n) == n
  {
    if n > 0 {
      AllCount(src, n - 1);
      ValueOfChar(0);
      assert src[n - 1] in src;
    }
  }
}
