/** What SLIP framing means byte by byte, with the codes of RFC 1055 written out. */
module SlipLaws {
  import opened Wrappers
  import opened SlipCodec

  function Count(s: seq<byte>, c: byte): (n: nat)
    ensures n <= |s|
  {
    if s == [] then 0 else Count(s[..|s| - 1], c) + if s[|s| - 1] == c then 1 else 0
  }

  lemma {:induction false} CountSum(s: seq<byte>, t: seq<byte>, c: byte)
    ensures Count(s + t, c) == Count(s, c) + Count(t, c)
  {
    if t == [] {
      assert s + t == s;
    } else {
      assert (s + t)[..|s + t| - 1] == s + t[..|t| - 1];
      CountSum(s, t[..|t| - 1], c);
    }
  }

  lemma {:induction false} CountOne(a: byte, c: byte)
    ensures Count([a], c) == if a == c then 1 else 0
  {
    assert Count([a][..0], c) == 0;
  }

  lemma {:induction false} CountTwo(a: byte, b: byte, c: byte)
    ensures Count([a, b], c) == (if a == c then 1 else 0) + (if b == c then 1 else 0)
  {
    assert [a, b] == [a] + [b];
    CountSum([a], [b], c);
    CountOne(a, c);
    CountOne(b, c);
  }

  /** The bytes `escape` stand for `c`: 192 is sent as 219 220, 219 as 219 221, and any other byte as itself. */
  ghost predicate StandsFor(escape: seq<byte>, c: byte) {
    escape == if c == 192 then [219, 220] else if c == 219 then [219, 221] else [c]
  }

  lemma {:induction false} Regrouped(a: seq<byte>, b: seq<byte>, c: seq<byte>)
    ensures a + b + c == a + (b + c)
  {
  }

  lemma {:induction false} EscapeOneMore(s: seq<byte>, u: seq<byte>, c: byte)
    requires Escape(s + u) == Escape(s) + Escape(u)
    ensures Escape(s + (u + [c])) == Escape(s) + Escape(u + [c])
  {
    EscapeSnoc(s + u, c);
    EscapeSnoc(u, c);
    Regrouped(s, u, [c]);
    Regrouped(Escape(s), Escape(u), EscapeByte(c));
  }

  /** Escaping is byte by byte, whatever is before or behind. */
  lemma {:induction false} EscapeSum(s: seq<byte>, t: seq<byte>)
    ensures Escape(s + t) == Escape(s) + Escape(t)
  {
    if t == [] {
      assert s + t == s;
    } else {
      var u, c := t[..|t| - 1], t[|t| - 1];
      assert t == u + [c];
      EscapeSum(s, u);
      EscapeOneMore(s, u, c);
    }
  }

  /** What is sent for byte `i` of a packet stands for it, between what is sent for the bytes before and behind. */
  lemma {:induction false} EscapedAt(s: seq<byte>, i: nat)
    requires i < |s|
    ensures StandsFor(EscapeByte(s[i]), s[i])
    ensures Escape(s) == Escape(s[..i]) + EscapeByte(s[i]) + Escape(s[i + 1..])
    ensures Escape([]) == []
  {
    EscapeSnoc(s[..i], s[i]);
    assert s == s[..i] + [s[i]] + s[i + 1..];
    EscapeSum(s[..i] + [s[i]], s[i + 1..]);
  }

  /** A frame begins and ends with the byte 192, and has none in between; between them are as many bytes as the packet
      has, and one more for each 192 or 219. */
  lemma {:induction false} FrameIs(s: seq<byte>)
    ensures Frame(s) == [192] + Escape(s) + [192]
    ensures Count(Escape(s), 192) == 0 && Count(Escape(s), 219) == Count(s, 192) + Count(s, 219)
    ensures |Escape(s)| == |s| + Count(s, 192) + Count(s, 219)
  {
    if s != [] {
      var t, c := s[..|s| - 1], s[|s| - 1];
      FrameIs(t);
      assert Escape(s) == Escape(t) + EscapeByte(c);
      CountSum(Escape(t), EscapeByte(c), 192);
      CountSum(Escape(t), EscapeByte(c), 219);
      CountTwo(219, 220, 192);
      CountTwo(219, 220, 219);
      CountTwo(219, 221, 192);
      CountTwo(219, 221, 219);
      CountOne(c, 192);
      CountOne(c, 219);
    }
  }

  /** What a receiver makes of the byte that follows a 219: 220 is 192, 221 is 219, and any other is kept as it is, even
      a 192, which ends no packet then. It is dropped when the packet is too long. */
  lemma {:induction false} EscapedByte(max: nat, packet: seq<byte>, c: byte)
    ensures RunPackets(max, Rx(false, packet), [219, c]) == []
    ensures var value := if c == 220 then 192 else if c == 221 then 219 else c;
      RunState(max, Rx(false, packet), [219, c]) == Rx(false, if |packet| > max then packet else packet + [value])
  {
    var r := Rx(false, packet);
    RunOne(max, r, 219);
    RunOne(max, Next(max, r, 219), c);
    RunSplit(max, r, [219], [c]);
    assert [219, c] == [219] + [c];
  }

  /** What a receiver makes of any other byte: 192 ends the packet, if it has any bytes, and the others are kept. */
  lemma {:induction false} PlainByte(max: nat, packet: seq<byte>, c: byte)
    requires c != 219
    ensures RunPackets(max, Rx(false, packet), [c]) == if c == 192 && packet != [] then [packet] else []
    ensures RunState(max, Rx(false, packet), [c]) ==
      Rx(false, if c == 192 then [] else if |packet| > max then packet else packet + [c])
  {
    RunOne(max, Rx(false, packet), c);
  }
}
