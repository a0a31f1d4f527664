/** SLIP framing (RFC 1055, PROTOCOL section): what is sent for a packet, what a receiver makes of a byte
    stream, and that the second undoes the first. */
module SlipCodec {
  import opened Wrappers
  import opened PbufChain
  import opened PbufData

  const END: byte := 0xC0
  const ESC: byte := 0xDB
  const ESC_END: byte := 0xDC
  const ESC_ESC: byte := 0xDD

  // ----- sending -----

  ghost function EscapeByte(c: byte): seq<byte> {
    if c == END then [ESC, ESC_END] else if c == ESC then [ESC, ESC_ESC] else [c]
  }

  ghost function Escape(s: seq<byte>): seq<byte> {
    if s == [] then [] else Escape(s[..|s| - 1]) + EscapeByte(s[|s| - 1])
  }

  ghost function Frame(s: seq<byte>): seq<byte> {
    [END] + Escape(s) + [END]
  }

  ghost function Frames(packets: seq<seq<byte>>): seq<byte> {
    if packets == [] then [] else Frames(packets[..|packets| - 1]) + Frame(packets[|packets| - 1])
  }

  lemma {:induction false} EscapeSnoc(s: seq<byte>, c: byte)
    ensures Escape(s + [c]) == Escape(s) + EscapeByte(c)
  {
  }

  /** What has been sent once the bytes `s` of a packet are out. */
  ghost predicate Sent(out: seq<byte>, s: seq<byte>) {
    out == [END] + Escape(s)
  }

  lemma {:induction false} SentMore(out: seq<byte>, s: seq<byte>, b: Pbuf, i: nat)
    requires i < b.len <= |b.data| && Sent(out, s + b.data[..i])
    ensures Sent(out + EscapeByte(b.data[i]), s + b.data[..i + 1])
  {
    var t := s + b.data[..i];
    EscapeSnoc(t, b.data[i]);
    assert t + [b.data[i]] == s + b.data[..i + 1];
    assert [END] + (Escape(t) + EscapeByte(b.data[i])) == out + EscapeByte(b.data[i]);
  }

  /** slipif_output: `out` is what it sends for the packet in the chain `l`, however the packet is divided
      into buffers. */
  method Output(m: Memory, p: Addr, ghost l: seq<Addr>) returns (out: seq<byte>)
    requires IsChain(m, l) && l[0] == p
    ensures out == Frame(Flat(m, l))
  {
    out := [END];
    ghost var k: nat := 0;
    var q := Some(p);
    WalkEnds(m, l);
    while q.Some?
      invariant k <= |l| && q == Head(l, k) && Sent(out, Flat(m, l[..k]))
      decreases |l| - k
    {
      WalkStep(m, l, k);
      FlatAt(m, l, k);
      var b := m[q.value];
      out := OutputBuffer(b, out, Flat(m, l[..k]));
      q := b.next;
      k := k + 1;
    }
    out := out + [END];
  }

  /** The inner loop of slipif_output: the bytes of one buffer. */
  method OutputBuffer(b: Pbuf, out0: seq<byte>, ghost sent: seq<byte>) returns (out: seq<byte>)
    requires b.len <= |b.data| && Sent(out0, sent)
    ensures Sent(out, sent + Bytes(b))
  {
    out := out0;
    var i: nat := 0;
    assert sent + b.data[..0] == sent;
    while i < b.len
      invariant i <= b.len && Sent(out, sent + b.data[..i])
    {
      SentMore(out, sent, b, i);
      var c := b.data[i];
      if c == END {
        out := out + [ESC, ESC_END];
      } else if c == ESC {
        out := out + [ESC, ESC_ESC];
      } else {
        out := out + [c];
      }
      i := i + 1;
    }
  }

  // ----- receiving -----

  /** The receiver between two bytes: whether an escape is pending, and the packet so far. */
  datatype Rx = Rx(escape: bool, packet: seq<byte>)

  const IDLE := Rx(false, [])

  /** A receiver for packets of up to `max` bytes keeps one byte more before it drops the excess. */
  ghost function Keep(max: nat, packet: seq<byte>, c: byte): Rx {
    Rx(false, if |packet| <= max then packet + [c] else packet)
  }

  ghost function Next(max: nat, r: Rx, c: byte): Rx {
    if r.escape then Keep(max, r.packet, if c == ESC_END then END else if c == ESC_ESC then ESC else c)
    else if c == END then IDLE
    else if c == ESC then r.(escape := true)
    else Keep(max, r.packet, c)
  }

  /** The packet that a byte completes, if any. */
  ghost function Completed(r: Rx, c: byte): seq<seq<byte>> {
    if !r.escape && c == END && r.packet != [] then [r.packet] else []
  }

  /** The receiver after the first `n` bytes of a stream. */
  ghost function StateAt(max: nat, r: Rx, s: seq<byte>, n: nat): Rx
    requires n <= |s|
  {
    if n == 0 then r else Next(max, StateAt(max, r, s, n - 1), s[n - 1])
  }

  /** The packets that the first `n` bytes of a stream complete. */
  ghost function PacketsAt(max: nat, r: Rx, s: seq<byte>, n: nat): seq<seq<byte>>
    requires n <= |s|
  {
    if n == 0 then [] else PacketsAt(max, r, s, n - 1) + Completed(StateAt(max, r, s, n - 1), s[n - 1])
  }

  ghost function RunState(max: nat, r: Rx, s: seq<byte>): Rx {
    StateAt(max, r, s, |s|)
  }

  ghost function RunPackets(max: nat, r: Rx, s: seq<byte>): seq<seq<byte>> {
    PacketsAt(max, r, s, |s|)
  }

  /** What happens in a prefix does not depend on what follows it. */
  lemma {:induction false} RunPrefix(max: nat, r: Rx, s: seq<byte>, t: seq<byte>, n: nat)
    requires n <= |s|
    ensures StateAt(max, r, s + t, n) == StateAt(max, r, s, n) && PacketsAt(max, r, s + t, n) == PacketsAt(max, r, s, n)
  {
    if n > 0 {
      RunPrefix(max, r, s, t, n - 1);
      assert (s + t)[n - 1] == s[n - 1];
    }
  }

  lemma {:induction false} RunSuffix(max: nat, r: Rx, s: seq<byte>, t: seq<byte>, n: nat)
    requires n <= |t|
    ensures StateAt(max, r, s + t, |s| + n) == StateAt(max, RunState(max, r, s), t, n)
    ensures PacketsAt(max, r, s + t, |s| + n) == RunPackets(max, r, s) + PacketsAt(max, RunState(max, r, s), t, n)
  {
    if n == 0 {
      RunPrefix(max, r, s, t, |s|);
    } else {
      RunSuffix(max, r, s, t, n - 1);
      assert (s + t)[|s| + n - 1] == t[n - 1];
    }
  }

  lemma {:induction false} RunSplit(max: nat, r: Rx, s: seq<byte>, t: seq<byte>)
    ensures RunState(max, r, s + t) == RunState(max, RunState(max, r, s), t)
    ensures RunPackets(max, r, s + t) == RunPackets(max, r, s) + RunPackets(max, RunState(max, r, s), t)
  {
    RunSuffix(max, r, s, t, |t|);
  }

  /** What fits of a packet. */
  ghost function Fitting(max: nat, s: seq<byte>): seq<byte> {
    if |s| <= max + 1 then s else s[..max + 1]
  }

  lemma {:induction false} FittingSnoc(max: nat, s: seq<byte>, c: byte)
    ensures Rx(false, Fitting(max, s + [c])) == Keep(max, Fitting(max, s), c)
  {
  }

  /** Receiving the escaped bytes of a packet collects what fits of it. */
  lemma {:induction false} EscapedIsCollected(max: nat, s: seq<byte>)
    ensures RunState(max, IDLE, Escape(s)) == Rx(false, Fitting(max, s)) && RunPackets(max, IDLE, Escape(s)) == []
  {
    if s != [] {
      var t, c := s[..|s| - 1], s[|s| - 1];
      assert s == t + [c];
      EscapedIsCollected(max, t);
      RunSplit(max, IDLE, Escape(t), EscapeByte(c));
      ByteIsCollected(max, Fitting(max, t), c);
      FittingSnoc(max, t, c);
    }
  }

  lemma {:induction false} ByteIsCollected(max: nat, packet: seq<byte>, c: byte)
    ensures RunState(max, Rx(false, packet), EscapeByte(c)) == Keep(max, packet, c)
    ensures RunPackets(max, Rx(false, packet), EscapeByte(c)) == []
  {
    var r, e := Rx(false, packet), EscapeByte(c);
    if |e| == 2 {
      RunOne(max, r, e[0]);
      RunOne(max, Next(max, r, e[0]), e[1]);
      RunSplit(max, r, [e[0]], [e[1]]);
      assert e == [e[0]] + [e[1]];
    } else {
      RunOne(max, r, c);
    }
  }

  lemma {:induction false} RunOne(max: nat, r: Rx, c: byte)
    ensures RunState(max, r, [c]) == Next(max, r, c) && RunPackets(max, r, [c]) == Completed(r, c)
  {
    assert StateAt(max, r, [c], 0) == r && PacketsAt(max, r, [c], 0) == [];
  }

  /** The packets that come out for the packets that went in. */
  ghost function Delivered(max: nat, packets: seq<seq<byte>>): seq<seq<byte>> {
    if packets == [] then []
    else Delivered(max, packets[..|packets| - 1]) + Received(max, packets[|packets| - 1])
  }

  ghost function Received(max: nat, s: seq<byte>): seq<seq<byte>> {
    if s == [] then [] else [Fitting(max, s)]
  }

  lemma {:induction false} FrameIsReceived(max: nat, s: seq<byte>)
    ensures RunState(max, IDLE, Frame(s)) == IDLE
    ensures RunPackets(max, IDLE, Frame(s)) == Received(max, s)
  {
    RunOne(max, IDLE, END);
    EscapedIsCollected(max, s);
    RunSplit(max, IDLE, [END], Escape(s));
    RunSplit(max, IDLE, [END] + Escape(s), [END]);
    RunOne(max, Rx(false, Fitting(max, s)), END);
  }

  /** A receiver that starts fresh gets every non-empty packet that was sent, in order, shortened to what
      fits; nothing else comes out, and it is ready for the next frame. */
  lemma {:induction false} FramesAreReceived(max: nat, packets: seq<seq<byte>>)
    ensures RunState(max, IDLE, Frames(packets)) == IDLE
    ensures RunPackets(max, IDLE, Frames(packets)) == Delivered(max, packets)
  {
    if packets != [] {
      var init := packets[..|packets| - 1];
      FramesAreReceived(max, init);
      FrameIsReceived(max, packets[|packets| - 1]);
      RunSplit(max, IDLE, Frames(init), Frame(packets[|packets| - 1]));
    }
  }

  ghost predicate Fits(max: nat, s: seq<byte>) {
    1 <= |s| <= max + 1
  }

  ghost predicate AllFit(max: nat, packets: seq<seq<byte>>) {
    forall i {:trigger Fits(max, packets[i])} :: 0 <= i < |packets| ==> Fits(max, packets[i])
  }

  /** The list comes out as it went in exactly when every packet has at least one byte and at most one
      more than the maximum size. */
  lemma {:induction false} RoundTrip(max: nat, packets: seq<seq<byte>>)
    ensures RunPackets(max, IDLE, Frames(packets)) == packets <==> AllFit(max, packets)
  {
    FramesAreReceived(max, packets);
    DeliveredWhole(max, packets);
  }

  lemma {:induction false} DeliveredWhole(max: nat, packets: seq<seq<byte>>)
    ensures |Delivered(max, packets)| <= |packets|
    ensures Delivered(max, packets) == packets <==> AllFit(max, packets)
  {
    if packets != [] {
      var init, last := packets[..|packets| - 1], packets[|packets| - 1];
      DeliveredWhole(max, init);
      SameEnds(Delivered(max, init), Received(max, last), init, last);
      assert packets == init + [last];
      ReceivedWhole(max, last);
      FitsSnoc(max, init, last);
    }
  }

  lemma {:induction false} FitsSnoc(max: nat, init: seq<seq<byte>>, last: seq<byte>)
    ensures AllFit(max, init + [last]) <==> AllFit(max, init) && Fits(max, last)
  {
    var packets := init + [last];
    if AllFit(max, packets) {
      assert Fits(max, packets[|init|]);
      forall i | 0 <= i < |init| ensures Fits(max, init[i]) {
        assert Fits(max, packets[i]);
      }
    }
  }

  lemma {:induction false} ReceivedWhole(max: nat, s: seq<byte>)
    ensures |Received(max, s)| <= 1 && (Received(max, s) == [s] <==> Fits(max, s))
  {
  }

  /** Two lists are the same when their beginnings and their last elements are. */
  lemma {:induction false} SameEnds(d: seq<seq<byte>>, r: seq<seq<byte>>, init: seq<seq<byte>>, last: seq<byte>)
    requires |d| <= |init| && |r| <= 1
    ensures d + r == init + [last] <==> d == init && r == [last]
  {
    var x, y := d + r, init + [last];
    if x == y {
      assert |d| == |init| && |r| == 1;
      assert x[|d|] == r[0] && y[|init|] == last;
      assert x[..|d|] == d && y[..|init|] == init;
    }
  }
}
