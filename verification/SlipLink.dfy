/** Both ends of a SLIP line: packets that one side sends from its buffer chains arrive in the chains of the
    other side. */
module SlipLink {
  import opened Wrappers
  import opened PbufChain
  import opened PbufAlloc
  import opened SlipCodec
  import opened SlipInput

  // ----- how many packets a stream of frames begins -----

  lemma {:induction false} BegunSplit(max: nat, r: Rx, s: seq<byte>, t: seq<byte>, n: nat)
    requires n <= |t|
    ensures Begun(max, r, s + t, |s| + n) == Begun(max, r, s, |s|) + Begun(max, RunState(max, r, s), t, n)
  {
    if n == 0 {
      BegunPrefix(max, r, s, t, |s|);
    } else {
      BegunSplit(max, r, s, t, n - 1);
      RunSuffix(max, r, s, t, n - 1);
      assert (s + t)[|s| + n - 1] == t[n - 1];
    }
  }

  lemma {:induction false} BegunPrefix(max: nat, r: Rx, s: seq<byte>, t: seq<byte>, n: nat)
    requires n <= |s|
    ensures Begun(max, r, s + t, n) == Begun(max, r, s, n)
  {
    if n > 0 {
      BegunPrefix(max, r, s, t, n - 1);
      RunPrefix(max, r, s, t, n - 1);
      assert (s + t)[n - 1] == s[n - 1];
    }
  }

  /** The packets that a whole stream begins. */
  ghost function AllBegun(max: nat, r: Rx, s: seq<byte>): nat {
    Begun(max, r, s, |s|)
  }

  lemma {:induction false} BegunConcat(max: nat, r: Rx, s: seq<byte>, t: seq<byte>)
    ensures AllBegun(max, r, s + t) == AllBegun(max, r, s) + AllBegun(max, RunState(max, r, s), t)
  {
    BegunSplit(max, r, s, t, |t|);
  }

  lemma {:induction false} BegunOne(max: nat, r: Rx, c: byte)
    ensures AllBegun(max, r, [c]) == if Begins(r, c) then 1 else 0
  {
    assert StateAt(max, r, [c], 0) == r && Begun(max, r, [c], 0) == 0;
  }

  lemma {:induction false} BegunByte(max: nat, packet: seq<byte>, c: byte)
    ensures AllBegun(max, Rx(false, packet), EscapeByte(c)) == if packet == [] then 1 else 0
  {
    var r, e := Rx(false, packet), EscapeByte(c);
    if |e| == 2 {
      BegunOne(max, r, ESC);
      BegunOne(max, Rx(true, packet), e[1]);
      RunOne(max, r, ESC);
      BegunConcat(max, r, [ESC], [e[1]]);
      assert e == [ESC] + [e[1]];
    } else {
      BegunOne(max, r, c);
    }
  }

  /** The escaped bytes of a packet begin one packet, unless there are none. */
  lemma {:induction false} BegunEscaped(max: nat, s: seq<byte>)
    ensures AllBegun(max, IDLE, Escape(s)) == if s == [] then 0 else 1
  {
    if s != [] {
      var t, c := s[..|s| - 1], s[|s| - 1];
      BegunEscaped(max, t);
      EscapedIsCollected(max, t);
      BegunConcat(max, IDLE, Escape(t), EscapeByte(c));
      BegunByte(max, Fitting(max, t), c);
    }
  }

  lemma {:induction false} BegunFrame(max: nat, s: seq<byte>)
    ensures AllBegun(max, IDLE, Frame(s)) == if s == [] then 0 else 1
  {
    RunOne(max, IDLE, END);
    EscapedIsCollected(max, s);
    BegunOne(max, IDLE, END);
    BegunEscaped(max, s);
    BegunConcat(max, IDLE, [END], Escape(s));
    RunSplit(max, IDLE, [END], Escape(s));
    BegunConcat(max, IDLE, [END] + Escape(s), [END]);
    BegunOne(max, Rx(false, Fitting(max, s)), END);
  }

  /** A stream of frames begins no more packets than there are frames. */
  lemma {:induction false} BegunFrames(max: nat, packets: seq<seq<byte>>)
    ensures AllBegun(max, IDLE, Frames(packets)) <= |packets|
  {
    if packets != [] {
      var init := packets[..|packets| - 1];
      BegunFrames(max, init);
      FramesAreReceived(max, init);
      BegunFrame(max, packets[|packets| - 1]);
      BegunConcat(max, IDLE, Frames(init), Frame(packets[|packets| - 1]));
    }
  }

  // ----- both loops -----

  /** The chain of packet number `i` begins at `heads[i]`. */
  ghost predicate IsPacketAt(m: Memory, heads: seq<Addr>, chains: seq<seq<Addr>>, i: nat)
    requires |chains| == |heads| && i < |heads|
  {
    IsChain(m, chains[i]) && chains[i][0] == heads[i]
  }

  /** The bytes of the first `n` packets. */
  ghost function Packets(m: Memory, chains: seq<seq<Addr>>, n: nat): (p: seq<seq<byte>>)
    requires n <= |chains|
    ensures |p| == n && forall i :: 0 <= i < n ==> p[i] == Flat(m, chains[i])
  {
    if n == 0 then [] else Packets(m, chains, n - 1) + [Flat(m, chains[n - 1])]
  }

  /** slipif_output for one packet after the other. */
  method SendAll(m: Memory, heads: seq<Addr>, ghost chains: seq<seq<Addr>>) returns (line: seq<byte>)
    requires |chains| == |heads| && forall i {:trigger IsPacketAt(m, heads, chains, i)} :: 0 <= i < |heads| ==> IsPacketAt(m, heads, chains, i)
    ensures line == Frames(Packets(m, chains, |chains|))
  {
    line := [];
    for i := 0 to |heads|
      invariant line == Frames(Packets(m, chains, i))
    {
      assert IsPacketAt(m, heads, chains, i);
      var frame := Output(m, heads[i], chains[i]);
      ghost var more := Packets(m, chains, i + 1);
      assert more[..|more| - 1] == Packets(m, chains, i);
      line := line + frame;
    }
  }

  /** What is sent from any chains, however they are divided into buffers, is what the other side hands on, if
      its pool is never short of buffers: every packet that is not empty, in order, shortened to what fits. It is
      the list that was sent if and only if all packets have between one and `max + 1` bytes. Two buffers for each
      packet are enough. */
  method Transfer(m: Memory, heads: seq<Addr>, ghost chains: seq<seq<Addr>>, r: Receiver, stale: seq<byte>)
    returns (ghost packets: seq<seq<byte>>, ghost levels: seq<nat>, lost: nat)
    requires |chains| == |heads| && forall i {:trigger IsPacketAt(m, heads, chains, i)} :: 0 <= i < |heads| ==> IsPacketAt(m, heads, chains, i)
    requires r.Valid() && r.State() == IDLE && |stale| == POOL_BUFSIZE
    modifies r, r.store
    ensures r.Valid() && (lost == 0 <==> Sufficient(levels))
    ensures var sent := Packets(m, chains, |chains|);
      && (lost == 0 ==> r.State() == IDLE && packets == Delivered(r.max, sent))
      && (lost == 0 ==> (packets == sent <==> AllFit(r.max, sent)))
    ensures r.max + 1 < CHUNK && |old(r.store.poolFree)| >= 2 * |heads| ==> lost == 0
  {
    ghost var sent := Packets(m, chains, |chains|);
    var line := SendAll(m, heads, chains);
    BegunFrames(r.max, sent);
    FramesAreReceived(r.max, sent);
    RoundTrip(r.max, sent);
    packets, levels, lost := r.Poll(line, stale);
  }
}
