/** Reading a TCP stream through lwip_recvfrom: reads of any size over received packets of any size,
    with the rest of a packet kept for the next read. */
module Recvfrom {
  import opened Wrappers
  import opened PbufChain
  import opened PbufData

  datatype NetErr = Closed | Timeout | Reset | Aborted | Other

  /** What one round finds in `rcvevent`, which other threads change: before it fetches, and at its end. */
  datatype Events = Events(before: int, after: int)

  /** What round `i` finds; when nothing is given, no event. */
  function EventsOf(events: seq<Events>, i: nat): Events {
    if i < |events| then events[i] else Events(0, 0)
  }

  datatype Errno = NoError | WouldBlock | FromErr(err: NetErr)

  /** A received packet: a buffer chain in its memory, and whether its segment had the PSH flag. */
  datatype Segment = Segment(mem: Memory, chain: seq<Addr>, push: bool)

  /** What one call of netconn_recv_tcp_pbuf returns. */
  datatype Arrival = Data(segment: Segment) | Error(err: NetErr)

  /** Result `i` of fetching; after the last of them the connection stays closed. */
  function At(arrivals: seq<Arrival>, i: nat): Arrival {
    if i < |arrivals| then arrivals[i] else Error(Closed)
  }

  /** TCP hands over intact chains that hold at least one byte and fit a 16-bit length. */
  ghost predicate GoodSegment(s: Segment) {
    && IsChain(s.mem, s.chain) && Totals(s.mem, s.chain)
    && 0 < |Flat(s.mem, s.chain)| < 0x1_0000
  }

  ghost predicate GoodArrival(arrivals: seq<Arrival>, i: nat) {
    At(arrivals, i).Data? ==> GoodSegment(At(arrivals, i).segment)
  }

  ghost predicate GoodScript(arrivals: seq<Arrival>) {
    forall i: nat {:trigger GoodArrival(arrivals, i)} :: GoodArrival(arrivals, i)
  }

  ghost function Content(s: Segment): seq<byte> {
    Flat(s.mem, s.chain)
  }

  /** The stream: the bytes of the first `n` arrivals. */
  ghost function Received(arrivals: seq<Arrival>, n: nat): seq<byte> {
    if n == 0 then []
    else Received(arrivals, n - 1) + (if At(arrivals, n - 1).Data? then Content(At(arrivals, n - 1).segment) else [])
  }

  /** More arrivals only extend the stream. */
  lemma {:induction false} ReceivedGrows(arrivals: seq<Arrival>, m: nat, n: nat)
    requires m <= n
    ensures Received(arrivals, m) <= Received(arrivals, n)
  {
    if m < n {
      ReceivedGrows(arrivals, m, n - 1);
    }
  }

  /** How fetching ends a read, if it does: there is no packet left over, and it would have to wait or gives an error. */
  ghost function Ending(arrivals: seq<Arrival>, f: nat, last: Option<Segment>, dontWait: bool, rcvevent: int): Option<Errno> {
    if last.Some? then None
    else if dontWait && rcvevent <= 0 then Some(WouldBlock)
    else match At(arrivals, f)
      case Data(_) => None
      case Error(err) => Some(FromErr(err))
  }

  /** The packet to read: what was left over, or the next one. */
  ghost function Current(arrivals: seq<Arrival>, f: nat, last: Option<Segment>): Segment
    requires last.Some? || At(arrivals, f).Data?
  {
    if last.Some? then last.value else At(arrivals, f).segment
  }

  ghost function Left(last: Option<Segment>, offset: nat): seq<byte>
    requires last.Some? ==> offset <= |Content(last.value)|
  {
    if last.Some? then Content(last.value)[offset..] else []
  }

  lemma {:induction false} SegmentLength(s: Segment)
    requires GoodSegment(s)
    ensures s.chain[0] in s.mem && s.mem[s.chain[0]].totLen == |Content(s)|
  {
    TotalIsLength(s.mem, s.chain, 0);
    assert s.chain[0..] == s.chain;
  }

  /** None of these arrivals ends a read: they are all data without the PSH flag. */
  ghost predicate NoPush(arrivals: seq<Arrival>, from: nat, to: nat) {
    forall i {:trigger At(arrivals, i)} :: from <= i < to ==> At(arrivals, i).Data? && !At(arrivals, i).segment.push
  }

  /** The rest of a packet is enough for a read of `len` bytes, or the read must end with it. */
  ghost predicate Spared(last: Option<Segment>, offset: nat, len: nat)
    requires last.Some? ==> offset <= |Content(last.value)|
  {
    last.Some? && (last.value.push || len <= |Left(last, offset)|)
  }

  /** The stream fetched so far is `done` and what is left of the last fetched packet. */
  ghost predicate Reading(arrivals: seq<Arrival>, fetched: nat, last: Option<Segment>, offset: nat, done: seq<byte>) {
    && (last.Some? ==> GoodSegment(last.value) && offset < |Content(last.value)|)
    && (last == None ==> offset == 0)
    && done + Left(last, offset) == Received(arrivals, fetched)
  }

  /** `last'` and `f'` are what is left over and how much has been fetched after fetching, if that was necessary. */
  ghost predicate AfterFetch(arrivals: seq<Arrival>, f: nat, last: Option<Segment>, dontWait: bool, rcvevent: int,
                             stop: Option<Errno>, f': nat, last': Option<Segment>) {
    && stop == Ending(arrivals, f, last, dontWait, rcvevent)
    && f' == f + (if last.Some? || stop == Some(WouldBlock) then 0 else 1)
    && last' == if stop.Some? then None else Some(Current(arrivals, f, last))
  }

  lemma {:induction false} FetchKeeps(arrivals: seq<Arrival>, f: nat, last: Option<Segment>, offset: nat, done: seq<byte>,
                                      dontWait: bool, rcvevent: int, stop: Option<Errno>, f': nat, last': Option<Segment>)
    requires GoodScript(arrivals) && Reading(arrivals, f, last, offset, done)
    requires AfterFetch(arrivals, f, last, dontWait, rcvevent, stop, f', last')
    ensures Reading(arrivals, f', last', offset, done)
  {
    if last == None && stop != Some(WouldBlock) {
      FetchOne(arrivals, f, done);
    }
  }

  lemma {:induction false} FetchOne(arrivals: seq<Arrival>, f: nat, done: seq<byte>)
    requires GoodScript(arrivals) && Reading(arrivals, f, None, 0, done)
    ensures Reading(arrivals, f + 1, if At(arrivals, f).Data? then Some(At(arrivals, f).segment) else None, 0, done)
  {
    assert GoodArrival(arrivals, f);
    NothingMore(done);
    if At(arrivals, f).Data? {
      NothingMore(Content(At(arrivals, f).segment));
    }
  }

  lemma {:induction false} NothingMore(s: seq<byte>)
    ensures s + [] == s && s[0..] == s
  {
  }

  lemma {:induction false} CopyKeeps(arrivals: seq<Arrival>, fetched: nat, s: Segment, offset: nat, done: seq<byte>, n: nat)
    requires Reading(arrivals, fetched, Some(s), offset, done) && offset + n <= |Content(s)|
    ensures |Slice(Content(s), offset, n)| == n
    ensures var last := if offset + n < |Content(s)| then Some(s) else None;
      Reading(arrivals, fetched, last, if last.Some? then offset + n else 0, done + Slice(Content(s), offset, n))
  {
    SliceAndRest(Content(s), offset, n);
    Regrouped(done, Slice(Content(s), offset, n), Content(s)[offset + n..]);
  }

  lemma {:induction false} SliceAndRest(all: seq<byte>, offset: nat, n: nat)
    requires offset + n <= |all|
    ensures |Slice(all, offset, n)| == n && all[offset..] == Slice(all, offset, n) + all[offset + n..]
  {
  }

  lemma {:induction false} Regrouped(a: seq<byte>, b: seq<byte>, c: seq<byte>)
    ensures a + b + c == a + (b + c)
  {
  }

  /** Copy at most `len` bytes out of a packet; how many were copied, and how many are left behind them. */
  method CopySegment(s: Segment, len: nat, offset: nat) returns (part: seq<byte>, copied: nat, left: nat)
    requires GoodSegment(s) && offset <= |Content(s)|
    ensures offset + copied + left == |Content(s)| && part == Slice(Content(s), offset, copied)
    ensures copied == if len > |Content(s)| - offset then |Content(s)| - offset else len
  {
    var p := s.chain[0];
    SegmentLength(s);
    var buflen := s.mem[p].totLen - offset;
    copied := if len > buflen then buflen else len;
    part := CopyPartial(s.mem, Some(p), copied, offset, s.chain);
    left := buflen - copied;
  }

  class Socket {
    /** The successive results of fetching from the connection, and how many have been fetched. */
    const arrivals: seq<Arrival>
    var fetched: nat
    var lastData: Option<Segment>
    var lastOffset: nat
    /** The total passed to netconn_recved. */
    var credit: nat
    /** All bytes returned so far. */
    ghost var delivered: seq<byte>

    ghost predicate Valid()
      reads this
    {
      GoodScript(arrivals) && Reading(arrivals, fetched, lastData, lastOffset, delivered) && credit == |delivered|
    }

    constructor (arrivals: seq<Arrival>)
      requires GoodScript(arrivals)
      ensures Valid() && delivered == [] && this.arrivals == arrivals
    {
      this.arrivals := arrivals;
      fetched, lastData, lastOffset, credit := 0, None, 0, 0;
      delivered := [];
    }

    /** Nothing is lost, repeated or reordered: what reads have returned is the beginning of the stream,
        and exactly the unread rest of one packet is missing from what was fetched. */
    lemma {:induction false} DeliveredIsPrefix(n: nat)
      requires Valid() && fetched <= n
      ensures delivered <= Received(arrivals, n)
      ensures |delivered| == |Received(arrivals, fetched)| - |Left(lastData, lastOffset)|
    {
      ReceivedGrows(arrivals, fetched, n);
    }

    /** netconn_recved. */
    method Recved(n: nat)
      modifies this`credit
      ensures credit == old(credit) + n
    {
      credit := credit + n;
    }

    ghost predicate InCall(done: seq<byte>)
      reads this
    {
      Reading(arrivals, fetched, lastData, lastOffset, done)
    }

    /** Make sure that there is a current packet. A call that is not to wait is refused exactly when there is none
        left over and `rcvevent` tells of none. */
    method Fetch(dontWait: bool, rcvevent: int) returns (stop: Option<Errno>)
      modifies this`fetched, this`lastData
      ensures AfterFetch(arrivals, old(fetched), old(lastData), dontWait, rcvevent, stop, fetched, lastData)
    {
      if lastData.Some? {
        return None;
      }
      if dontWait && rcvevent <= 0 {
        return Some(WouldBlock);
      }
      var a := At(arrivals, fetched);
      fetched := fetched + 1;
      if a.Error? {
        return Some(FromErr(a.err));
      }
      lastData := Some(a.segment);
      return None;
    }

    /** Copy bytes of the current packet behind those stored before, up to `len` in all, and keep the rest of the
        packet or free it. */
    method CopyOut(before: seq<byte>, len: nat, ghost done0: seq<byte>) returns (out: seq<byte>)
      requires lastData.Some? && InCall(done0 + before) && |before| <= len
      modifies this`lastData, this`lastOffset
      ensures InCall(done0 + out) && before <= out
      ensures |out| == |before| +
        (if len - |before| <= |old(Left(lastData, lastOffset))| then len - |before| else |old(Left(lastData, lastOffset))|)
      ensures lastData.Some? ==> |out| == len
    {
      ghost var s := lastData.value;
      var part, copied, left := CopySegment(lastData.value, len - |before|, lastOffset);
      CopyKeeps(arrivals, fetched, s, lastOffset, done0 + before, copied);
      Keep(copied, left);
      out := before + part;
      Regrouped(done0, before, part);
    }

    /** Note how much of the current packet has been copied, or forget it if nothing is left. */
    method Keep(copied: nat, left: nat)
      requires lastData.Some?
      modifies this`lastData, this`lastOffset
      ensures lastData == (if left > 0 then old(lastData) else None)
      ensures lastOffset == if left > 0 then old(lastOffset) + copied else 0
    {
      if left > 0 {
        lastOffset := lastOffset + copied;
      } else {
        lastData := None;
        lastOffset := 0;
      }
    }

    /** One round of lwip_recvfrom, its number `i`, behind the bytes `before` that have been stored. It is the last one
        exactly if no more are wanted, or the packet had the PSH flag, or `rcvevent` tells of no other packet. */
    method Round(before: seq<byte>, len: nat, dontWait: bool, events: seq<Events>, i: nat, ghost done0: seq<byte>,
                 ghost f0: nat, ghost last0: Option<Segment>, ghost offset0: nat)
      returns (stop: Option<Errno>, out: seq<byte>, done: bool)
      requires GoodScript(arrivals) && InCall(done0 + before) && |before| <= len
      requires GoesOn(arrivals, f0, last0, offset0, len, dontWait, events, i, |before|, fetched, lastData, lastOffset, false)
      modifies this`fetched, this`lastData, this`lastOffset
      ensures InCall(done0 + out) && |before| <= |out| <= len
      ensures stop == None && !done ==> |before| < |out|
      ensures stop.Some? ==> out == before
      ensures Goes(arrivals, f0, last0, offset0, len, dontWait, events, if stop.Some? then i else i + 1, |out|,
                   fetched, lastData, lastOffset, stop, done)
    {
      out, done := before, false;
      var now := EventsOf(events, i);
      stop := Fetch(dontWait, now.before);
      FetchKeeps(arrivals, old(fetched), old(lastData), lastOffset, done0 + before, dontWait, now.before, stop, fetched, lastData);
      if stop == None {
        ghost var s, offset, f := lastData.value, lastOffset, fetched;
        var push := lastData.value.push;
        out := CopyOut(before, len, done0);
        done := len - |out| <= 0 || push || now.after <= 0;
        GoesFurther(arrivals, f0, last0, offset0, len, dontWait, events, i, |before|, old(fetched), old(lastData), offset,
                    f, s, |out|, lastData, lastOffset, done);
      }
    }

    /** The loop of lwip_recvfrom, until enough is read or fetching stops it. `rounds` is the number of packets, or
        parts of packets, that it reads. */
    method ReadOn(len: nat, dontWait: bool, events: seq<Events>, ghost done0: seq<byte>)
      returns (stop: Option<Errno>, out: seq<byte>, rounds: nat)
      requires GoodScript(arrivals) && InCall(done0)
      modifies this`fetched, this`lastData, this`lastOffset
      ensures InCall(done0 + out) && |out| <= len
      ensures Goes(arrivals, old(fetched), old(lastData), old(lastOffset), len, dontWait, events, rounds, |out|, fetched, lastData, lastOffset, stop, true)
    {
      ghost var f0, last0, offset0 := fetched, lastData, lastOffset;
      out, stop, rounds := [], None, 0;
      assert done0 + [] == done0;
      var done := false;
      while !done && stop == None
        invariant InCall(done0 + out) && |out| <= len
        invariant Goes(arrivals, f0, last0, offset0, len, dontWait, events, rounds, |out|, fetched, lastData, lastOffset, stop, done)
        decreases stop == None, !done, len - |out|
      {
        stop, out, done := Round(out, len, dontWait, events, rounds, done0, f0, last0, offset0);
        rounds := if stop.Some? then rounds else rounds + 1;
      }
    }

    /** lwip_recvfrom on a TCP socket without MSG_PEEK. `out` is what it stores at the caller's memory. */
    method Recv(len: nat, dontWait: bool, events: seq<Events>) returns (ret: int, errno: Errno, out: seq<byte>, ghost rounds: nat)
      requires Valid()
      modifies this`fetched, this`lastData, this`lastOffset, this`credit, this`delivered
      ensures Valid()
      ensures delivered == old(delivered) + out && |out| <= len
      ensures out != [] ==> ret == |out| && errno == NoError
      ensures out == [] && errno == NoError ==> len == 0 && ret == 0
      ensures errno != NoError ==> out == [] && ret == if errno == FromErr(Closed) then 0 else -1
      ensures errno != NoError ==> old(lastData) == None
      ensures errno == WouldBlock <==> old(lastData) == None && dontWait && EventsOf(events, 0).before <= 0
      ensures errno == WouldBlock ==> fetched == old(fetched)
      ensures errno.FromErr? <==>
        old(lastData) == None && !(dontWait && EventsOf(events, 0).before <= 0) && At(arrivals, old(fetched)).Error?
      ensures errno.FromErr? ==> fetched == old(fetched) + 1 && At(arrivals, old(fetched)) == Error(errno.err)
      ensures Spared(old(lastData), old(lastOffset), len) ==> fetched == old(fetched)
      ensures fetched > old(fetched) ==> NoPush(arrivals, old(fetched), fetched - 1)
      ensures exists stop :: Goes(arrivals, old(fetched), old(lastData), old(lastOffset), len, dontWait, events, rounds, |out|, fetched, lastData, lastOffset, stop, true)
    {
      var stop;
      stop, out, rounds := ReadOn(len, dontWait, events, delivered);
      assert Goes(arrivals, old(fetched), old(lastData), old(lastOffset), len, dontWait, events, rounds, |out|, fetched, lastData, lastOffset, stop, true);
      FetchedIsData(arrivals, old(fetched), old(lastData), old(lastOffset), len, dontWait, events, rounds, |out|, fetched, lastData, lastOffset, stop);
      assert rounds > 0 ==> Reads(arrivals, old(fetched), old(lastData), dontWait, events, 0);
      delivered := delivered + out;
      var off := |out|;
      if off > 0 {
        Recved(off);
        return off, NoError, out, rounds;
      }
      if stop.Some? {
        return if stop == Some(FromErr(Closed)) then 0 else -1, stop.value, out, rounds;
      }
      return 0, NoError, out, rounds;
    }
  }

  /** The packet that a round reads has the PSH flag: what was left over, or what it fetches. */
  ghost predicate Pushed(arrivals: seq<Arrival>, last: Option<Segment>, f: nat) {
    if last.Some? then last.value.push else At(arrivals, f).Data? && At(arrivals, f).segment.push
  }

  /** What has been fetched when `n` rounds have read something. */
  ghost function FetchedBy(f0: nat, last0: Option<Segment>, n: nat): nat {
    if last0.Some? then f0 + (if n > 0 then n - 1 else 0) else f0 + n
  }

  /** Round number `i`, which reads something, is not the last one. */
  ghost predicate NotLast(arrivals: seq<Arrival>, f0: nat, last0: Option<Segment>, events: seq<Events>, i: nat) {
    EventsOf(events, i).after > 0 && !Pushed(arrivals, if i == 0 then last0 else None, FetchedBy(f0, last0, i))
  }

  /** Round number `i` has a packet to read. */
  ghost predicate Reads(arrivals: seq<Arrival>, f0: nat, last0: Option<Segment>, dontWait: bool, events: seq<Events>, i: nat) {
    Ending(arrivals, FetchedBy(f0, last0, i), if i == 0 then last0 else None, dontWait, EventsOf(events, i).before) == None
  }

  /** A read that began with `last0` left over: `n` rounds have read something, and none but the last of them had to
      be the last. The last one is `done` exactly when it had to be the last, or everything is read. */
  ghost predicate GoesOn(arrivals: seq<Arrival>, f0: nat, last0: Option<Segment>, offset0: nat, len: nat, dontWait: bool, events: seq<Events>,
                         n: nat, off: nat, f: nat, last: Option<Segment>, offset: nat, done: bool) {
    && (if last0.Some? then offset0 < |Content(last0.value)| else offset0 == 0)
    && f == FetchedBy(f0, last0, n)
    && (!done ==> last == if n == 0 then last0 else None)
    && (forall i: nat {:trigger Reads(arrivals, f0, last0, dontWait, events, i)} :: i < n ==>
          Reads(arrivals, f0, last0, dontWait, events, i))
    && (forall i: nat {:trigger NotLast(arrivals, f0, last0, events, i)} :: i + 1 < n ==> NotLast(arrivals, f0, last0, events, i))
    && (if n == 0 then off == 0 && offset == offset0 && !done
        else
          && (len > 0 ==> off > 0)
          && (done <==> off == len || !NotLast(arrivals, f0, last0, events, n - 1))
          && (Spared(last0, offset0, len) ==> n == 1 && done))
  }

  /** After `n` rounds there is no packet to read: it would have to wait, or fetching gives an error. */
  ghost predicate Interrupted(arrivals: seq<Arrival>, f0: nat, last0: Option<Segment>, offset0: nat, len: nat, dontWait: bool,
                              events: seq<Events>, n: nat, off: nat, f: nat, stop: Option<Errno>) {
    && GoesOn(arrivals, f0, last0, offset0, len, dontWait, events, n, off, FetchedBy(f0, last0, n), if n == 0 then last0 else None, offset0, false)
    && stop.Some?
    && stop == Ending(arrivals, FetchedBy(f0, last0, n), if n == 0 then last0 else None, dontWait, EventsOf(events, n).before)
    && f == FetchedBy(f0, last0, n) + if stop == Some(WouldBlock) then 0 else 1
  }

  /** A read stops, and is done, exactly where it must: after `n` rounds, the last of which had to be the last, or
      before the first one that has nothing to read. */
  ghost predicate Goes(arrivals: seq<Arrival>, f0: nat, last0: Option<Segment>, offset0: nat, len: nat, dontWait: bool,
                       events: seq<Events>, n: nat, off: nat, f: nat, last: Option<Segment>, offset: nat,
                       stop: Option<Errno>, done: bool) {
    if stop.Some? then Interrupted(arrivals, f0, last0, offset0, len, dontWait, events, n, off, f, stop)
    else GoesOn(arrivals, f0, last0, offset0, len, dontWait, events, n, off, f, last, offset, done)
  }

  /** With what round number `n` reads of the packet `s`, there are `m` bytes in place of `off`. */
  lemma {:induction false} GoesFurther(arrivals: seq<Arrival>, f0: nat, last0: Option<Segment>, offset0: nat, len: nat, dontWait: bool,
                                       events: seq<Events>, n: nat, off: nat, f: nat, last: Option<Segment>, offset: nat,
                                       f': nat, s: Segment, m: nat, last': Option<Segment>, offset': nat, done: bool)
    requires GoesOn(arrivals, f0, last0, offset0, len, dontWait, events, n, off, f, last, offset, false) && off <= len
    requires AfterFetch(arrivals, f, last, dontWait, EventsOf(events, n).before, None, f', Some(s)) && offset < |Content(s)|
    requires m == if len - off <= |Content(s)| - offset then len else off + |Content(s)| - offset
    requires last'.Some? ==> m == len
    requires done <==> m == len || s.push || EventsOf(events, n).after <= 0
    ensures GoesOn(arrivals, f0, last0, offset0, len, dontWait, events, n + 1, m, f', last', offset', done)
  {
    assert Reads(arrivals, f0, last0, dontWait, events, n);
  }

  /** Why a read goes on, and why it stops: it goes on only while `rcvevent` tells of more; and when it stops short of
      `len` bytes although `rcvevent` has told of more, the last packet was pushed, or fetching gave an error, or it
      was not to wait and `rcvevent` told of none when it would have fetched. */
  lemma {:induction false} StopsForAReason(arrivals: seq<Arrival>, f0: nat, last0: Option<Segment>, offset0: nat, len: nat, dontWait: bool,
                                           events: seq<Events>, n: nat, off: nat, f: nat, last: Option<Segment>, offset: nat, stop: Option<Errno>)
    requires Goes(arrivals, f0, last0, offset0, len, dontWait, events, n, off, f, last, offset, stop, true)
    ensures forall i: nat {:trigger EventsOf(events, i)} :: i + 1 < n ==> EventsOf(events, i).after > 0
    ensures 0 < off < len ==> n > 0
    ensures 0 < off < len && EventsOf(events, n - 1).after > 0 ==>
      || (n == 1 && last0.Some? && last0.value.push)
      || (f > f0 && (if At(arrivals, f - 1).Data? then At(arrivals, f - 1).segment.push else true))
      || (dontWait && EventsOf(events, n).before <= 0)
  {
    forall i: nat {:trigger EventsOf(events, i)} | i + 1 < n ensures EventsOf(events, i).after > 0 {
      assert NotLast(arrivals, f0, last0, events, i);
    }
    assert n > 0 ==> Reads(arrivals, f0, last0, dontWait, events, n - 1);
  }

  /** All that a read has fetched is data, and nothing but the last of it is pushed. */
  lemma {:induction false} FetchedIsData(arrivals: seq<Arrival>, f0: nat, last0: Option<Segment>, offset0: nat, len: nat, dontWait: bool,
                                         events: seq<Events>, n: nat, off: nat, f: nat, last: Option<Segment>, offset: nat, stop: Option<Errno>)
    requires Goes(arrivals, f0, last0, offset0, len, dontWait, events, n, off, f, last, offset, stop, true)
    ensures f > f0 ==> NoPush(arrivals, f0, f - 1)
    ensures Spared(last0, offset0, len) ==> f == f0
  {
    forall k {:trigger At(arrivals, k)} | f0 <= k < f - 1
      ensures At(arrivals, k).Data? && !At(arrivals, k).segment.push
    {
      var i := k - f0 + if last0.Some? then 1 else 0;
      assert Reads(arrivals, f0, last0, dontWait, events, i);
      assert NotLast(arrivals, f0, last0, events, i);
    }
  }
}
