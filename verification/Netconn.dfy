/** The operations of a blocking-mode TCP connection of the sequential API: a write, close or connect
    that cannot finish at once stays pending until one of the TCP callbacks completes it. */
module Netconn {
  import opened Wrappers

  type Err = int

  const ERR_OK: Err := 0
  const ERR_MEM: Err := -1
  const ERR_INPROGRESS: Err := -5
  const ERR_VAL: Err := -6
  const ERR_WOULDBLOCK: Err := -7
  const ERR_ISCONN: Err := -9
  const ERR_CLSD: Err := -12
  const ERR_CONN: Err := -13

  predicate Fatal(e: Err) {
    e < ERR_ISCONN
  }

  /** Of the error codes, which go down to -15, exactly the aborted, reset, closed and missing connection, the illegal
      argument and the error of the interface are fatal. */
  lemma FatalIs(e: Err)
    requires -15 <= e <= 0
    ensures Fatal(e) <==> e == -10 || e == -11 || e == ERR_CLSD || e == ERR_CONN || e == -14 || e == -15
    ensures ERR_CLSD == -12 && ERR_CONN == -13
  {
  }

  datatype State = Idle | Writing | Listening | Connecting | Closing

  datatype Op = Write(data: seq<byte>, dontBlock: bool) | Close(rx: bool, tx: bool) | Connect | Listen | Delete | Other

  /** A message of an application thread. `len` is the length to write and, afterwards, the length
      written; `acks` counts the signals that were given for it. */
  datatype Request = Request(op: Op, len: nat, err: Err, acks: nat)

  type Log = seq<Request>

  /** A request is answered once unless it is pending. A finished write that reports success had all the
      bytes accepted that it reports, and these are all bytes, unless it was not to block. */
  ghost predicate RequestOk(r: Request, accepted: nat, pending: bool) {
    && r.acks == (if pending then 0 else 1)
    && (if r.op.Write? then accepted <= |r.op.data| else accepted == 0)
    && (r.op.Write? && pending ==> r.len == |r.op.data|)
    && (r.op.Write? && !pending && r.err == ERR_OK ==> accepted == r.len && (r.op.dontBlock || r.len == |r.op.data|))
  }

  /** Request `i` has no answer: it is the pending one, or a connect that was forgotten. */
  ghost predicate Open(current: Option<nat>, lost: set<nat>, i: nat) {
    current == Some(i) || i in lost
  }

  ghost predicate LostConnect(log: Log, i: nat) {
    i < |log| && log[i].op.Connect?
  }

  ghost predicate LogOk(log: Log, accepted: seq<nat>, current: Option<nat>, lost: set<nat>) {
    && |accepted| == |log| && (current.Some? ==> current.value < |log| && current.value !in lost)
    && (forall i {:trigger RequestOk(log[i], accepted[i], Open(current, lost, i))} :: 0 <= i < |log| ==>
        RequestOk(log[i], accepted[i], Open(current, lost, i)))
    && (forall i {:trigger LostConnect(log, i)} :: i in lost ==> LostConnect(log, i))
  }

  /** What TCP has accepted of the first `n` requests. */
  ghost function Sent(log: Log, accepted: seq<nat>, n: nat): seq<byte>
    requires n <= |log| == |accepted|
  {
    if n == 0 then [] else Sent(log, accepted, n - 1) + Part(log[n - 1], accepted[n - 1])
  }

  ghost function Part(r: Request, accepted: nat): seq<byte> {
    if r.op.Write? && accepted <= |r.op.data| then r.op.data[..accepted] else []
  }

  /** None of the requests from `from` on has had bytes accepted. */
  ghost predicate NoneSince(accepted: seq<nat>, from: nat) {
    forall i {:trigger accepted[i]} :: from <= i < |accepted| ==> accepted[i] == 0
  }

  lemma {:induction false} SentFrame(log: Log, log': Log, accepted: seq<nat>, n: nat)
    requires n <= |log| == |accepted| && |log'| == |log| && forall i :: 0 <= i < n ==> log'[i].op == log[i].op
    ensures Sent(log', accepted, n) == Sent(log, accepted, n)
  {
    if n > 0 {
      SentFrame(log, log', accepted, n - 1);
    }
  }

  lemma {:induction false} SentPrefix(log: Log, accepted: seq<nat>, r: Request, n: nat)
    requires n <= |log| == |accepted|
    ensures Sent(log + [r], accepted + [0], n) == Sent(log, accepted, n)
  {
    if n > 0 {
      SentPrefix(log, accepted, r, n - 1);
    }
  }

  /** A new request sends nothing. */
  lemma {:induction false} SentPost(log: Log, accepted: seq<nat>, r: Request)
    requires |log| == |accepted|
    ensures Sent(log + [r], accepted + [0], |log| + 1) == Sent(log, accepted, |log|)
  {
    SentPrefix(log, accepted, r, |log|);
    assert Part(r, 0) == [];
  }

  /** Bytes accepted for the last request that sends anything come right behind those before. */
  lemma {:induction false} SentGrows(log: Log, accepted: seq<nat>, c: nat, k: nat, n: nat)
    requires c < n <= |log| == |accepted| && log[c].op.Write? && accepted[c] + k <= |log[c].op.data|
    requires NoneSince(accepted, c + 1)
    ensures Sent(log, accepted[c := accepted[c] + k], n) ==
      Sent(log, accepted, n) + log[c].op.data[accepted[c]..accepted[c] + k]
  {
    var more := accepted[c := accepted[c] + k];
    if n == c + 1 {
      SentSame(log, accepted, more, c);
      PartGrows(log[c].op.data, Sent(log, accepted, c), accepted[c], k);
    } else {
      SentGrows(log, accepted, c, k, n - 1);
      assert accepted[n - 1] == 0;
      SentSilent(log, accepted, n);
      SentSilent(log, more, n);
    }
  }

  /** A request of which nothing has been accepted sends nothing. */
  lemma {:induction false} SentSilent(log: Log, accepted: seq<nat>, n: nat)
    requires 0 < n <= |log| == |accepted| && accepted[n - 1] == 0
    ensures Sent(log, accepted, n) == Sent(log, accepted, n - 1)
  {
    assert Part(log[n - 1], 0) == [];
  }

  lemma {:induction false} PartGrows(d: seq<byte>, s: seq<byte>, a: nat, k: nat)
    requires a + k <= |d|
    ensures s + d[..a + k] == s + d[..a] + d[a..a + k]
  {
  }

  lemma {:induction false} SentSame(log: Log, accepted: seq<nat>, more: seq<nat>, n: nat)
    requires n <= |log| == |accepted| == |more| && forall i :: 0 <= i < n ==> more[i] == accepted[i]
    ensures Sent(log, more, n) == Sent(log, accepted, n)
  {
    if n > 0 {
      SentSame(log, accepted, more, n - 1);
    }
  }

  /** A request is answered. */
  function Answered(r: Request, err: Err, len: nat): Request {
    r.(err := err, len := len, acks := r.acks + 1)
  }

  lemma LostInside(log: Log, accepted: seq<nat>, current: Option<nat>, lost: set<nat>, i: nat)
    requires LogOk(log, accepted, current, lost)
    ensures i in lost ==> i < |log|
  {
    if i in lost {
      assert LostConnect(log, i);
    }
  }

  lemma LastAnswered(log: Log, r: Request, err: Err, len: nat)
    ensures (log + [r])[|log| := Answered(r, err, len)] == log + [Answered(r, err, len)]
  {
  }

  /** A new request, answered at once or pending. */
  lemma {:induction false} LogPost(log: Log, accepted: seq<nat>, current: Option<nat>, lost: set<nat>, r: Request, pending: bool, from: nat)
    requires LogOk(log, accepted, current, lost) && RequestOk(r, 0, pending) && (pending ==> current == None) && from <= |log|
    requires NoneSince(accepted, from)
    ensures LogOk(log + [r], accepted + [0], if pending then Some(|log|) else current, lost)
    ensures Sent(log + [r], accepted + [0], |log| + 1) == Sent(log, accepted, |log|) && NoneSince(accepted + [0], from)
  {
    SentPost(log, accepted, r);
    var l, a, c := log + [r], accepted + [0], if pending then Some(|log|) else current;
    forall i | i in lost ensures LostConnect(l, i) {
      assert LostConnect(log, i);
    }
    LostInside(log, accepted, current, lost, |log|);
    forall i | 0 <= i < |l| ensures RequestOk(l[i], a[i], Open(c, lost, i)) {
      if i < |log| {
        assert RequestOk(log[i], accepted[i], Open(current, lost, i));
      }
    }
  }

  /** The pending request is answered. */
  lemma {:induction false} LogAnswer(log: Log, accepted: seq<nat>, c: nat, lost: set<nat>, err: Err, len: nat)
    requires LogOk(log, accepted, Some(c), lost)
    requires log[c].op.Write? && err == ERR_OK ==> accepted[c] == len && (log[c].op.dontBlock || len == |log[c].op.data|)
    ensures LogOk(log[c := Answered(log[c], err, len)], accepted, None, lost)
    ensures Sent(log[c := Answered(log[c], err, len)], accepted, |log|) == Sent(log, accepted, |log|)
  {
    var l := log[c := Answered(log[c], err, len)];
    SentFrame(log, l, accepted, |log|);
    forall i | i in lost ensures LostConnect(l, i) {
      assert LostConnect(log, i);
    }
    forall i | 0 <= i < |l| ensures RequestOk(l[i], accepted[i], Open(None, lost, i)) {
      assert RequestOk(log[i], accepted[i], Open(Some(c), lost, i));
    }
  }

  /** TCP accepts the next bytes of the pending write. */
  lemma {:induction false} LogAccept(log: Log, accepted: seq<nat>, c: nat, lost: set<nat>, k: nat)
    requires LogOk(log, accepted, Some(c), lost) && log[c].op.Write? && accepted[c] + k <= |log[c].op.data|
    requires NoneSince(accepted, c + 1)
    ensures LogOk(log, accepted[c := accepted[c] + k], Some(c), lost) && NoneSince(accepted[c := accepted[c] + k], c + 1)
    ensures Sent(log, accepted[c := accepted[c] + k], |log|) ==
      Sent(log, accepted, |log|) + log[c].op.data[accepted[c]..accepted[c] + k]
  {
    SentGrows(log, accepted, c, k, |log|);
    var a := accepted[c := accepted[c] + k];
    forall i | 0 <= i < |log| ensures RequestOk(log[i], a[i], Open(Some(c), lost, i)) {
      assert RequestOk(log[i], accepted[i], Open(Some(c), lost, i));
    }
  }

  /** The pending connect is forgotten without an answer. */
  lemma {:induction false} LogLose(log: Log, accepted: seq<nat>, c: nat, lost: set<nat>)
    requires LogOk(log, accepted, Some(c), lost) && log[c].op.Connect?
    ensures LogOk(log, accepted, None, lost + {c}) && |lost + {c}| == |lost| + 1
  {
    var more := lost + {c};
    forall i | i in more ensures LostConnect(log, i) {
      assert i == c || LostConnect(log, i);
    }
    forall i | 0 <= i < |log| ensures RequestOk(log[i], accepted[i], Open(None, more, i)) {
      assert RequestOk(log[i], accepted[i], Open(Some(c), lost, i));
    }
  }

  /** The bytes offered to tcp_write: no more than fits 16 bits or the send buffer. */
  function Chunk(rest: nat, sndbuf: nat): (n: nat)
    ensures n <= rest && n <= 0xffff && n <= sndbuf
    ensures n == rest || n == 0xffff || n == sndbuf
  {
    var len := if rest > 0xffff then 0xffff else rest;
    if sndbuf < len then sndbuf else len
  }

  /** The stream has got the bytes of the write `r` between two offsets. */
  ghost predicate Extended(r: Request, from: nat, to: nat, before: seq<byte>, after: seq<byte>) {
    r.op.Write? && from <= to <= |r.op.data| && after == before + r.op.data[from..to]
  }

  /** How many bytes do_writemore offers, and the error before TCP is asked. */
  method Offer(rest: nat, dontBlock: bool, sndbuf: nat, werr: Err) returns (len: nat, err: Err)
    requires rest > 0
    ensures len == Chunk(rest, sndbuf) && err == if dontBlock && len == 0 then ERR_WOULDBLOCK else werr
  {
    len := if rest > 0xffff then 0xffff else rest;
    err := werr;
    if sndbuf < len {
      len := sndbuf;
      if dontBlock && len == 0 {
        err := ERR_WOULDBLOCK;
      }
    }
  }

  class Connection {
    var state: State
    var current: Option<nat>
    var writeOffset: nat
    /** Whether there is a protocol control block. */
    var pcb: bool
    var lastErr: Err
    /** All messages so far, and the count of the op_completed semaphore. */
    var log: Log
    var signals: nat
    /** The bytes that tcp_write accepted, for each request and in all. */
    ghost var accepted: seq<nat>
    ghost var stream: seq<byte>
    /** The last request that was written from. */
    ghost var lastWrite: Option<nat>
    /** The connects whose messages were overwritten. */
    ghost var lost: set<nat>

    /** The invariant while the pending write may still be one that must not block. */
    ghost predicate Consistent()
      reads this
    {
      && LogOk(log, accepted, current, lost)
      && signals + |lost| + (if current.Some? then 1 else 0) == |log|
      && (current.Some? <==> state in {Writing, Closing, Connecting})
      && (current.Some? ==> pcb)
      && stream == Sent(log, accepted, |log|)
      && (lastWrite.Some? ==> lastWrite.value < |log| && log[lastWrite.value].op.Write?)
      && NoneSince(accepted, if lastWrite.Some? then lastWrite.value + 1 else 0)
      && (state == Writing ==> current == lastWrite && writeOffset == accepted[lastWrite.value] < log[lastWrite.value].len)
      && (state == Closing ==> log[current.value].op.Close? || log[current.value].op.Delete?)
      && (state == Connecting ==> log[current.value].op.Connect?)
      && (state != Writing ==> (writeOffset > 0 <==> CutShort()))
      && (state != Writing && writeOffset > 0 ==> writeOffset == accepted[lastWrite.value])
    }

    /** The parts of the invariant that do not depend on how far the pending write has come. */
    ghost predicate Unchecked()
      reads this
    {
      && LogOk(log, accepted, current, lost)
      && signals + |lost| + (if current.Some? then 1 else 0) == |log|
      && pcb && stream == Sent(log, accepted, |log|)
      && (lastWrite.Some? ==> lastWrite.value < |log| && log[lastWrite.value].op.Write?)
      && NoneSince(accepted, if lastWrite.Some? then lastWrite.value + 1 else 0)
    }

    /** The last write ended with an error after some of its bytes had been accepted. */
    ghost predicate CutShort()
      reads this
      requires |log| == |accepted| && (lastWrite.Some? ==> lastWrite.value < |log|)
    {
      lastWrite.Some? && log[lastWrite.value].err != ERR_OK && accepted[lastWrite.value] > 0
    }

    ghost predicate Valid()
      reads this
    {
      Consistent() && (state == Writing ==> !log[current.value].op.dontBlock)
    }

    constructor ()
      ensures Valid() && log == [] && signals == 0 && pcb && stream == [] && state == Idle && lastErr == ERR_OK && lost == {}
    {
      state, current, writeOffset, pcb, lastErr, log, signals := Idle, None, 0, true, ERR_OK, [], 0;
      accepted, stream, lastWrite, lost := [], [], None, {};
    }

    /** Answer a request at once. */
    method Reply(op: Op, len: nat, err: Err)
      requires Consistent() && RequestOk(Request(op, len, err, 1), 0, false)
      modifies this`log, this`signals, this`accepted
      ensures Consistent() && log == old(log) + [Request(op, len, err, 1)] && signals == old(signals) + 1
      ensures accepted == old(accepted) + [0]
    {
      LogPost(log, accepted, current, lost, Request(op, len, err, 1), false, if lastWrite.Some? then lastWrite.value + 1 else 0);
      log := log + [Request(op, len, err, 1)];
      accepted := accepted + [0];
      signals := signals + 1;
    }

    /** Make a request the pending one. */
    method Begin(op: Op, len: nat, s: State)
      requires Consistent() && current == None && pcb && RequestOk(Request(op, len, ERR_OK, 0), 0, true)
      requires match op
        case Write(data, _) => s == Writing && len > 0
        case Connect => s == Connecting
        case Close(_, _) => s == Closing
        case Delete => s == Closing
        case _ => false
      modifies this`log, this`accepted, this`state, this`current, this`writeOffset, this`lastWrite
      ensures Consistent() && state == s && current == Some(|old(log)|)
      ensures log == old(log) + [Request(op, len, ERR_OK, 0)] && accepted == old(accepted) + [0]
      ensures writeOffset == if op.Write? then 0 else old(writeOffset)
    {
      LogPost(log, accepted, None, lost, Request(op, len, ERR_OK, 0), true, if lastWrite.Some? then lastWrite.value + 1 else 0);
      current := Some(|log|);
      log := log + [Request(op, len, ERR_OK, 0)];
      accepted := accepted + [0];
      state := s;
      if op.Write? {
        writeOffset := 0;
        lastWrite := current;
      }
    }

    /** Answer the pending request and wake its thread up. */
    method Complete(err: Err, len: nat)
      requires Consistent() && current.Some?
      requires state == Writing ==> err != ERR_OK
      modifies this`log, this`signals, this`state, this`current
      ensures Consistent() && state == Idle && current == None && signals == old(signals) + 1
      ensures var c := old(current).value; log == old(log)[c := Answered(old(log)[c], err, len)]
    {
      var c := current.value;
      assert RequestOk(log[c], accepted[c], Open(current, lost, c));
      LogAnswer(log, accepted, c, lost, err, len);
      log := log[c := Answered(log[c], err, len)];
      current, state := None, Idle;
      signals := signals + 1;
    }

    /** The protocol control block goes. */
    method DropBlock()
      requires Consistent() && current == None
      modifies this`pcb
      ensures Consistent() && !pcb
    {
      pcb := false;
    }

    /** With nothing going on, another idle state is taken up. */
    method SetIdle(s: State)
      requires Consistent() && (s == Idle || s == Listening) && (state == Idle || state == Listening)
      modifies this`state
      ensures Consistent() && state == s
    {
      state := s;
    }

    /** Answer the pending write with success: `writeOffset` bytes are written. */
    method CompleteWrite()
      requires Unchecked() && state == Writing && current.Some? && current == lastWrite && writeOffset == accepted[current.value]
      requires log[current.value].op.dontBlock || writeOffset == log[current.value].len
      modifies this`log, this`signals, this`state, this`current, this`writeOffset
      ensures Consistent() && state == Idle && current == None && signals == old(signals) + 1 && writeOffset == 0
      ensures var c := old(current).value; log == old(log)[c := Answered(old(log)[c], ERR_OK, old(writeOffset))]
    {
      var c := current.value;
      assert RequestOk(log[c], accepted[c], Open(current, lost, c));
      LogAnswer(log, accepted, c, lost, ERR_OK, writeOffset);
      log := log[c := Answered(log[c], ERR_OK, writeOffset)];
      current, state, writeOffset := None, Idle, 0;
      signals := signals + 1;
    }

    /** TCP has taken the next `k` bytes. */
    method Accept(k: nat)
      requires Consistent() && state == Writing && k <= log[current.value].len - writeOffset
      modifies this`stream, this`accepted, this`writeOffset
      ensures Unchecked() && writeOffset == old(writeOffset) + k
      ensures Extended(log[current.value], old(writeOffset), writeOffset, old(stream), stream)
      ensures accepted == old(accepted)[current.value := writeOffset]
      ensures writeOffset < log[current.value].len ==> Consistent()
    {
      var c := current.value;
      assert RequestOk(log[c], accepted[c], Open(current, lost, c));
      ghost var from := writeOffset;
      LogAccept(log, accepted, c, lost, k);
      stream := stream + log[c].op.data[from..from + k];
      accepted := accepted[c := from + k];
      writeOffset := writeOffset + k;
      assert stream == Sent(log, accepted, |log|);
    }

    /** The pending write as tcp_write leaves it. */
    ghost predicate StillWriting(before: Log, signalled: nat, c: nat)
      reads this
    {
      state == Writing && current == Some(c) && log == before && signals == signalled
    }

    /** TCP has taken all that was offered. */
    method Accepted(n: nat)
      requires Consistent() && state == Writing && n <= log[current.value].len - writeOffset
      modifies this`state, this`current, this`writeOffset, this`log, this`signals, this`accepted, this`stream
      ensures Valid()
      ensures var c := old(current).value; var r := old(log)[c]; var total := old(writeOffset) + n;
        && (if total == r.len || r.op.dontBlock then Finished(old(log), old(signals), c, ERR_OK, total)
            else StillWriting(old(log), old(signals), c))
        && Extended(r, old(writeOffset), total, old(stream), stream) && accepted == old(accepted)[c := total]
    {
      ghost var c := current.value;
      assert RequestOk(log[c], accepted[c], Open(current, lost, c));
      Accept(n);
      if writeOffset == log[current.value].len || log[current.value].op.dontBlock {
        CompleteWrite();
      }
    }

    /** The end of do_writemore: TCP has answered `err` to the offer of `n` bytes. */
    method Offered(n: nat, err: Err)
      requires Consistent() && state == Writing && n <= log[current.value].len - writeOffset
      modifies this`state, this`current, this`writeOffset, this`log, this`signals, this`accepted, this`stream
      ensures Valid()
      ensures Went(old(log), old(signals), old(current).value, old(writeOffset), n, err)
      ensures var c := old(current).value; var total := old(writeOffset) + (if err == ERR_OK then n else 0);
        Extended(old(log)[c], old(writeOffset), total, old(stream), stream) && accepted == old(accepted)[c := total]
    {
      var c := current.value;
      var r := log[c];
      assert RequestOk(r, accepted[c], Open(current, lost, c));
      if err == ERR_OK {
        Accepted(n);
      } else if err == ERR_MEM && !r.op.dontBlock {
      } else {
        Complete(err, 0);
      }
    }

    /** What becomes of the pending write `c`: it is over when all is written, when it must not block, and
        on every error but lack of memory, which a blocking write waits out. */
    ghost predicate Went(before: Log, signalled: nat, c: nat, from: nat, n: nat, err: Err)
      requires c < |before| && before[c].op.Write?
      reads this
    {
      var r := before[c];
      if err == ERR_OK && (from + n == r.len || r.op.dontBlock) then Finished(before, signalled, c, ERR_OK, from + n)
      else if err == ERR_OK || (err == ERR_MEM && !r.op.dontBlock) then StillWriting(before, signalled, c)
      else Finished(before, signalled, c, err, 0)
    }

    /** One attempt to write with room for `sndbuf` bytes, which tcp_write answers with `werr`. */
    ghost predicate Attempted(before: Log, signalled: nat, c: nat, from: nat, stream0: seq<byte>, accepted0: seq<nat>,
                              sndbuf: nat, werr: Err)
      requires c < |before| && c < |accepted0| && before[c].op.Write? && from < before[c].len
      reads this
    {
      var r := before[c];
      var n := Chunk(r.len - from, sndbuf);
      var err := if r.op.dontBlock && n == 0 then ERR_WOULDBLOCK else werr;
      var total := from + (if err == ERR_OK then n else 0);
      && Extended(r, from, total, stream0, stream) && accepted == accepted0[c := total]
      && Went(before, signalled, c, from, n, err)
    }

    /** do_writemore: offer the next bytes of the pending write to TCP. `sndbuf` is the room in the send
        buffer and `werr` what tcp_write would return, which accepts all bytes or none. */
    method DoWriteMore(sndbuf: nat, werr: Err)
      requires Consistent() && state == Writing
      modifies this`state, this`current, this`writeOffset, this`log, this`signals, this`accepted, this`stream
      ensures Valid() && pcb
      ensures Attempted(old(log), old(signals), old(current).value, old(writeOffset), old(stream), old(accepted), sndbuf, werr)
    {
      var r := log[current.value];
      var len, err := Offer(r.len - writeOffset, r.op.dontBlock, sndbuf, werr);
      Offered(len, err);
    }

    /** Request `c` has been answered, and nothing is pending any more. */
    ghost predicate Finished(before: Log, signalled: nat, c: nat, err: Err, len: nat)
      requires c < |before|
      reads this
    {
      state == Idle && current == None && signals == signalled + 1 && log == before[c := Request(before[c].op, len, err, before[c].acks + 1)]
    }

    /** Nothing but the answer to a new request has happened. */
    ghost predicate Answers(before: Log, signalled: nat, op: Op, len: nat, err: Err)
      reads this
    {
      log == before + [Request(op, len, err, 1)] && signals == signalled + 1
    }

    /** do_write. `asserted` is whether the assertion in it holds: it fails just when this write follows one
        that was cut short. */
    method DoWrite(data: seq<byte>, dontBlock: bool, sndbuf: nat, werr: Err) returns (asserted: bool)
      requires Valid() && data != []
      modifies this
      ensures lost == old(lost)
      ensures Valid() && |log| == |old(log)| + 1 && log[..|old(log)|] == old(log)
      ensures asserted <==> Fatal(old(lastErr)) || old(state) != Idle || !old(pcb) || !old(CutShort())
      ensures var refusal := if Fatal(old(lastErr)) then old(lastErr) else if old(state) != Idle then ERR_INPROGRESS else ERR_CONN;
        if Fatal(old(lastErr)) || old(state) != Idle || !old(pcb) then
          Answers(old(log), old(signals), Write(data, dontBlock), |data|, refusal) && stream == old(stream)
            && state == old(state) && current == old(current)
        else
          var n := Chunk(|data|, sndbuf);
          var accepts := werr == ERR_OK && !(dontBlock && n == 0);
          && stream == old(stream) + (if accepts then data[..n] else [])
          && (current == Some(|old(log)|) <==> !dontBlock && ((accepts && n < |data|) || werr == ERR_MEM))
          && lastWrite == Some(|old(log)|)
          && (current.Some? ==> state == Writing && writeOffset == if accepts then n else 0)
          && (current == None ==> state == Idle && signals == old(signals) + 1)
          && (current == None ==> log[|old(log)|] == Request(Write(data, dontBlock), if accepts then n else 0,
                                                             if dontBlock && n == 0 then ERR_WOULDBLOCK else werr, 1))
          && (current.Some? ==> log[|old(log)|] == Request(Write(data, dontBlock), |data|, ERR_OK, 0))
    {
      asserted := true;
      if Fatal(lastErr) {
        Reply(Write(data, dontBlock), |data|, lastErr);
      } else if state != Idle {
        Reply(Write(data, dontBlock), |data|, ERR_INPROGRESS);
      } else if pcb {
        asserted := current == None && writeOffset == 0;
        Begin(Write(data, dontBlock), |data|, Writing);
        DoWriteMore(sndbuf, werr);
        assert data[0..] == data;
      } else {
        Reply(Write(data, dontBlock), |data|, ERR_CONN);
      }
    }

    /** do_close_internal: try to close or shut down the connection. `cerr` is what tcp_close or
        tcp_shutdown returns; on failure another callback tries again. */
    method DoCloseInternal(cerr: Err)
      requires Valid() && state == Closing
      modifies this`log, this`signals, this`state, this`current, this`pcb
      ensures Valid()
      ensures Tried(old(log), old(signals), old(current).value, cerr)
    {
      var c := current.value;
      var close := log[c].op.Delete? || (log[c].op.rx && log[c].op.tx);
      if cerr == ERR_OK {
        Complete(ERR_OK, log[c].len);
        if close {
          DropBlock();
        }
      }
    }

    /** One attempt to close, which TCP answers with `cerr`. */
    ghost predicate Tried(before: Log, signalled: nat, c: nat, cerr: Err)
      requires c < |before|
      reads this
    {
      var op := before[c].op;
      if cerr == ERR_OK then
        Finished(before, signalled, c, ERR_OK, before[c].len) && (pcb <==> op.Close? && !(op.rx && op.tx))
      else log == before && signals == signalled && state == Closing && current == Some(c) && pcb
    }

    /** A new request is pending. */
    ghost predicate Pending(before: Log, signalled: nat, op: Op, s: State)
      reads this
    {
      log == before + [Request(op, 0, ERR_OK, 0)] && signals == signalled && state == s && current == Some(|before|) && pcb
    }

    /** do_close. Closing a listening connection does not fail. */
    method DoClose(rx: bool, tx: bool, cerr: Err) returns (asserted: bool)
      requires Valid() && (state == Listening ==> cerr == ERR_OK)
      modifies this
      ensures lost == old(lost)
      ensures Valid() && |log| == |old(log)| + 1 && stream == old(stream)
      ensures var busy := old(state) != Idle && old(state) != Listening;
        var half := !(rx && tx) && old(state) == Listening;
        && (asserted <==> busy || !old(pcb) || half || !old(CutShort()))
        && (if busy || !old(pcb) || half then
              Answers(old(log), old(signals), Close(rx, tx), 0,
                if busy then ERR_INPROGRESS else if !old(pcb) then ERR_VAL else ERR_CONN)
              && state == old(state) && current == old(current)
            else if cerr == ERR_OK then
              Answers(old(log), old(signals), Close(rx, tx), 0, ERR_OK) && state == Idle && (pcb <==> !(rx && tx))
            else Pending(old(log), old(signals), Close(rx, tx), Closing))
    {
      asserted := true;
      if state != Idle && state != Listening {
        Reply(Close(rx, tx), 0, ERR_INPROGRESS);
      } else if pcb {
        if !(rx && tx) && state == Listening {
          Reply(Close(rx, tx), 0, ERR_CONN);
        } else {
          asserted := current == None && writeOffset == 0;
          LastAnswered(log, Request(Close(rx, tx), 0, ERR_OK, 0), ERR_OK, 0);
          Begin(Close(rx, tx), 0, Closing);
          DoCloseInternal(cerr);
        }
      } else {
        Reply(Close(rx, tx), 0, ERR_VAL);
      }
    }

    /** The message of a pending connect is overwritten: nobody will answer it. */
    method Forget()
      requires Consistent() && state == Connecting
      modifies this`state, this`current, this`lost
      ensures Consistent() && state == Idle && current == None && lost == old(lost) + {old(current).value}
      ensures old(current).value !in old(lost) && log[old(current).value].acks == 0
    {
      ghost var c := current.value;
      assert RequestOk(log[c], accepted[c], Open(current, lost, c));
      LogLose(log, accepted, c, lost);
      lost := lost + {c};
      current, state := None, Idle;
    }

    /** The part of do_delconn that closes the connection. */
    method CloseForDelete(cerr: Err)
      requires Valid() && pcb && (state == Idle || state == Listening || state == Connecting)
      modifies this`log, this`signals, this`accepted, this`state, this`current, this`pcb, this`lost, this`writeOffset, this`lastWrite
      ensures Valid() && (current.Some? ==> current == Some(|old(log)|))
      ensures if cerr == ERR_OK then Answers(old(log), old(signals), Delete, 0, ERR_OK) && state == Idle && !pcb
              else Pending(old(log), old(signals), Delete, Closing)
      ensures lost == old(lost) + (if old(state) == Connecting then {old(current).value} else {})
    {
      if state == Connecting {
        Forget();
      }
      LastAnswered(log, Request(Delete, 0, ERR_OK, 0), ERR_OK, 0);
      Begin(Delete, 0, Closing);
      DoCloseInternal(cerr);
    }

    /** do_delconn. `asserted` is whether the two assertions in it hold, that no blocking connect is pending
        and that nothing is left of a write. A pending connect is overwritten by the message of the delete;
        any other pending request goes on and is still the one to be answered. */
    method DoDelete(unset: Err, cerr: Err) returns (asserted: bool)
      requires Valid() && (state == Listening ==> cerr == ERR_OK)
      modifies this
      ensures Valid() && |log| == |old(log)| + 1 && stream == old(stream)
      ensures lost == old(lost) + (if old(state) == Connecting then {old(current).value} else {})
      ensures old(current).Some? ==> old(current).value !in old(lost) && log[old(current).value].acks == 0
      ensures old(current).Some? ==> (current == old(current) <==> old(state) != Connecting)
      ensures var busy := old(state) == Writing || old(state) == Closing;
        && (asserted <==> busy || !old(pcb) || (old(state) != Connecting && !old(CutShort())))
        && (if busy || !old(pcb) then
              Answers(old(log), old(signals), Delete, 0, if busy then ERR_INPROGRESS else unset)
              && state == old(state) && current == old(current)
            else if cerr == ERR_OK then Answers(old(log), old(signals), Delete, 0, ERR_OK) && state == Idle && !pcb
            else Pending(old(log), old(signals), Delete, Closing))
    {
      asserted := true;
      ghost var c := current;
      if c.Some? {
        assert RequestOk(log[c.value], accepted[c.value], Open(current, lost, c.value));
      }
      if state != Idle && state != Listening && state != Connecting {
        Reply(Delete, 0, ERR_INPROGRESS);
      } else if pcb {
        asserted := state != Connecting && current == None && writeOffset == 0;
        CloseForDelete(cerr);
      } else {
        Reply(Delete, 0, unset);
      }
    }

    /** do_connect. `cerr` is what tcp_connect returns. */
    method DoConnect(cerr: Err)
      requires Valid()
      modifies this
      ensures lost == old(lost)
      ensures Valid() && |log| == |old(log)| + 1 && stream == old(stream) && pcb == old(pcb)
      ensures if old(pcb) && old(state) == Idle && cerr == ERR_OK then
          Pending(old(log), old(signals), Connect, Connecting)
        else
          Answers(old(log), old(signals), Connect, 0,
            if !old(pcb) then ERR_CLSD else if old(state) != Idle then ERR_ISCONN else cerr)
          && state == old(state) && current == old(current)
    {
      if !pcb {
        Reply(Connect, 0, ERR_CLSD);
      } else if state != Idle {
        Reply(Connect, 0, ERR_ISCONN);
      } else if cerr == ERR_OK {
        Begin(Connect, 0, Connecting);
      } else {
        Reply(Connect, 0, cerr);
      }
    }

    /** do_connected: the connection is established, or was refused. */
    method DoConnected(err: Err)
      requires Valid() && state == Connecting
      modifies this
      ensures lost == old(lost)
      ensures Valid() && Finished(old(log), old(signals), old(current).value, err, old(log)[old(current).value].len)
      ensures stream == old(stream) && pcb && lastErr == old(lastErr)
    {
      Complete(err, log[current.value].len);
    }

    /** err_tcp: the connection is gone, whatever was pending fails. */
    method ErrTcp(err: Err)
      requires Valid() && pcb && Fatal(err)
      modifies this`lastErr, this`log, this`signals, this`state, this`current, this`pcb
      ensures Valid() && !pcb && lastErr == err && state == Idle && current == None && stream == old(stream)
      ensures if old(current).Some? then
          Finished(old(log), old(signals), old(current).value, err, old(log)[old(current).value].len)
        else log == old(log) && signals == old(signals)
    {
      lastErr := err;
      if state == Writing || state == Closing || state == Connecting {
        Complete(err, log[current.value].len);
      } else {
        SetIdle(Idle);
      }
      DropBlock();
    }

    /** poll_tcp and sent_tcp: go on with a pending write or close. */
    method Again(sndbuf: nat, werr: Err, cerr: Err)
      requires Valid() && pcb
      modifies this
      ensures lost == old(lost)
      ensures Valid()
      ensures old(state) == Writing ==> pcb && lastWrite == old(lastWrite)
      ensures old(state) == Writing ==>
        Attempted(old(log), old(signals), old(current).value, old(writeOffset), old(stream), old(accepted), sndbuf, werr)
      ensures old(state) == Closing ==> Tried(old(log), old(signals), old(current).value, cerr) && stream == old(stream)
      ensures old(state) != Writing && old(state) != Closing ==>
        state == old(state) && current == old(current) && stream == old(stream) && log == old(log) && signals == old(signals) && pcb
    {
      if state == Writing {
        DoWriteMore(sndbuf, werr);
      } else if state == Closing {
        DoCloseInternal(cerr);
      }
    }

    /** do_listen. `lerr` is what tcp_listen gives, `merr` what creating the accept mailbox gives. */
    method DoListen(lerr: Err, merr: Err)
      requires Valid()
      modifies this
      ensures lost == old(lost)
      ensures Valid() && stream == old(stream) && current == old(current)
      ensures var fails := Fatal(old(lastErr)) || !old(pcb) || old(state) != Idle;
        && Answers(old(log), old(signals), Listen, 0,
             if Fatal(old(lastErr)) then old(lastErr) else if fails then ERR_CONN else if lerr != ERR_OK then ERR_MEM else merr)
        && (state == if !fails && lerr == ERR_OK && merr == ERR_OK then Listening else old(state))
        && (pcb <==> old(pcb) && (fails || lerr != ERR_OK || merr == ERR_OK))
    {
      if Fatal(lastErr) {
        Reply(Listen, 0, lastErr);
      } else if !pcb || state != Idle {
        Reply(Listen, 0, ERR_CONN);
      } else if lerr != ERR_OK {
        Reply(Listen, 0, ERR_MEM);
      } else {
        if merr == ERR_OK {
          SetIdle(Listening);
        } else {
          DropBlock();
        }
        Reply(Listen, 0, merr);
      }
    }

    /** The requests that are always answered at once: bind, receive, get an address. */
    method DoOther(err: Err)
      requires Valid()
      modifies this
      ensures lost == old(lost)
      ensures Valid() && Answers(old(log), old(signals), Other, 0, err)
      ensures stream == old(stream) && state == old(state) && current == old(current)
    {
      Reply(Other, 0, err);
    }

    /** NETCONN_SET_SAFE_ERR: remember an error, but never replace a fatal one. */
    method SetSafeErr(err: Err)
      requires Valid()
      modifies this`lastErr
      ensures Valid() && lastErr == if Fatal(old(lastErr)) then old(lastErr) else err
    {
      if !Fatal(lastErr) {
        lastErr := err;
      }
    }

    /** In every reachable state each request has been answered and signalled for exactly once, except the pending one and the
        connects that a delete overwrote, which have not been and, as no operation takes one off, never
        will be; there is a pending one exactly during a write, close or connect; and the bytes TCP has accepted
        are those of the writes, in order. */
    lemma ExactlyOnce(i: nat)
      requires Valid() && i < |log|
      ensures log[i].acks == (if current == Some(i) || i in lost then 0 else 1)
      ensures i in lost ==> log[i].op.Connect? && current != Some(i)
      ensures current.Some? <==> state == Writing || state == Closing || state == Connecting
      ensures signals == |log| - |lost| - (if current.Some? then 1 else 0)
      ensures log[i].op.Write? && current != Some(i) && log[i].err == ERR_OK && !log[i].op.dontBlock ==>
        log[i].len == |log[i].op.data| && accepted[i] == log[i].len
      ensures stream == Sent(log, accepted, |log|)
    {
      assert RequestOk(log[i], accepted[i], Open(current, lost, i));
      if i in lost {
        assert LostConnect(log, i);
      }
    }
  }

  // ----- whose thread a signal wakes up -----

  /** The requests before `n`. */
  ghost function Below(n: nat): (s: set<nat>)
    ensures |s| == n && forall i: nat :: i in s <==> i < n
  {
    if n == 0 then {} else Below(n - 1) + {n - 1}
  }

  /** The thread of request `i` can go on. All threads wait for the one semaphore of the connection: the signals
      that nobody has used yet wake any of them up. `woken` are the requests whose threads have gone on. */
  ghost predicate MayWake(conn: Connection, woken: set<nat>, i: nat)
    reads conn
  {
    i < |conn.log| && i !in woken && |woken| < conn.signals
  }

  /** As long as only one thread uses the connection, which goes on before it makes another request, signals and
      requests match: the thread can go on if and only if its own request has been answered. */
  lemma {:induction false} OneThread(conn: Connection, i: nat)
    requires conn.Valid() && |conn.log| == i + 1 && forall j :: 0 <= j < i ==> conn.log[j].acks == 1
    ensures MayWake(conn, Below(i), i) <==> conn.log[i].acks == 1
  {
    conn.ExactlyOnce(i);
    var open := conn.lost + (if conn.current.Some? then {conn.current.value} else {});
    forall j | j in open ensures j == i {
      assert conn.current.Some? ==> conn.current.value < |conn.log|;
      LostInside(conn.log, conn.accepted, conn.current, conn.lost, j);
      conn.ExactlyOnce(j);
    }
    assert open <= {i};
    if conn.lost != {} {
      assert conn.lost == {i};
    }
  }

  /** With two threads they need not match: one waits for a connect, the other asks for the state to be closed and
      is refused; the signal for the refusal can wake the first one up, whose request has no answer yet. */
  method WrongThreadWoken() returns (conn: Connection)
    ensures fresh(conn) && conn.Valid() && |conn.log| == 2 && conn.current == Some(0)
    ensures conn.log[0].acks == 0 && conn.log[1].acks == 1 && MayWake(conn, {}, 0)
  {
    conn := new Connection();
    conn.DoConnect(ERR_OK);
    var asserted := conn.DoClose(true, true, ERR_OK);
  }

  /** A connection is deleted while a connect is pending: two requests have been made, one signal has been
      given, and the connect has no answer although nothing is pending any more. */
  method DeleteWhileConnecting() returns (conn: Connection, asserted: bool)
    ensures fresh(conn) && conn.Valid() && !asserted
    ensures |conn.log| == 2 && conn.log[0].op == Connect && conn.log[0].acks == 0
    ensures conn.signals == 1 && conn.current == None && conn.state == Idle && !conn.pcb
  {
    conn := new Connection();
    conn.DoConnect(ERR_OK);
    asserted := conn.DoDelete(ERR_CONN, ERR_OK);
  }

  /** The assertion that nothing is left of a write can fail: of two bytes one is accepted, then tcp_write
      fails, then the connection is closed. */
  method CutShortThenClose() returns (asserted: bool)
    ensures !asserted
  {
    var conn := new Connection();
    var first := conn.DoWrite([1, 2], false, 1, ERR_OK);
    conn.DoWriteMore(1, ERR_VAL);
    asserted := conn.DoClose(true, true, ERR_OK);
  }
}
