/** The table of the DNS resolver: queries with retries and change of server, answers, and the callbacks
    they lead to. */
module DnsTable {
  import opened Wrappers

  type Ip = nat

  const TABLE_SIZE := 4
  const MAX_SERVERS := 2
  const MAX_RETRIES := 4
  const MAX_TTL: u32 := 604800

  datatype State = Unused | New | Asking | Done

  /** A slot. `query` stands for the host name and the argument of the callback, `found` tells whether
      there is a callback. */
  datatype Entry = Entry(state: State, numdns: nat, tmr: nat, retries: nat, seqno: nat, ttl: u32, ip: Ip, found: bool, query: nat)

  /** What checking a slot does besides changing it: send to a server, or report failure. */
  datatype Action = Nothing | Send(server: nat) | Fail

  /** What a response says about the query it is for. */
  datatype Response = Faulty | NoAddress | Address(ip: Ip, ttl: u32)

  predicate Active(e: Entry) {
    e.state == New || e.state == Asking
  }

  /** Decrementing a 32-bit counter. */
  function Dec32(x: u32): u32 {
    if x == 0 then 0xffff_ffff else x - 1
  }

  /** Whether there is a server after number `n`. Address 0 stands for none. */
  predicate MoreServers(servers: seq<Ip>, n: nat)
    requires |servers| == MAX_SERVERS
  {
    n + 1 < MAX_SERVERS && servers[n + 1] != 0
  }

  /** dns_check_entry. */
  function Check(e: Entry, servers: seq<Ip>): (Entry, Action)
    requires |servers| == MAX_SERVERS && (e.state == Asking ==> e.tmr > 0)
  {
    match e.state
    case New => (e.(state := Asking, numdns := 0, tmr := 1, retries := 0), Send(0))
    case Asking =>
      if e.tmr > 1 then (e.(tmr := e.tmr - 1), Nothing)
      else if e.retries + 1 == MAX_RETRIES then
        if MoreServers(servers, e.numdns) then (e.(numdns := e.numdns + 1, tmr := 1, retries := 0), Nothing)
        else (e.(state := Unused, found := false, tmr := 0, retries := MAX_RETRIES), Fail)
      else (e.(retries := e.retries + 1, tmr := e.retries + 1), Send(e.numdns))
    case Done =>
      if Dec32(e.ttl) == 0 then (e.(ttl := 0, state := Unused, found := false), Nothing)
      else (e.(ttl := Dec32(e.ttl)), Nothing)
    case Unused => (e, Nothing)
  }

  // ----- retries and time-out -----

  /** The back-off: after a new server is chosen, the waits are 1, 1, 2 and 3 ticks. */
  ghost predicate AskingOk(e: Entry) {
    e.state == Asking ==> e.retries < MAX_RETRIES && 1 <= e.tmr <= (if e.retries == 0 then 1 else e.retries) && e.numdns < MAX_SERVERS
  }

  /** The ticks that are left with the current server. */
  ghost function WithServer(e: Entry): nat {
    e.tmr + (if e.retries == 0 then 6 else if e.retries == 1 then 5 else if e.retries == 2 then 3 else 0)
  }

  /** How many servers are still to be tried after the current one. */
  ghost function ServersLeft(e: Entry, servers: seq<Ip>): nat
    requires |servers| == MAX_SERVERS
  {
    if MoreServers(servers, e.numdns) then 1 else 0
  }

  ghost function TicksLeft(e: Entry, servers: seq<Ip>): nat
    requires |servers| == MAX_SERVERS
  {
    WithServer(e) + 7 * ServersLeft(e, servers)
  }

  lemma {:induction false} CheckCounts(e: Entry, servers: seq<Ip>)
    requires |servers| == MAX_SERVERS && e.state == Asking && AskingOk(e)
    ensures var (d, action) := Check(e, servers);
      if TicksLeft(e, servers) == 1 then d.state == Unused && !d.found && action == Fail
      else d.state == Asking && AskingOk(d) && action != Fail && TicksLeft(d, servers) == TicksLeft(e, servers) - 1
           && d.query == e.query && d.found == e.found
  {
  }

  /** A slot after `n` ticks without a response. */
  ghost function After(e: Entry, servers: seq<Ip>, n: nat): (d: Entry)
    requires |servers| == MAX_SERVERS && AskingOk(e)
    ensures AskingOk(d)
  {
    if n == 0 then e else Check(After(e, servers, n - 1), servers).0
  }

  /** A new query that gets no response is asked for 7 ticks for each server that is configured, no more
      and no less; at the last of these ticks it fails. */
  lemma {:induction false} TimesOut(e: Entry, servers: seq<Ip>, n: nat)
    requires |servers| == MAX_SERVERS && e.state == New && n <= 7 * (if servers[1] != 0 then 2 else 1)
    ensures var total := 7 * (if servers[1] != 0 then 2 else 1); var asked := Check(e, servers).0;
      && AskingOk(asked)
      && (n < total ==> After(asked, servers, n).state == Asking && TicksLeft(After(asked, servers, n), servers) == total - n)
      && (n == total ==> After(asked, servers, n).state == Unused && Check(After(asked, servers, n - 1), servers).1 == Fail)
  {
    var asked := Check(e, servers).0;
    if n > 0 {
      TimesOut(e, servers, n - 1);
      CheckCounts(After(asked, servers, n - 1), servers);
    }
  }

  /** How far a query without a response is with a server after some ticks: the retries and the ticks to the next
      one. */
  ghost function Progress(n: nat): (p: (nat, nat))
    requires n < 7
  {
    if n == 0 then (0, 1) else if n == 1 then (1, 1) else if n <= 3 then (2, 4 - n) else (3, 7 - n)
  }

  /** The slot of such a query after `n` ticks. */
  lemma {:induction false} AfterIs(e: Entry, servers: seq<Ip>, n: nat)
    requires |servers| == MAX_SERVERS && e.state == New && n < 7 * (if servers[1] != 0 then 2 else 1)
    ensures AskingOk(Check(e, servers).0)
    ensures After(Check(e, servers).0, servers, n) ==
      e.(state := Asking, numdns := n / 7, retries := Progress(n % 7).0, tmr := Progress(n % 7).1)
  {
    if n > 0 {
      AfterIs(e, servers, n - 1);
    }
  }

  /** Which server a new query without a response is sent to, and when: to the first one at once and then at ticks
      1, 2 and 4; to the second one, if there is one, at ticks 8, 9 and 11; at no other tick before the failure,
      which comes 7 ticks after the last server was chosen. */
  lemma {:induction false} SentOnSchedule(e: Entry, servers: seq<Ip>, tick: nat)
    requires |servers| == MAX_SERVERS && e.state == New && 0 < tick <= 7 * (if servers[1] != 0 then 2 else 1)
    ensures Check(e, servers).1 == Send(0) && AskingOk(Check(e, servers).0)
    ensures var action := Check(After(Check(e, servers).0, servers, tick - 1), servers).1;
      if tick == 7 * (if servers[1] != 0 then 2 else 1) then action == Fail
      else if tick in {1, 2, 4} then action == Send(0)
      else if tick in {8, 9, 11} then action == Send(1)
      else action == Nothing
  {
    AfterIs(e, servers, tick - 1);
  }

  /** An answer is kept for its time to live; one that came with zero stays for 2^32 ticks. */
  lemma {:induction false} Expires(e: Entry, servers: seq<Ip>, n: nat)
    requires |servers| == MAX_SERVERS && e.state == Done
    requires n <= if e.ttl == 0 then 0x1_0000_0000 else e.ttl
    ensures var life := if e.ttl == 0 then 0x1_0000_0000 else e.ttl; var d := After(e, servers, n);
      if n < life then d.state == Done && d.ip == e.ip && d.ttl == (if n == 0 then e.ttl else life - n) else d.state == Unused
  {
    if n > 0 {
      Expires(e, servers, n - 1);
    }
  }

  // ----- choosing a slot -----

  type Table = seq<Entry>

  /** How much older than the counter a finished slot is; what wrapped around is not older. */
  function Age(seqno: nat, e: Entry): int {
    if e.state == Done then seqno - e.seqno else 0
  }

  /** `k` is the oldest finished slot of the first `n`, the first if there are several, and 0 if none is
      older than the counter. */
  ghost predicate IsOldest(t: Table, seqno: nat, n: nat, k: nat, age: nat)
    requires n <= |t|
  {
    && (forall i {:trigger Age(seqno, t[i])} :: 0 <= i < n ==> Age(seqno, t[i]) <= age)
    && (if age == 0 then k == 0 else k < n && Age(seqno, t[k]) == age)
    && (age > 0 ==> forall i {:trigger Age(seqno, t[i])} :: 0 <= i < k && i < n ==> Age(seqno, t[i]) < age)
  }

  ghost predicate NoUnused(t: Table, n: nat)
    requires n <= |t|
  {
    forall i {:trigger t[i]} :: 0 <= i < n ==> t[i].state != Unused
  }

  // ----- queries and their callbacks -----

  /** No slot is in use. */
  ghost predicate AllUnused(t: Table) {
    |t| == TABLE_SIZE && forall i {:trigger t[i]} :: 0 <= i < |t| ==> t[i].state == Unused
  }

  /** Each slot in use by a query, and the queries with their callbacks so far. `at` tells where a query is
      pending. */
  ghost predicate SlotOk(e: Entry, i: nat, at: seq<Option<nat>>, wanted: seq<bool>)
    requires |wanted| == |at|
  {
    AskingOk(e) && (Active(e) ==> e.query < |at| && at[e.query] == Some(i) && e.found == wanted[e.query])
  }

  ghost predicate QueryOk(t: Table, at: Option<nat>, wanted: bool, calls: seq<Option<Ip>>, q: nat) {
    match at
    case Some(i) => i < |t| && Active(t[i]) && t[i].query == q && calls == []
    case None => |calls| == if wanted then 1 else 0
  }

  ghost predicate QueriesOk(t: Table, at: seq<Option<nat>>, wanted: seq<bool>, calls: seq<seq<Option<Ip>>>) {
    && |wanted| == |at| == |calls|
    && (forall i {:trigger SlotOk(t[i], i, at, wanted)} :: 0 <= i < |t| ==> SlotOk(t[i], i, at, wanted))
    && (forall q {:trigger QueryOk(t, at[q], wanted[q], calls[q], q)} :: 0 <= q < |at| ==>
          QueryOk(t, at[q], wanted[q], calls[q], q))
  }

  /** A slot goes on with its query, or changes without being in use. */
  lemma {:induction false} SlotGoesOn(t: Table, at: seq<Option<nat>>, wanted: seq<bool>, calls: seq<seq<Option<Ip>>>, i: nat, e: Entry)
    requires QueriesOk(t, at, wanted, calls) && i < |t| && AskingOk(e)
    requires if Active(t[i]) then Active(e) && e.query == t[i].query && e.found == t[i].found else !Active(e)
    ensures QueriesOk(t[i := e], at, wanted, calls)
  {
    var u := t[i := e];
    forall k | 0 <= k < |u| ensures SlotOk(u[k], k, at, wanted) {
      assert SlotOk(t[k], k, at, wanted);
    }
    forall q | 0 <= q < |at| ensures QueryOk(u, at[q], wanted[q], calls[q], q) {
      assert QueryOk(t, at[q], wanted[q], calls[q], q);
    }
  }

  /** A query ends: its callback, if there is one, is called for the first and last time. */
  lemma {:induction false} QueryEnds(t: Table, at: seq<Option<nat>>, wanted: seq<bool>, calls: seq<seq<Option<Ip>>>, i: nat,
                                     e: Entry, result: Option<Ip>)
    requires QueriesOk(t, at, wanted, calls) && i < |t| && Active(t[i]) && !Active(e)
    ensures var q := t[i].query;
      && q < |at| && at[q] == Some(i) && calls[q] == [] && wanted[q] == t[i].found
      && QueriesOk(t[i := e], at[q := None], wanted, if t[i].found then calls[q := [result]] else calls)
  {
    assert SlotOk(t[i], i, at, wanted);
    var q := t[i].query;
    assert QueryOk(t, at[q], wanted[q], calls[q], q);
    var u, at', calls' := t[i := e], at[q := None], if t[i].found then calls[q := [result]] else calls;
    forall k | 0 <= k < |u| ensures SlotOk(u[k], k, at', wanted) {
      assert SlotOk(t[k], k, at, wanted);
    }
    forall p | 0 <= p < |at'| ensures QueryOk(u, at'[p], wanted[p], calls'[p], p) {
      assert QueryOk(t, at[p], wanted[p], calls[p], p);
    }
  }

  /** A new query takes a slot that no query is using. */
  lemma {:induction false} QueryBegins(t: Table, at: seq<Option<nat>>, wanted: seq<bool>, calls: seq<seq<Option<Ip>>>, i: nat, e: Entry)
    requires QueriesOk(t, at, wanted, calls) && i < |t| && !Active(t[i]) && e.state == New && e.query == |at|
    ensures QueriesOk(t[i := e], at + [Some(i)], wanted + [e.found], calls + [[]])
  {
    var u, at', wanted', calls' := t[i := e], at + [Some(i)], wanted + [e.found], calls + [[]];
    forall k | 0 <= k < |u| ensures SlotOk(u[k], k, at', wanted') {
      assert SlotOk(t[k], k, at, wanted);
    }
    forall q | 0 <= q < |at'| ensures QueryOk(u, at'[q], wanted'[q], calls'[q], q) {
      if q < |at| {
        assert QueryOk(t, at[q], wanted[q], calls[q], q);
      }
    }
  }

  // ----- a tick of the whole table -----

  /** A slot that waits for a response has time left. */
  ghost predicate Timed(t: Table) {
    forall i :: 0 <= i < |t| ==> (t[i].state == Asking ==> t[i].tmr > 0)
  }

  /** What checking the first `n` slots sends: the query and the server. */
  ghost function SentBy(t: Table, servers: seq<Ip>, n: nat): seq<(nat, nat)>
    requires Timed(t) && n <= |t| && |servers| == MAX_SERVERS
  {
    if n == 0 then []
    else
      var action := Check(t[n - 1], servers).1;
      SentBy(t, servers, n - 1) + (if action.Send? then [(t[n - 1].query, action.server)] else [])
  }

  /** The callbacks after checking the first `n` slots: those of the queries that fail are called. */
  ghost function CalledBy(t: Table, servers: seq<Ip>, calls: seq<seq<Option<Ip>>>, n: nat): (after: seq<seq<Option<Ip>>>)
    requires Timed(t) && n <= |t| && |servers| == MAX_SERVERS
    ensures |after| == |calls|
  {
    if n == 0 then calls
    else
      var before := CalledBy(t, servers, calls, n - 1);
      var q := t[n - 1].query;
      if Check(t[n - 1], servers).1 == Fail && t[n - 1].found && q < |calls| then before[q := [None]] else before
  }

  datatype Err = ErrMem | ErrInProgress

  class Resolver {
    const table: array<Entry>
    const servers: seq<Ip>
    /** The 8-bit counter that tells old answers from new ones. */
    var seqno: nat
    /** The callbacks of each query, and the queries sent to servers. */
    var calls: seq<seq<Option<Ip>>>
    var sent: seq<(nat, nat)>
    ghost var at: seq<Option<nat>>
    ghost var wanted: seq<bool>

    ghost predicate Valid()
      reads this, table
    {
      && table.Length == TABLE_SIZE && |servers| == MAX_SERVERS && seqno < 256
      && QueriesOk(table[..], at, wanted, calls)
    }

    constructor (servers: seq<Ip>)
      requires |servers| == MAX_SERVERS
      ensures Valid() && fresh(table) && calls == [] && sent == [] && this.servers == servers
      ensures seqno == 0 && AllUnused(table[..])
    {
      this.servers := servers;
      table := new Entry[TABLE_SIZE](i => Entry(Unused, 0, 0, 0, 0, 0, 0, false, 0));
      seqno, calls, sent := 0, [], [];
      at, wanted := [], [];
    }

    /** A slot goes on with its query, if it has one. */
    method Update(i: nat, e: Entry)
      requires Valid() && i < TABLE_SIZE && AskingOk(e)
      requires var t := table[i]; if Active(t) then Active(e) && e.query == t.query && e.found == t.found else !Active(e)
      modifies table
      ensures Valid() && table[..] == old(table[..])[i := e]
    {
      SlotGoesOn(table[..], at, wanted, calls, i, e);
      ghost var u := table[..][i := e];
      table[i] := e;
      assert table[..] == u;
    }

    /** The query of a slot ends: the callback is called, if there is one, and the slot becomes `e`. */
    method EndQuery(i: nat, e: Entry, result: Option<Ip>)
      requires Valid() && i < TABLE_SIZE && Active(table[i]) && !Active(e)
      modifies this`calls, this`at, table
      ensures Valid() && |calls| == |old(calls)| && table[..] == old(table[..])[i := e]
      ensures var q := old(table[i]).query;
        && q < |calls| && old(calls)[q] == []
        && calls == if old(table[i]).found then old(calls)[q := [result]] else old(calls)
    {
      ghost var u := table[..][i := e];
      var q := table[i].query;
      QueryEnds(table[..], at, wanted, calls, i, e, result);
      at := at[q := None];
      assert calls[q] + [result] == [result];
      if table[i].found {
        calls := calls[q := calls[q] + [result]];
      }
      table[i] := e;
      assert table[..] == u;
    }

    /** dns_send. */
    method SendQuery(q: nat, server: nat)
      modifies this`sent
      ensures sent == old(sent) + [(q, server)]
    {
      sent := sent + [(q, server)];
    }

    /** dns_check_entry. */
    method CheckEntry(i: nat)
      requires Valid() && i < TABLE_SIZE
      modifies this`calls, this`sent, this`at, table
      ensures Valid() && |calls| == |old(calls)| && (old(table[i].state) == Asking ==> old(table[i].tmr) > 0)
      ensures Checked(old(table[i]), table[i], old(sent), sent, old(calls), calls)
      ensures table[..] == old(table[..])[i := table[i]]
      ensures Check(old(table[i]), servers).1 != Fail ==> at == old(at)
    {
      assert SlotOk(table[..][i], i, at, wanted);
      var e := table[i];
      match e.state {
        case New =>
          Update(i, e.(state := Asking, numdns := 0, tmr := 1, retries := 0));
          SendQuery(e.query, 0);
        case Asking =>
          e := e.(tmr := e.tmr - 1);
          if e.tmr == 0 {
            e := e.(retries := e.retries + 1);
            if e.retries == MAX_RETRIES {
              if e.numdns + 1 < MAX_SERVERS && servers[e.numdns + 1] != 0 {
                Update(i, e.(numdns := e.numdns + 1, tmr := 1, retries := 0));
              } else {
                EndQuery(i, e.(state := Unused, found := false), None);
              }
            } else {
              Update(i, e.(tmr := e.retries));
              SendQuery(e.query, e.numdns);
            }
          } else {
            Update(i, e);
          }
        case Done =>
          e := e.(ttl := Dec32(e.ttl));
          if e.ttl == 0 {
            e := e.(state := Unused, found := false);
          }
          Update(i, e);
        case Unused =>
          assert table[..] == old(table[..])[i := table[i]];
      }
    }

    /** A slot has been checked. */
    ghost predicate Checked(e: Entry, d: Entry, sent0: seq<(nat, nat)>, sent1: seq<(nat, nat)>,
                            calls0: seq<seq<Option<Ip>>>, calls1: seq<seq<Option<Ip>>>)
      requires |servers| == MAX_SERVERS && (e.state == Asking ==> e.tmr > 0)
    {
      var (next, action) := Check(e, servers);
      && d == next && sent1 == sent0 + (if action.Send? then [(e.query, action.server)] else [])
      && (action == Fail ==> e.query < |calls0| && calls0[e.query] == [])
      && calls1 == if action == Fail && e.found then calls0[e.query := [None]] else calls0
    }

    /** dns_tmr: check all slots. The queries that are due are sent in the order of the slots, and those that
        have run out of servers are called back, if they have a callback. */
    method Tick()
      requires Valid()
      modifies this`calls, this`sent, this`at, table
      ensures Valid() && |calls| == |old(calls)| && Timed(old(table[..]))
      ensures forall i :: 0 <= i < TABLE_SIZE ==> table[i] == Check(old(table[i]), servers).0
      ensures sent == old(sent) + SentBy(old(table[..]), servers, TABLE_SIZE)
      ensures calls == CalledBy(old(table[..]), servers, old(calls), TABLE_SIZE)
    {
      ghost var t := table[..];
      forall i | 0 <= i < TABLE_SIZE ensures t[i].state == Asking ==> t[i].tmr > 0 {
        assert SlotOk(t[i], i, at, wanted);
      }
      for i := 0 to TABLE_SIZE
        invariant Valid() && |calls| == |old(calls)|
        invariant sent == old(sent) + SentBy(t, servers, i) && calls == CalledBy(t, servers, old(calls), i)
        invariant forall k {:trigger table[k]} :: 0 <= k < TABLE_SIZE ==>
          table[k] == if k < i then Check(t[k], servers).0 else t[k]
      {
        ghost var before := table[..];
        CheckEntry(i);
        assert forall k {:trigger table[k]} :: 0 <= k < TABLE_SIZE && k != i ==> table[k] == before[k];
      }
    }

    /** The search of dns_enqueue: the first slot that is not in use, or else the oldest finished one. */
    method Choose() returns (slot: Option<nat>, ghost age: nat, ghost oldest: nat)
      requires Valid()
      ensures slot.Some? ==> slot.value < TABLE_SIZE && !Active(table[slot.value])
      ensures NoUnused(table[..], TABLE_SIZE) ==>
        && IsOldest(table[..], seqno, TABLE_SIZE, oldest, age) && oldest < TABLE_SIZE
        && slot == if table[oldest].state == Done then Some(oldest) else None
      ensures !NoUnused(table[..], TABLE_SIZE) ==> slot.Some? && table[slot.value].state == Unused && NoUnused(table[..], slot.value)
    {
      var lseq: nat, lseqi: nat := 0, 0;
      var i: nat := 0;
      age, oldest := 0, 0;
      while i < TABLE_SIZE
        invariant i <= TABLE_SIZE && lseqi < TABLE_SIZE && NoUnused(table[..], i)
        invariant IsOldest(table[..], seqno, i, lseqi, lseq)
      {
        if table[i].state == Unused {
          assert table[..][i].state == Unused;
          return Some(i), 0, 0;
        }
        assert table[..][i] == table[i];
        if table[i].state == Done {
          if seqno - table[i].seqno > lseq {
            lseq := seqno - table[i].seqno;
            lseqi := i;
          }
        }
        i := i + 1;
      }
      age, oldest := lseq, lseqi;
      assert table[..][lseqi] == table[lseqi];
      slot := if table[lseqi].state != Done then None else Some(lseqi);
    }

    /** dns_enqueue: a new query, with a callback if `found`. It gets a slot that no query is using, and is
        sent at once, or there is no room for it. */
    method Enqueue(found: bool) returns (err: Err, ghost slot: Option<nat>)
      requires Valid()
      modifies this, table
      ensures Valid()
      ensures err == ErrMem ==> slot == None && table[..] == old(table[..]) && calls == old(calls) && sent == old(sent)
      ensures err == ErrInProgress ==> slot.Some? && slot.value < TABLE_SIZE && !Active(old(table[slot.value]))
      ensures err == ErrInProgress ==> var q := |old(calls)|;
        && calls == old(calls) + [[]] && at[q] == slot && wanted[q] == found && sent == old(sent) + [(q, 0)]
        && Asked(table[slot.value], q, found)
        && forall k :: 0 <= k < TABLE_SIZE && k != slot.value ==> table[k] == old(table[k])
      ensures err == ErrInProgress ==> table[slot.value].seqno == old(seqno) && seqno == (old(seqno) + 1) % 256
      ensures err == ErrMem ==> seqno == old(seqno)
      ensures err == ErrInProgress ==> Chosen(old(table[..]), old(seqno), slot.value)
      ensures err == ErrMem <==> NoUnused(old(table[..]), TABLE_SIZE) && NothingOld(old(table[..]), old(seqno))
    {
      ghost var age, oldest;
      ghost var t := table[..];
      var choice;
      choice, age, oldest := Choose();
      slot := choice;
      ChoiceMeans(t, seqno, oldest, age);
      assert choice.Some? ==> Chosen(t, seqno, choice.value);
      if choice == None {
        return ErrMem, None;
      }
      var i := choice.value;
      var e := table[i].(state := New, seqno := seqno, found := found, query := |calls|);
      QueryBegins(t, at, wanted, calls, i, e);
      table[i] := e;
      assert table[..] == t[i := e];
      at, wanted := at + [Some(i)], wanted + [found];
      calls := calls + [[]];
      seqno := (seqno + 1) % 256;
      assert table[i] == e;
      CheckEntry(i);
      return ErrInProgress, slot;
    }

    /** dns_recv: a response for slot `id`. Only a slot that waits for one takes it. */
    method Receive(id: u16, response: Response)
      requires Valid()
      modifies this`calls, this`at, table
      ensures Valid() && |calls| == |old(calls)|
      ensures id >= TABLE_SIZE || old(table[id].state) != Asking ==> table[..] == old(table[..]) && calls == old(calls)
      ensures id < TABLE_SIZE && old(table[id].state) == Asking ==>
        var e := old(table[id]);
        var result := if response.Address? then Some(response.ip) else None;
        && e.query < |calls| && old(calls)[e.query] == []
        && calls == (if e.found then old(calls)[e.query := [result]] else old(calls))
        && table[..] == old(table[..])[id := table[id]]
        && (response.Address? ==> table[id] == e.(state := Done, ip := response.ip, ttl := table[id].ttl))
        && (response.Address? ==> (if response.ttl <= 604800 then table[id].ttl == response.ttl else table[id].ttl == 604800))
        && (!response.Address? ==> table[id] == e.(state := Unused, found := false))
    {
      if id < TABLE_SIZE && table[id].state == Asking {
        var e := table[id].(state := Done);
        if response.Address? {
          e := e.(ttl := if response.ttl > MAX_TTL then MAX_TTL else response.ttl, ip := response.ip);
          EndQuery(id, e, Some(response.ip));
        } else {
          EndQuery(id, e.(state := Unused, found := false), None);
        }
      }
    }

    /** No query is ever called back twice, and one that is not pending any more has been called back, if it
        has a callback; the slot of a pending query stays its own. */
    lemma CalledOnce(q: nat)
      requires Valid() && q < |calls|
      ensures q < |at| && q < |wanted| && |calls[q]| <= 1
      ensures at[q] == None ==> |calls[q]| == if wanted[q] then 1 else 0
      ensures at[q].Some? ==> calls[q] == [] && at[q].value < TABLE_SIZE && Active(table[at[q].value]) && table[at[q].value].query == q
    {
      assert QueryOk(table[..], at[q], wanted[q], calls[q], q);
    }
  }

  /** A slot that has just been given to query `q`. */
  ghost predicate Asked(e: Entry, q: nat, found: bool) {
    e.state == Asking && e.query == q && e.found == found && e.numdns == 0 && e.tmr == 1 && e.retries == 0
  }

  /** The slot that a new query takes: the first unused one, or the oldest finished one if all are in use. */
  ghost predicate Chosen(t: Table, seqno: nat, slot: nat) {
    && slot < |t|
    && (if NoUnused(t, |t|) then t[slot].state == Done && exists age: nat :: IsOldest(t, seqno, |t|, slot, age)
        else t[slot].state == Unused && NoUnused(t, slot))
  }

  /** A new query that finds no unused slot overwrites an answer that is at least as old as all others, the numbers of
      the queries being compared as they are; if none has a smaller number than the query, it is that in slot 0. */
  lemma {:induction false} OverwritesOldest(t: Table, seqno: nat, slot: nat, i: nat)
    requires Chosen(t, seqno, slot) && NoUnused(t, |t|) && i < |t|
    ensures t[slot].state == Done && (t[slot].seqno < seqno || slot == 0)
    ensures t[i].state == Done ==> t[i].seqno >= t[slot].seqno || t[i].seqno >= seqno
    ensures t[i].state == Done && t[i].seqno < seqno && (i < slot || t[slot].seqno >= seqno) ==> t[i].seqno > t[slot].seqno
  {
    var age: nat :| IsOldest(t, seqno, |t|, slot, age);
    assert Age(seqno, t[i]) <= age;
    assert i < slot && age > 0 ==> Age(seqno, t[i]) < age;
  }

  /** No finished slot can be reused: none is older than the counter, and the first slot is not finished. */
  ghost predicate NothingOld(t: Table, seqno: nat)
    requires |t| == TABLE_SIZE
  {
    t[0].state != Done && forall i {:trigger Age(seqno, t[i])} :: 0 <= i < |t| ==> Age(seqno, t[i]) <= 0
  }

  lemma {:induction false} ChoiceMeans(t: Table, seqno: nat, oldest: nat, age: nat)
    requires |t| == TABLE_SIZE
    requires NoUnused(t, TABLE_SIZE) ==> IsOldest(t, seqno, TABLE_SIZE, oldest, age) && oldest < TABLE_SIZE
    ensures NoUnused(t, TABLE_SIZE) ==> (t[oldest].state != Done <==> NothingOld(t, seqno))
  {
  }

  /** Slot 0 is waiting, the next `k` are finished and have the numbers from 253 on, the others are free. */
  ghost predicate Filling(t: Table, k: nat) {
    && k < |t| == TABLE_SIZE && t[0].state == Asking
    && (forall i {:trigger t[i]} :: 1 <= i <= k ==> t[i].state == Done && t[i].seqno == 252 + i)
    && (forall i {:trigger t[i]} :: k < i < |t| ==> t[i].state == Unused)
  }

  /** A query that is refused although three slots hold finished answers: 252 queries have failed, one is
      pending in slot 0, and the three after it have been answered. They have the numbers 253 to 255, and the
      counter has just wrapped, so that none of them looks old. */
  method RefusedThoughFinished() returns (r: Resolver, err: Err)
    ensures fresh(r) && r.Valid() && err == ErrMem
    ensures r.seqno == 0 && Filling(r.table[..], 3)
  {
    r := new Resolver([1, 2]);
    ghost var slot;
    for n := 0 to 252
      invariant fresh(r) && fresh(r.table) && r.Valid() && AllUnused(r.table[..]) && r.seqno == n
    {
      OneFails(r, n);
    }
    err, slot := r.Enqueue(true);
    for k := 0 to 3
      invariant fresh(r) && fresh(r.table) && r.Valid() && Filling(r.table[..], k) && r.seqno == (253 + k) % 256
    {
      OneAnswered(r, k);
    }
    err, slot := r.Enqueue(true);
  }

  /** A query that fails at once, with nothing else going on. */
  method OneFails(r: Resolver, n: nat)
    requires r.Valid() && AllUnused(r.table[..]) && r.seqno == n && n < 252
    modifies r, r.table
    ensures r.Valid() && AllUnused(r.table[..]) && r.seqno == n + 1
  {
    var err, slot := r.Enqueue(true);
    r.Receive(0, NoAddress);
  }

  /** A query that is answered. */
  method OneAnswered(r: Resolver, k: nat)
    requires r.Valid() && Filling(r.table[..], k) && r.seqno == 253 + k && k < 3
    modifies r, r.table
    ensures r.Valid() && Filling(r.table[..], k + 1) && r.seqno == (254 + k) % 256
  {
    var err, slot := r.Enqueue(true);
    r.Receive(k + 1, Address(7, 3600));
  }
}
