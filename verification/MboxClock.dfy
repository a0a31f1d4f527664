/** How the port of the stack to its operating system measures the waiting for a mailbox: two readings of a
    32-bit counter of system ticks. */
module MboxClock {
  import opened Wrappers
  import opened Timers

  const OS_TICKS_PER_SEC: nat := 100
  const MSECS_PER_TICK: nat := 10

  /** The time limit in ticks. The operating system takes 16 bits; zero stands for waiting forever. */
  function Ticks(timeout: nat): (n: u16)
    ensures n == 0 <==> timeout == 0
  {
    var ticks := timeout * OS_TICKS_PER_SEC % 0x1_0000_0000 / 1000;
    if timeout == 0 then 0 else if ticks < 1 then 1 else if ticks > 65535 then 65535 else ticks
  }

  /** The counter, `ticks` after it was read as `start`. */
  function Reading(start: u32, ticks: nat): u32 {
    (start + ticks) % 0x1_0000_0000
  }

  /** The difference of two readings, as the port computes it. */
  function Difference(start: u32, end: u32): u32 {
    if end > start then end - start else 0xffff_ffff - start + end
  }

  /** Ticks in milliseconds, as the port computes them in 32 bits. */
  function Millis(ticks: u32): u32 {
    ticks * 1000 % 0x1_0000_0000 / OS_TICKS_PER_SEC + 1
  }

  /** The waiting time in milliseconds that two readings are reported as. */
  function Reported(start: u32, end: u32): u32 {
    Millis(Difference(start, end))
  }

  lemma {:induction false} MillisIs(ticks: u32)
    ensures ticks <= 4294967 ==> Millis(ticks) == MSECS_PER_TICK * ticks + 1
    ensures ticks == 0xffff_ffff ==> Millis(ticks) == 42949663
    ensures Millis(ticks) <= 42949673
  {
    var m := ticks * 1000;
    if ticks <= 4294967 {
      assert m % 0x1_0000_0000 == m;
    } else if ticks == 0xffff_ffff {
      assert m % 0x1_0000_0000 == 0x1_0000_0000 - 1000;
    }
  }

  lemma {:induction false} DifferenceIs(start: u32, ticks: nat)
    ensures var d := Difference(start, Reading(start, ticks));
      && (ticks == 0 ==> d == 0xffff_ffff)
      && (start + ticks < 0x1_0000_0000 && ticks > 0 ==> d == ticks)
      && (start + ticks >= 0x1_0000_0000 && ticks < 0x1_0000_0000 ==> d == ticks - 1)
  {
    var end := start + ticks;
    if end < 0x1_0000_0000 {
      assert Reading(start, ticks) == end;
    } else if ticks < 0x1_0000_0000 {
      assert Reading(start, ticks) == end - 0x1_0000_0000;
    }
  }

  /** What the report is worth: one millisecond too much while nothing wraps, almost twelve hours for no tick
      at all, and one tick less when the counter wraps. */
  lemma ReportedIs(start: u32, ticks: nat)
    ensures var r := Reported(start, Reading(start, ticks));
      && (start + ticks < 0x1_0000_0000 && 0 < ticks <= 4294967 ==> r == MSECS_PER_TICK * ticks + 1)
      && (ticks == 0 ==> r == 42949663)
      && (start + ticks >= 0x1_0000_0000 && ticks <= 4294967 ==> r == MSECS_PER_TICK * (ticks - 1) + 1)
      && r <= 42949673
  {
    DifferenceIs(start, ticks);
    MillisIs(Difference(start, Reading(start, ticks)));
  }

  /** When a message comes in time for a delta of `time`, no more is taken off the delta than the ticks that
      have passed if and only if the delta would have expired anyway, or the counter has wrapped, or its
      difference in milliseconds has. */
  lemma MessageTruthful(start: u32, ticks: nat, time: nat)
    ensures var r := Reported(start, Reading(start, ticks));
      (if r < time then r else time) <= MSECS_PER_TICK * ticks <==>
      time <= MSECS_PER_TICK * ticks || start + ticks >= 0x1_0000_0000 || ticks > 4294967
  {
    ReportedIs(start, ticks);
  }

  /** A wait that lasts the time limit lasts the whole delta if and only if the delta is within the limit that
      16 bits can hold, and loses nothing in ticks. */
  lemma ExpiryTruthful(time: u32)
    ensures time <= MSECS_PER_TICK * Ticks(time) <==> time <= 655350 && (time % MSECS_PER_TICK == 0 || time < MSECS_PER_TICK)
  {
    if time <= 655350 {
      TicksIs(time);
    }
  }

  lemma {:induction false} TicksIs(time: u32)
    requires time <= 655350
    ensures Ticks(time) == if 0 < time < MSECS_PER_TICK then 1 else time / MSECS_PER_TICK
  {
    var t := time * OS_TICKS_PER_SEC;
    assert t % 0x1_0000_0000 == t;
    assert t / 1000 == time / 10;
  }

  /** Larger limits are cut to what 16 bits hold, and wrap at twelve hours: a limit of 42949673 ms lasts one tick. */
  lemma {:induction false} LongLimit(time: u32)
    ensures 655350 < time <= 42949672 ==> Ticks(time) == 65535
    ensures Ticks(42949673) == 1
    ensures 0 < time < 0xc000_0000 ==> Ticks(time + 0x4000_0000) == Ticks(time)
  {
    assert (42949673 * OS_TICKS_PER_SEC) % 0x1_0000_0000 == 4;
    var t := time * OS_TICKS_PER_SEC;
    if time <= 42949672 {
      assert t % 0x1_0000_0000 == t;
    }
    assert (time + 0x4000_0000) * OS_TICKS_PER_SEC == t + 25 * 0x1_0000_0000;
    assert (t + 25 * 0x1_0000_0000) % 0x1_0000_0000 == t % 0x1_0000_0000;
  }

  /** One call of sys_arch_mbox_fetch: whether its time limit ends it, the first reading of the counter, the
      ticks until the second one, or until the thread runs again after the limit, and what the handler does. */
  datatype Fetch = Fetch(expires: bool, start: u32, ticks: nat, actions: seq<Action>)

  /** The ticks that a fetch takes: one that expires takes its limit, or more. */
  ghost function TicksOf(A: seq<Entry>, f: Fetch): nat {
    if f.expires && A != [] then Ticks(A[0].at) + f.ticks else f.ticks
  }

  ghost function PortTurn(A: seq<Entry>, f: Fetch): Turn {
    Turn(f.expires, Reported(f.start, Reading(f.start, TicksOf(A, f))), MSECS_PER_TICK * TicksOf(A, f), f.actions)
  }

  /** The exact condition, on the readings and the time limit, for a fetch to report no more than has passed. */
  ghost predicate Accurate(A: seq<Entry>, f: Fetch) {
    || A == []
    || A[0].at <= MSECS_PER_TICK * TicksOf(A, f)
    || (!f.expires && (f.start + f.ticks >= 0x1_0000_0000 || f.ticks > 4294967))
  }

  lemma PortTruthful(A: seq<Entry>, f: Fetch)
    ensures TruthfulRound(A, PortTurn(A, f)) <==> Accurate(A, f)
  {
    if A != [] {
      MessageTruthful(f.start, f.ticks, A[0].at);
    }
  }

  /** The turns of the first `n` fetches, each with the limit that the list has by then. */
  ghost function PortScript(A: seq<Entry>, fs: seq<Fetch>, n: nat): (script: seq<Turn>)
    requires n <= |fs|
    ensures |script| == n
  {
    if n == 0 then []
    else
      var before := PortScript(A, fs, n - 1);
      before + [PortTurn(AfterRounds(A, before, n - 1), fs[n - 1])]
  }

  /** What the list has come to before fetch `i`. */
  ghost function ListAt(A: seq<Entry>, fs: seq<Fetch>, i: nat): seq<Entry>
    requires i <= |fs|
  {
    AfterRounds(A, PortScript(A, fs, i), i)
  }

  lemma {:induction false} AfterRoundsPrefix(A: seq<Entry>, s: seq<Turn>, turn: Turn, i: nat)
    requires i <= |s|
    ensures AfterRounds(A, s + [turn], i) == AfterRounds(A, s, i) && LossIn(A, s + [turn], i) == LossIn(A, s, i)
  {
    if i > 0 {
      AfterRoundsPrefix(A, s, turn, i - 1);
      assert (s + [turn])[i - 1] == s[i - 1];
    }
  }

  lemma {:induction false} PortScriptAt(A: seq<Entry>, fs: seq<Fetch>, n: nat, i: nat)
    requires i < n <= |fs|
    ensures var script := PortScript(A, fs, n);
      script[i] == PortTurn(ListAt(A, fs, i), fs[i]) && AfterRounds(A, script, i) == ListAt(A, fs, i)
  {
    var before := PortScript(A, fs, n - 1);
    var turn := PortTurn(ListAt(A, fs, n - 1), fs[n - 1]);
    assert PortScript(A, fs, n) == before + [turn];
    AfterRoundsPrefix(A, before, turn, i);
    if i < n - 1 {
      PortScriptAt(A, fs, n - 1, i);
      assert (before + [turn])[i] == before[i];
    } else {
      assert (before + [turn])[i] == turn;
    }
  }

  ghost predicate AccurateAt(A: seq<Entry>, fs: seq<Fetch>, i: nat) {
    i < |fs| && Accurate(ListAt(A, fs, i), fs[i])
  }

  /** Over any number of rounds, nothing is taken off that has not passed if and only if every fetch is
      accurate; then TimeoutList.MboxFetch calls no handler early. */
  lemma {:induction false} PortRunTruthful(A: seq<Entry>, fs: seq<Fetch>, n: nat)
    requires n <= |fs|
    ensures Truthful(A, PortScript(A, fs, n), n) <==> forall i: nat {:trigger AccurateAt(A, fs, i)} :: i < n ==> AccurateAt(A, fs, i)
  {
    var script := PortScript(A, fs, n);
    forall i: nat | i < n ensures TruthfulRound(AfterRounds(A, script, i), script[i]) <==> AccurateAt(A, fs, i) {
      PortScriptAt(A, fs, n, i);
      PortTruthful(ListAt(A, fs, i), fs[i]);
    }
  }

  // ----- how early a handler can be -----

  /** No message in the tick in which waiting began, no wait beyond what 16 bits of ticks can hold, and nothing
      wraps. */
  ghost predicate Ordinary(A: seq<Entry>, f: Fetch) {
    A != [] && A[0].at > 0 ==>
      if f.expires then A[0].at <= 655350 else 0 < f.ticks <= 4294967 && f.start + f.ticks < 0x1_0000_0000
  }

  /** The milliseconds that such a fetch can report too much: one with a message, nine without. */
  function Cost(f: Fetch): nat {
    if f.expires then MSECS_PER_TICK - 1 else 1
  }

  lemma OrdinaryLoss(A: seq<Entry>, f: Fetch)
    requires Ordinary(A, f)
    ensures Loss(A, PortTurn(A, f)) <= Cost(f)
  {
    if A != [] && A[0].at > 0 {
      if f.expires {
        TicksIs(A[0].at);
      } else {
        ReportedIs(f.start, f.ticks);
      }
    }
  }

  ghost predicate OrdinaryAt(A: seq<Entry>, fs: seq<Fetch>, i: nat) {
    i < |fs| && Ordinary(ListAt(A, fs, i), fs[i])
  }

  ghost function CostIn(fs: seq<Fetch>, n: nat): nat
    requires n <= |fs|
  {
    if n == 0 then 0 else CostIn(fs, n - 1) + Cost(fs[n - 1])
  }

  /** What the first `n` fetches take without its having passed. */
  ghost function LossBy(A: seq<Entry>, fs: seq<Fetch>, n: nat): nat
    requires n <= |fs|
  {
    LossIn(A, PortScript(A, fs, n), n)
  }

  lemma {:induction false} LossStep(A: seq<Entry>, fs: seq<Fetch>, i: nat)
    requires i < |fs|
    ensures var turn := PortTurn(ListAt(A, fs, i), fs[i]);
      && LossBy(A, fs, i + 1) == LossBy(A, fs, i) + Loss(ListAt(A, fs, i), turn)
      && ListAt(A, fs, i + 1) == AfterRound(ListAt(A, fs, i), turn)
  {
    AfterRoundsPrefix(A, PortScript(A, fs, i), PortTurn(ListAt(A, fs, i), fs[i]), i);
  }

  ghost predicate AllOrdinary(A: seq<Entry>, fs: seq<Fetch>, n: nat) {
    forall i: nat {:trigger OrdinaryAt(A, fs, i)} :: i < n ==> OrdinaryAt(A, fs, i)
  }

  lemma {:induction false} OrdinaryStep(A: seq<Entry>, fs: seq<Fetch>, i: nat)
    requires OrdinaryAt(A, fs, i)
    ensures i < |fs| && LossBy(A, fs, i + 1) <= LossBy(A, fs, i) + Cost(fs[i])
  {
    LossStep(A, fs, i);
    OrdinaryLoss(ListAt(A, fs, i), fs[i]);
  }

  lemma NothingLost(A: seq<Entry>, fs: seq<Fetch>)
    ensures LossBy(A, fs, 0) == 0
  {
  }

  /** What ordinary fetches take without its having passed is one millisecond for each message and at most
      nine for each handler that is called. */
  lemma {:induction false} OrdinaryRun(A: seq<Entry>, fs: seq<Fetch>, n: nat)
    requires n <= |fs| && AllOrdinary(A, fs, n)
    ensures LossBy(A, fs, n) <= CostIn(fs, n)
  {
    NothingLost(A, fs);
    for j := 0 to n
      invariant LossBy(A, fs, j) <= CostIn(fs, j)
    {
      assert OrdinaryAt(A, fs, j);
      OrdinaryStep(A, fs, j);
    }
  }

  /** The turn that a fetch makes, with the first delta as its time limit. */
  method TurnOf(t: TimeoutList, f: Fetch) returns (turn: Turn)
    requires t.Valid()
    ensures turn == PortTurn(Deadlines(t.list, 0), f)
  {
    var ticks := f.ticks;
    if f.expires && t.list != [] {
      ticks := Ticks(t.list[0].time) + f.ticks;
    }
    turn := Turn(f.expires, Reported(f.start, Reading(f.start, ticks)), MSECS_PER_TICK * ticks, f.actions);
  }

  method ServeOne(t: TimeoutList, f: Fetch, ghost within: bool, ghost early: nat)
    requires t.Valid() && (within ==> t.Within(early))
    modifies t
    ensures t.Valid()
    ensures var A := Deadlines(old(t.list), 0); var turn := PortTurn(A, f);
      Deadlines(t.list, 0) == AfterRound(A, turn) && (within ==> t.Within(early + Loss(A, turn)))
  {
    var turn := TurnOf(t, f);
    var message := t.Round(turn, early);
  }

  /** Fetching messages again and again with this port. If no handler had been called early before, none is early
      by more than the rounds have taken without its having passed, which ordinary fetches bound. */
  method Serve(t: TimeoutList, fs: seq<Fetch>)
    requires t.Valid()
    modifies t
    ensures t.Valid() && Deadlines(t.list, 0) == ListAt(Deadlines(old(t.list), 0), fs, |fs|)
    ensures var A := Deadlines(old(t.list), 0);
      && (old(t.Punctual()) ==> t.Within(LossBy(A, fs, |fs|)))
      && (old(t.Punctual()) && AllOrdinary(A, fs, |fs|) ==> t.Within(CostIn(fs, |fs|)))
  {
    ghost var A, punctual := Deadlines(t.list, 0), t.Punctual();
    for i := 0 to |fs|
      invariant t.Valid() && Deadlines(t.list, 0) == ListAt(A, fs, i)
      invariant punctual ==> t.Within(LossBy(A, fs, i))
    {
      LossStep(A, fs, i);
      ServeOne(t, fs[i], punctual, LossBy(A, fs, i));
    }
    if AllOrdinary(A, fs, |fs|) {
      OrdinaryRun(A, fs, |fs|);
    }
  }

  // ----- a handler that is called early -----

  lemma {:induction false} FirstTaken(e: Entry, waited: u32)
    requires 0 < e.at <= waited
    ensures var A, turn := [e], Turn(false, waited, 0, []);
      && Stops(A, turn) && Taken(A, turn) == e.at && Passed(A, turn) == 0 && AfterRound(A, turn) == [e.(at := 0)]
  {
  }

  lemma {:induction false} ThenCalled(e: Entry)
    requires e.at == 0
    ensures var A, turn := [e], Turn(false, 1, 0, []); !Stops(A, turn) && Taken(A, turn) == 0 && Waiting(A, turn) == 0 && Passed(A, turn) == 0
  {
  }

  /** A run in which a handler is called early: a timeout is set, a message is fetched within the same tick,
      and the next fetch calls the handler, although no time has passed. */
  method SameTick(start: u32, msecs: u32, h: nat, arg: nat) returns (t: TimeoutList)
    requires 0 < msecs <= 42949663
    ensures fresh(t) && t.Valid() && t.now == 0
    ensures t.fired == [Firing(h, arg, msecs, 0, 0, -(msecs as int))]
  {
    t := new TimeoutList();
    ReportedIs(start, 0);
    SetAlone(t, msecs, h, arg);
    FirstTaken(Entry(msecs, h, arg), Reported(start, Reading(start, 0)));
    var message := t.Round(Turn(false, Reported(start, Reading(start, 0)), 0, []), 0);
    ThenCalled(Entry(0, h, arg));
    message := t.Round(Turn(false, 1, 0, []), 0);
  }

  /** Setting the only timeout. */
  method SetAlone(t: TimeoutList, msecs: u32, h: nat, arg: nat)
    requires t.Valid() && t.list == [] && t.due == []
    modifies t
    ensures t.Valid() && Deadlines(t.list, 0) == [Entry(msecs, h, arg)] && t.due == [Promise(t.now + msecs, t.skew)]
    ensures t.now == old(t.now) && t.skew == old(t.skew) && t.fired == old(t.fired)
  {
    var ok := t.Timeout(msecs, h, arg);
  }
}
