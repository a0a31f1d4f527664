/** Whole runs of the wake-up protocol: what its theorems say in terms of the actions of a run. */
module SelectRuns {
  import opened SelectWakeup

  // ----- runs -----

  /** `trace` is an interleaving that starts with all sockets idle and no call in progress. */
  ghost predicate IsRun(n: nat, trace: seq<State>, acts: seq<Action>) {
    && |trace| == |acts| + 1 && trace[0] == Init(n)
    && forall i :: 0 <= i < |acts| ==> IsStep(trace[i], acts[i], trace[i + 1])
  }

  ghost predicate IsStep(S: State, a: Action, T: State) {
    Shape(S) && Enabled(S, a) && T == Apply(S, a)
  }

  lemma {:induction false} RunKeepsInv(n: nat, trace: seq<State>, acts: seq<Action>, k: nat)
    requires IsRun(n, trace, acts) && k < |trace|
    ensures Inv(trace[k])
  {
    if k == 0 {
      assert forall s: nat :: Waiters(trace[0], s) == {};
    } else {
      RunKeepsInv(n, trace, acts, k - 1);
      assert IsStep(trace[k - 1], acts[k - 1], trace[k]);
      StepKeepsInv(trace[k - 1], acts[k - 1]);
    }
  }

  // ----- what the events of a run come to -----

  /** Action `i` reports event `e` of socket `s`. */
  ghost predicate Posted(acts: seq<Action>, i: nat, s: nat, e: Event) {
    i < |acts| && acts[i].Post? && acts[i].s == s && acts[i].e == e
  }

  /** The packets that have been reported for socket `s` less those that have been fetched. */
  ghost function Packets(acts: seq<Action>, k: nat, s: nat): int
    requires k <= |acts|
  {
    if k == 0 then 0
    else Packets(acts, k - 1, s) + (if Posted(acts, k - 1, s, RcvPlus) then 1 else if Posted(acts, k - 1, s, RcvMinus) then -1 else 0)
  }

  /** The last thing reported about sending on socket `s` is that it is possible. */
  ghost predicate CanSend(acts: seq<Action>, k: nat, s: nat) {
    exists i: nat :: i < k && Posted(acts, i, s, SendPlus) && forall j: nat :: i < j < k ==> !Posted(acts, j, s, SendMinus)
  }

  ghost predicate Failed(acts: seq<Action>, k: nat, s: nat) {
    exists i: nat :: i < k && Posted(acts, i, s, Error)
  }

  ghost predicate Left(acts: seq<Action>, i: nat, s: nat, left: bool) {
    i < |acts| && acts[i] == LeaveOver(s, left)
  }

  /** The last receive that said something about it has left data over. */
  ghost predicate HasLeft(acts: seq<Action>, k: nat, s: nat) {
    exists i: nat :: i < k && Left(acts, i, s, true) && forall j: nat :: i < j < k ==> !Left(acts, j, s, false)
  }

  lemma CanSendStep(acts: seq<Action>, k: nat, s: nat)
    requires k < |acts|
    ensures CanSend(acts, k + 1, s) <==> Posted(acts, k, s, SendPlus) || (CanSend(acts, k, s) && !Posted(acts, k, s, SendMinus))
  {
    if CanSend(acts, k, s) && !Posted(acts, k, s, SendMinus) {
      var i: nat :| i < k && Posted(acts, i, s, SendPlus) && forall j: nat :: i < j < k ==> !Posted(acts, j, s, SendMinus);
      assert i < k + 1;
    }
  }

  lemma HasLeftStep(acts: seq<Action>, k: nat, s: nat)
    requires k < |acts|
    ensures HasLeft(acts, k + 1, s) <==> Left(acts, k, s, true) || (HasLeft(acts, k, s) && !Left(acts, k, s, false))
  {
    if HasLeft(acts, k, s) && !Left(acts, k, s, false) {
      var i: nat :| i < k && Left(acts, i, s, true) && forall j: nat :: i < j < k ==> !Left(acts, j, s, false);
      assert i < k + 1;
    }
  }

  lemma FailedStep(acts: seq<Action>, k: nat, s: nat)
    requires k < |acts|
    ensures Failed(acts, k + 1, s) <==> Posted(acts, k, s, Error) || Failed(acts, k, s)
  {
  }

  /** The event fields of a socket are what the actions of the run say. */
  ghost predicate EventsAre(k: Socket, acts: seq<Action>, m: nat, s: nat)
    requires m <= |acts|
  {
    && k.rcvevent == Packets(acts, m, s) && (k.sendevent <==> CanSend(acts, m, s))
    && (k.errevent <==> Failed(acts, m, s)) && (k.left <==> HasLeft(acts, m, s))
  }

  lemma EventsStep(S: State, acts: seq<Action>, m: nat, s: nat)
    requires m < |acts| && Shape(S) && Enabled(S, acts[m]) && s < |S.socks| && EventsAre(S.socks[s], acts, m, s)
    ensures var T := Apply(S, acts[m]); |T.socks| == |S.socks| && EventsAre(T.socks[s], acts, m + 1, s)
  {
    var a := acts[m];
    CanSendStep(acts, m, s);
    HasLeftStep(acts, m, s);
    FailedStep(acts, m, s);
    if a.Post? && a.s == s {
      PostSets(S, a.id, s, a.e);
    } else if !(a.LeaveOver? && a.s == s) {
      OthersKeepEvents(S, a, s);
    }
  }

  lemma {:induction false} RunSockets(n: nat, trace: seq<State>, acts: seq<Action>, k: nat)
    requires IsRun(n, trace, acts) && k < |trace|
    ensures |trace[k].socks| == n
  {
    for j := 0 to k
      invariant |trace[j].socks| == n
    {
      assert IsStep(trace[j], acts[j], trace[j + 1]);
      SocketsStay(trace[j], acts[j]);
    }
  }

  ghost predicate EventsAt(trace: seq<State>, acts: seq<Action>, j: nat, s: nat) {
    j < |trace| && j <= |acts| && s < |trace[j].socks| && EventsAre(trace[j].socks[s], acts, j, s)
  }

  lemma IdleAtFirst(n: nat, trace: seq<State>, acts: seq<Action>, s: nat)
    requires trace != [] && trace[0] == Init(n) && s < n
    ensures EventsAt(trace, acts, 0, s)
  {
  }

  lemma EventsGoOn(trace: seq<State>, acts: seq<Action>, j: nat, s: nat)
    requires j < |acts| && j + 1 < |trace| && IsStep(trace[j], acts[j], trace[j + 1]) && EventsAt(trace, acts, j, s)
    ensures EventsAt(trace, acts, j + 1, s)
  {
    EventsStep(trace[j], acts, j, s);
  }

  /** In every state of every run, the event fields are those that the events so far add up to. */
  lemma {:induction false} RunEvents(n: nat, trace: seq<State>, acts: seq<Action>, k: nat, s: nat)
    requires IsRun(n, trace, acts) && k < |trace| && s < n
    ensures s < |trace[k].socks| && EventsAre(trace[k].socks[s], acts, k, s)
  {
    IdleAtFirst(n, trace, acts, s);
    for j := 0 to k
      invariant EventsAt(trace, acts, j, s)
    {
      assert IsStep(trace[j], acts[j], trace[j + 1]);
      EventsGoOn(trace, acts, j, s);
    }
  }

  /** What a call asks for is what it was started with, the last time it was. */
  ghost predicate StartedWith(acts: seq<Action>, k: nat, t: Tid, c: Caller) {
    exists i: nat :: i < k && IsStart(acts, i, t, c.sets, c.limit) && forall j: nat :: i < j < k ==> !Restarts(acts, j, t)
  }

  ghost predicate IsStart(acts: seq<Action>, i: nat, t: Tid, sets: FdSets, limit: nat) {
    i < |acts| && acts[i] == Start(t, sets, limit)
  }

  ghost predicate Restarts(acts: seq<Action>, j: nat, t: Tid) {
    j < |acts| && acts[j].Start? && acts[j].t == t
  }

  lemma StartedStep(acts: seq<Action>, k: nat, t: Tid, c: Caller, d: Caller)
    requires k < |acts| && d.sets == c.sets && d.limit == c.limit
    requires IsStart(acts, k, t, c.sets, c.limit) || (StartedWith(acts, k, t, c) && !Restarts(acts, k, t))
    ensures StartedWith(acts, k + 1, t, d)
  {
    if IsStart(acts, k, t, c.sets, c.limit) {
      assert k < k + 1;
    } else {
      var i: nat :| i < k && IsStart(acts, i, t, c.sets, c.limit) && forall j: nat :: i < j < k ==> !Restarts(acts, j, t);
      assert i < k + 1 && IsStart(acts, i, t, d.sets, d.limit);
    }
  }

  lemma NotRestarted(S: State, acts: seq<Action>, k: nat, t: Tid)
    requires k < |acts| && Enabled(S, acts[k]) && t in S.callers
    ensures !Restarts(acts, k, t)
  {
  }

  /** In every state of every run, a call asks for what it was started with. */
  lemma {:induction false} RunSets(n: nat, trace: seq<State>, acts: seq<Action>, k: nat, t: Tid)
    requires IsRun(n, trace, acts) && k < |trace| && t in trace[k].callers
    ensures StartedWith(acts, k, t, trace[k].callers[t])
  {
    if k > 0 {
      var i, c := k - 1, trace[k].callers[t];
      assert IsStep(trace[i], acts[i], trace[k]);
      SetsStay(trace[i], acts[i], t);
      if t in trace[i].callers {
        RunSets(n, trace, acts, i, t);
        NotRestarted(trace[i], acts, i, t);
        StartedStep(acts, i, t, trace[i].callers[t], c);
      } else {
        StartedStep(acts, i, t, c, c);
      }
    }
  }

  /** Before state `k`, action `i` signalled call `t` because of socket `s`: the action is a section of a callback
      for that socket, which by then had something that the call waits for. */
  ghost predicate Signals(trace: seq<State>, acts: seq<Action>, i: nat, t: Tid, s: nat, sets: FdSets) {
    && i < |acts| && i < |trace|
    && ((acts[i].Post? && acts[i].s == s)
        || (acts[i].Walk? && acts[i].id in trace[i].callbacks && trace[i].callbacks[acts[i].id].sock == s))
    && ((s in sets.read && Packets(acts, i + 1, s) > 0) || (s in sets.write && CanSend(acts, i + 1, s))
        || (s in sets.except && Failed(acts, i + 1, s)))
  }

  /** No call is signalled without a reason. */
  lemma {:induction false} NoFalseAlarm(n: nat, trace: seq<State>, acts: seq<Action>, k: nat, t: Tid)
    requires IsRun(n, trace, acts) && k < |trace| && t in trace[k].callers && trace[k].callers[t].signalled
    ensures exists i: nat, s: nat :: i < k && Signals(trace, acts, i, t, s, trace[k].callers[t].sets)
  {
    if k > 0 {
      var i := k - 1;
      assert IsStep(trace[i], acts[i], trace[k]);
      SetsStay(trace[i], acts[i], t);
      if trace[i].callers[t].signalled {
        NoFalseAlarm(n, trace, acts, i, t);
      } else {
        SignalHasReason(trace[i], acts[i], t);
        var s := if acts[i].Post? then acts[i].s else trace[i].callbacks[acts[i].id].sock;
        RunSockets(n, trace, acts, k);
        RunEvents(n, trace, acts, k, s);
        assert Signals(trace, acts, i, t, s, trace[k].callers[t].sets);
      }
    }
  }

  /** Action `i` leaves data over on socket `s`, which call `t` wants to read and has passed already. */
  ghost predicate LeavesBehind(trace: seq<State>, acts: seq<Action>, i: nat, t: Tid, s: nat) {
    && i < |acts| && i < |trace| && acts[i] == LeaveOver(s, true)
    && t in trace[i].callers && HasPassed(trace[i].callers[t], s) && s in trace[i].callers[t].sets.read
  }

  /** Action `j` takes the data, or is the beginning of another call `t`. */
  ghost predicate Settles(acts: seq<Action>, j: nat, t: Tid, s: nat) {
    j < |acts| && (acts[j] == LeaveOver(s, false) || (acts[j].Start? && acts[j].t == t))
  }

  /** Before state `k`, data were left over behind the back of call `t`, and they are still there. */
  ghost predicate LeftBehind(trace: seq<State>, acts: seq<Action>, k: nat, t: Tid, s: nat) {
    exists i: nat :: i < k && LeavesBehind(trace, acts, i, t, s) && forall j: nat :: i < j < k ==> !Settles(acts, j, t, s)
  }

  /** `behind` records just that. */
  lemma {:induction false} BehindIsLeft(n: nat, trace: seq<State>, acts: seq<Action>, k: nat, t: Tid, s: nat)
    requires IsRun(n, trace, acts) && k < |trace|
    ensures (t, s) in trace[k].behind <==> LeftBehind(trace, acts, k, t, s)
  {
    if k > 0 {
      var i := k - 1;
      assert IsStep(trace[i], acts[i], trace[k]);
      BehindIsLeft(n, trace, acts, i, t, s);
      BehindStep(trace[i], acts[i], t, s);
      LeftStep(trace, acts, i, t, s);
    }
  }

  lemma BehindStep(S: State, a: Action, t: Tid, s: nat)
    requires Shape(S) && Enabled(S, a)
    ensures (t, s) in Apply(S, a).behind <==>
      (a == LeaveOver(s, true) && (t, s) in PassedBy(S, s))
      || ((t, s) in S.behind && a != LeaveOver(s, false) && !(a.Start? && a.t == t))
  {
  }

  lemma LeftStep(trace: seq<State>, acts: seq<Action>, k: nat, t: Tid, s: nat)
    requires k < |acts|
    ensures LeftBehind(trace, acts, k + 1, t, s) <==>
      LeavesBehind(trace, acts, k, t, s) || (LeftBehind(trace, acts, k, t, s) && !Settles(acts, k, t, s))
  {
    if LeftBehind(trace, acts, k, t, s) && !Settles(acts, k, t, s) {
      var i: nat :| i < k && LeavesBehind(trace, acts, i, t, s) && forall j: nat :: i < j < k ==> !Settles(acts, j, t, s);
      assert i < k + 1;
    }
  }

  /** No lost wake-up: in every reachable state, a call that waits unsignalled while no callback for
      socket `s` is under way waits for nothing that the run has reported: no packet for its read set is left to
      fetch, sending was not the last thing reported possible for its write set, no error was reported for its
      exception set. Data that a receive has left over are there for it to read if and only if they were left
      over after it had passed the socket, and no receive has taken them since. */
  lemma NoLostWakeup(n: nat, trace: seq<State>, acts: seq<Action>, k: nat, t: Tid, s: nat)
    requires IsRun(n, trace, acts) && k < |trace| && t in trace[k].callers
    requires trace[k].callers[t].phase.Blocked? && !trace[k].callers[t].signalled
    requires s < trace[k].callers[t].limit && s < n
    requires forall id :: id in trace[k].callbacks ==> trace[k].callbacks[id].sock != s
    ensures var sets := trace[k].callers[t].sets;
      && !(s in sets.read && Packets(acts, k, s) > 0)
      && !(s in sets.write && CanSend(acts, k, s))
      && !(s in sets.except && Failed(acts, k, s))
      && (s in sets.read && HasLeft(acts, k, s) <==> LeftBehind(trace, acts, k, t, s))
  {
    RunKeepsInv(n, trace, acts, k);
    RunEvents(n, trace, acts, k, s);
    BehindIsLeft(n, trace, acts, k, t, s);
    var S := trace[k];
    if Matches(S.socks[s], S.callers[t].sets, s) {
      assert Owed(S, t, s);
    }
    if Ready(S.socks[s], S.callers[t].sets, s) {
      assert Overlooks(S, t, s);
    }
    if (t, s) in S.behind {
      assert IsBehind(S, t, s);
    }
  }

  /** As long as no receive leaves data over that a call wants to read and has passed, the call never waits for
      a socket on which such data are. */
  lemma NothingOverlooked(n: nat, trace: seq<State>, acts: seq<Action>, k: nat, t: Tid, s: nat)
    requires IsRun(n, trace, acts) && k < |trace| && t in trace[k].callers
    requires trace[k].callers[t].phase.Blocked? && !trace[k].callers[t].signalled
    requires s < trace[k].callers[t].limit && s < n
    requires forall id :: id in trace[k].callbacks ==> trace[k].callbacks[id].sock != s
    requires forall i: nat :: i < k ==> !LeavesBehind(trace, acts, i, t, s)
    ensures s < |trace[k].socks| && !Ready(trace[k].socks[s], trace[k].callers[t].sets, s)
    ensures !(s in trace[k].callers[t].sets.read && HasLeft(acts, k, s))
  {
    NoLostWakeup(n, trace, acts, k, t, s);
    RunEvents(n, trace, acts, k, s);
  }

  const READ_ZERO := FdSets({0}, {}, {})

  /** A state with socket 0 only, before a call for it. */
  ghost function Before0(packets: int): State {
    State([Socket(packets, false, false, 0, false)], map[], [], 0, map[], {})
  }

  /** The state with the only call, which reads socket 0, in phase `p`. */
  ghost function Alone(p: Phase, waiting: int, left: bool): State {
    State([Socket(0, false, false, waiting, left)], map[0 := Caller(READ_ZERO, 1, p, false, 0)],
      if OnList(p) then [0] else [], if OnList(p) then 1 else 0, map[], if left then {(0, 0)} else {})
  }

  lemma PacketComes()
    ensures Init(1) == Before0(0)
    ensures IsStep(Before0(0), Post(0, 0, RcvPlus), Before0(1)) && IsStep(Before0(1), Post(0, 0, RcvMinus), Before0(0))
    ensures IsStep(Before0(0), Start(0, READ_ZERO, 1), Alone(FirstScan(0, false), 0, false))
  {
  }

  /** What comes after a phase when nothing is ready. */
  ghost function AloneNext(p: Phase): Phase {
    match p
    case FirstScan(i, _) => if i == 0 then FirstScan(1, false) else Counting(0)
    case Counting(i) => if i == 0 then Counting(1) else Rescan(0, false)
    case Rescan(i, _) => if i == 0 then Rescan(1, false) else Blocked
    case _ => p
  }

  lemma AloneAdvances(p: Phase)
    requires p in {FirstScan(0, false), FirstScan(1, false), Counting(0), Counting(1), Rescan(0, false), Rescan(1, false)}
    ensures var w := if p == Counting(1) || p.Rescan? then 1 else 0;
      IsStep(Alone(p, w, false), Advance(0), Alone(AloneNext(p), if p == Counting(0) then 1 else w, false))
  {
  }

  lemma AloneLeft()
    ensures IsStep(Alone(Blocked, 1, false), LeaveOver(0, true), Alone(Blocked, 1, true))
  {
    var S := Alone(Blocked, 1, false);
    assert (0, 0) in PassedBy(S, 0);
    assert PassedBy(S, 0) == {(0, 0)};
  }

  lemma RunMore(n: nat, trace: seq<State>, acts: seq<Action>, S: State, a: Action, T: State)
    returns (trace': seq<State>, acts': seq<Action>)
    requires IsRun(n, trace, acts) && trace[|acts|] == S && IsStep(S, a, T)
    ensures IsRun(n, trace', acts') && |acts'| == |acts| + 1 && trace'[|acts'|] == T
  {
    trace', acts' := trace + [T], acts + [a];
    forall i | 0 <= i < |acts'| ensures IsStep(trace'[i], acts'[i], trace'[i + 1]) {
      assert i < |acts| ==> IsStep(trace[i], acts[i], trace[i + 1]);
    }
  }

  /** A run in which a call is left waiting on a socket that can be read: a packet comes and is fetched by a
      receive; a select call finds nothing and waits; then the receive keeps the rest of the packet. */
  lemma LeftWaiting() returns (trace: seq<State>, acts: seq<Action>)
    ensures IsRun(1, trace, acts) && |acts| == 10
    ensures trace[10] == Alone(Blocked, 1, true)
    ensures Ready(trace[10].socks[0], trace[10].callers[0].sets, 0) && !Enabled(trace[10], Advance(0))
  {
    trace, acts := [Before0(0)], [];
    PacketComes();
    trace, acts := RunMore(1, trace, acts, Before0(0), Post(0, 0, RcvPlus), Before0(1));
    trace, acts := RunMore(1, trace, acts, Before0(1), Post(0, 0, RcvMinus), Before0(0));
    trace, acts := RunMore(1, trace, acts, Before0(0), Start(0, READ_ZERO, 1), Alone(FirstScan(0, false), 0, false));
    trace, acts := AloneMore(trace, acts, FirstScan(0, false), 0, FirstScan(1, false), 0);
    trace, acts := AloneMore(trace, acts, FirstScan(1, false), 0, Counting(0), 0);
    trace, acts := AloneMore(trace, acts, Counting(0), 0, Counting(1), 1);
    trace, acts := AloneMore(trace, acts, Counting(1), 1, Rescan(0, false), 1);
    trace, acts := AloneMore(trace, acts, Rescan(0, false), 1, Rescan(1, false), 1);
    trace, acts := AloneMore(trace, acts, Rescan(1, false), 1, Blocked, 1);
    AloneLeft();
    trace, acts := RunMore(1, trace, acts, Alone(Blocked, 1, false), LeaveOver(0, true), Alone(Blocked, 1, true));
  }

  lemma AloneMore(trace: seq<State>, acts: seq<Action>, p: Phase, w: nat, q: Phase, v: nat)
    returns (trace': seq<State>, acts': seq<Action>)
    requires IsRun(1, trace, acts) && trace[|acts|] == Alone(p, w, false) && q == AloneNext(p)
    requires p in {FirstScan(0, false), FirstScan(1, false), Counting(0), Counting(1), Rescan(0, false), Rescan(1, false)}
    requires w == (if p == Counting(1) || p.Rescan? then 1 else 0) && v == if p == Counting(0) then 1 else w
    ensures IsRun(1, trace', acts') && |acts'| == |acts| + 1 && trace'[|acts'|] == Alone(q, v, false)
  {
    AloneAdvances(p);
    trace', acts' := RunMore(1, trace, acts, Alone(p, w, false), Advance(0), Alone(q, v, false));
  }

  /** A waiting call that has been signalled can go on, exactly then, and the signal is not doubled. */
  lemma SignalledMeansWoken(n: nat, trace: seq<State>, acts: seq<Action>, k: nat, t: Tid)
    requires IsRun(n, trace, acts) && k < |trace| && t in trace[k].callers && trace[k].callers[t].phase.Blocked?
    ensures Enabled(trace[k], Advance(t)) <==> trace[k].callers[t].signalled
    ensures trace[k].callers[t].sem <= 1
  {
    RunKeepsInv(n, trace, acts, k);
  }

  /** The assertions on select_waiting hold: it is positive once a call has counted itself in at a
      socket, and never negative after a call has counted itself out. */
  lemma WaitingNeverNegative(n: nat, trace: seq<State>, acts: seq<Action>, k: nat, s: nat)
    requires IsRun(n, trace, acts) && k < |trace| && s < |trace[k].socks|
    ensures trace[k].socks[s].waiting >= 0
    ensures (exists t :: t in trace[k].callers && Counted(trace[k].callers[t], s)) ==> trace[k].socks[s].waiting > 0
  {
    RunKeepsInv(n, trace, acts, k);
    forall t | t in trace[k].callers && Counted(trace[k].callers[t], s) ensures trace[k].socks[s].waiting > 0 {
      assert t in Waiters(trace[k], s);
    }
  }
}
