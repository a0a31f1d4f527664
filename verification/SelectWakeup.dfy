/** The wake-up protocol between lwip_select and event_callback, as a state machine.

    Every SYS_ARCH_PROTECT section is one atomic step; between steps any other select caller and
    any other event callback may run. Sockets are not closed while a select uses them. */
module SelectWakeup {
  type Tid = nat
  type Cid = nat

  /** The event fields of a socket, the number of select calls that count it, and whether a receive has left
      data over. */
  datatype Socket = Socket(rcvevent: int, sendevent: bool, errevent: bool, waiting: int, left: bool)

  datatype Event = RcvPlus | RcvMinus | SendPlus | SendMinus | Error

  datatype FdSets = FdSets(read: set<nat>, write: set<nat>, except: set<nat>)

  predicate AsksFor(sets: FdSets, s: nat) {
    s in sets.read || s in sets.write || s in sets.except
  }

  /** Where a select call is: scanning before it is on the list, counting itself in at each socket,
      scanning again, waiting on its semaphore, or counting itself out. */
  datatype Phase =
    | FirstScan(next: nat, ready: bool)
    | Counting(next: nat)
    | Rescan(next: nat, ready: bool)
    | Blocked
    | Uncounting(next: nat)

  /** One call of lwip_select: its descriptor sets, its maxfdp1, and its list entry. */
  datatype Caller = Caller(sets: FdSets, limit: nat, phase: Phase, signalled: bool, sem: nat)

  /** An event_callback between two protected sections: the socket it reports, the list entry it
      has examined last, and the list counter it has noted there. */
  datatype Callback = Callback(sock: nat, at: Tid, seen: nat)

  /** `behind` is for the proof only: the calls, with their sockets, that had passed a socket they want to
      read when data were left over on it, as long as these data are there. */
  datatype State = State(
    socks: seq<Socket>,
    callers: map<Tid, Caller>,
    list: seq<Tid>,
    ctr: nat,
    callbacks: map<Cid, Callback>,
    behind: set<(Tid, nat)>)

  function Init(n: nat): State {
    State(seq(n, _ => Socket(0, false, false, 0, false)), map[], [], 0, map[], {})
  }

  /** Socket `k`, numbered `s`, has an event that the sets ask for. */
  predicate Matches(k: Socket, sets: FdSets, s: nat) {
    (k.rcvevent > 0 && s in sets.read) || (k.sendevent && s in sets.write) || (k.errevent && s in sets.except)
  }

  /** A scan finds socket `k`, numbered `s`, ready for the sets; left-over data can be read, too. */
  predicate Ready(k: Socket, sets: FdSets, s: nat) {
    (k.left && s in sets.read) || Matches(k, sets, s)
  }

  predicate OnList(p: Phase) {
    !p.FirstScan?
  }

  /** The call has increased the counter of socket `s` and not decreased it again. */
  predicate Counted(c: Caller, s: nat) {
    s < c.limit && AsksFor(c.sets, s) &&
    match c.phase
    case FirstScan(_, _) => false
    case Counting(next) => s < next
    case Rescan(_, _) => true
    case Blocked => true
    case Uncounting(next) => next <= s
  }

  // ----- steps -----

  function Raise(k: Socket, e: Event): Socket {
    match e
    case RcvPlus => k.(rcvevent := k.rcvevent + 1)
    case RcvMinus => k.(rcvevent := k.rcvevent - 1)
    case SendPlus => k.(sendevent := true)
    case SendMinus => k.(sendevent := false)
    case Error => k.(errevent := true)
  }

  /** event_callback examines one list entry: signal it unless it has been signalled before. */
  function Examine(c: Caller, k: Socket, s: nat): Caller {
    if !c.signalled && Matches(k, c.sets, s) then c.(signalled := true, sem := c.sem + 1) else c
  }

  /** Callback `id` reaches list position `p`, or the end of the list. */
  function Reach(S: State, id: Cid, s: nat, p: nat): State
    requires s < |S.socks| && (forall t :: t in S.list ==> t in S.callers)
  {
    if p < |S.list| then
      var t := S.list[p];
      S.(callers := S.callers[t := Examine(S.callers[t], S.socks[s], s)],
         callbacks := S.callbacks[id := Callback(s, t, S.ctr)])
    else S.(callbacks := S.callbacks - {id})
  }

  function Position(list: seq<Tid>, t: Tid): (p: nat)
    requires t in list
    ensures p < |list| && list[p] == t
  {
    if list[0] == t then 0 else 1 + Position(list[1..], t)
  }

  datatype Action =
    | Start(t: Tid, sets: FdSets, limit: nat)
    | Advance(t: Tid)
    | GiveUp(t: Tid)
    | Post(id: Cid, s: nat, e: Event)
    | Walk(id: Cid)
    | LeaveOver(s: nat, left: bool)

  /** A step is possible. `Advance` is the next protected section of a select call, `GiveUp` the
      expiry of its timeout (immediately after the first scan when the timeout is zero), `Post` the
      first section of an event_callback and `Walk` a later one. `LeaveOver` is a receive that keeps what it
      has not delivered in the socket, or has delivered all of it; no event is reported for that. */
  ghost predicate Enabled(S: State, a: Action) {
    match a
    case Start(t, sets, limit) =>
      t !in S.callers && limit <= |S.socks| && forall s :: s in sets.read + sets.write + sets.except ==> s < |S.socks|
    case Advance(t) => t in S.callers && (S.callers[t].phase.Blocked? ==> S.callers[t].sem > 0)
    case GiveUp(t) =>
      t in S.callers && (S.callers[t].phase.Blocked? || S.callers[t].phase == FirstScan(S.callers[t].limit, false))
    case Post(id, s, e) => id !in S.callbacks && s < |S.socks|
    case Walk(id) => id in S.callbacks
    case LeaveOver(s, _) => s < |S.socks|
  }

  /** The calls that have passed socket `s`, which they want to read. */
  ghost function PassedBy(S: State, s: nat): set<(Tid, nat)> {
    set t | t in S.callers && HasPassed(S.callers[t], s) && s in S.callers[t].sets.read :: (t, s)
  }

  ghost function SetPhase(S: State, t: Tid, p: Phase): State
    requires t in S.callers
  {
    S.(callers := S.callers[t := S.callers[t].(phase := p)])
  }

  /** The counter of socket `s` changes by `d` when call `t` asks for that socket. */
  ghost function Count(S: State, t: Tid, s: nat, d: int): State
    requires t in S.callers && s < |S.socks|
  {
    if AsksFor(S.callers[t].sets, s) then S.(socks := S.socks[s := S.socks[s].(waiting := S.socks[s].waiting + d)]) else S
  }

  ghost function Without(list: seq<Tid>, t: Tid): seq<Tid>
    requires t in list
  {
    list[..Position(list, t)] + list[Position(list, t) + 1..]
  }

  ghost function AdvanceCaller(S: State, t: Tid): State
    requires Shape(S) && t in S.callers
  {
    var c := S.callers[t];
    match c.phase
    case FirstScan(i, ready) =>
      if i < c.limit then SetPhase(S, t, FirstScan(i + 1, ready || Ready(S.socks[i], c.sets, i)))
      else if ready then S.(callers := S.callers - {t})
      else S.(callers := S.callers[t := c.(phase := Counting(0), signalled := false, sem := 0)],
              list := [t] + S.list, ctr := S.ctr + 1)
    case Counting(i) =>
      if i < c.limit then Count(SetPhase(S, t, Counting(i + 1)), t, i, 1)
      else SetPhase(S, t, Rescan(0, false))
    case Rescan(i, ready) =>
      if i < c.limit then SetPhase(S, t, Rescan(i + 1, ready || Ready(S.socks[i], c.sets, i)))
      else SetPhase(S, t, if ready then Uncounting(0) else Blocked)
    case Blocked =>
      S.(callers := S.callers[t := c.(phase := Uncounting(0), sem := if c.sem > 0 then c.sem - 1 else 0)])
    case Uncounting(i) =>
      if i < c.limit then Count(SetPhase(S, t, Uncounting(i + 1)), t, i, -1)
      else S.(callers := S.callers - {t}, list := Without(S.list, t), ctr := S.ctr + 1)
  }

  ghost function Apply(S: State, a: Action): State
    requires Shape(S) && Enabled(S, a)
  {
    match a
    case Start(t, sets, limit) =>
      S.(callers := S.callers[t := Caller(sets, limit, FirstScan(0, false), false, 0)],
         behind := set x | x in S.behind && x.0 != t)
    case Advance(t) => AdvanceCaller(S, t)
    case GiveUp(t) =>
      if S.callers[t].phase.Blocked? then SetPhase(S, t, Uncounting(0)) else S.(callers := S.callers - {t})
    case Post(id, s, e) =>
      var R := S.(socks := S.socks[s := Raise(S.socks[s], e)]);
      if S.socks[s].waiting == 0 then R else Reach(R, id, s, 0)
    case Walk(id) =>
      var b := S.callbacks[id];
      Reach(S, id, b.sock, if b.seen != S.ctr then 0 else Position(S.list, b.at) + 1)
    case LeaveOver(s, left) =>
      S.(socks := S.socks[s := S.socks[s].(left := left)],
         behind := if left then S.behind + PassedBy(S, s) else set x | x in S.behind && x.1 != s)
  }

  // ----- the invariant -----

  /** The list holds exactly the calls that are past their first scan, each once; callbacks that
      have noted the current list counter stand on a list entry. */
  ghost predicate Shape(S: State) {
    && (forall t :: t in S.list ==> t in S.callers && OnList(S.callers[t].phase))
    && (forall t :: t in S.callers && OnList(S.callers[t].phase) ==> t in S.list)
    && (forall p, q :: 0 <= p < q < |S.list| ==> S.list[p] != S.list[q])
    && (forall t :: t in S.callers ==> S.callers[t].limit <= |S.socks|)
    && (forall id :: id in S.callbacks ==>
          S.callbacks[id].sock < |S.socks| && S.callbacks[id].seen <= S.ctr
          && (S.callbacks[id].seen == S.ctr ==> S.callbacks[id].at in S.list))
  }

  ghost function Waiters(S: State, s: nat): set<Tid> {
    set t | t in S.callers && Counted(S.callers[t], s)
  }

  /** Each socket's counter is the number of calls that have counted themselves in. */
  ghost predicate CountsWaiters(S: State) {
    forall s :: 0 <= s < |S.socks| ==> S.socks[s].waiting == |Waiters(S, s)|
  }

  /** A call is signalled at most once, and a signal stays in its semaphore until it has waited. */
  ghost predicate SignalKept(c: Caller) {
    match c.phase
    case FirstScan(_, _) => true
    case Uncounting(_) => c.sem <= if c.signalled then 1 else 0
    case _ => c.sem == if c.signalled then 1 else 0
  }

  /** The call has looked at socket `s` since it registered, and has found nothing ready so far. */
  predicate HasPassed(c: Caller, s: nat) {
    s < c.limit && AsksFor(c.sets, s) && (c.phase.Blocked? || (c.phase.Rescan? && !c.phase.ready && s < c.phase.next))
  }

  /** List entry `a` comes before entry `t`. */
  ghost predicate Before(list: seq<Tid>, a: Tid, t: Tid) {
    a in list && t in list && Position(list, a) < Position(list, t)
  }

  /** A callback for socket `s` will still examine call `t`. */
  ghost predicate OnTheWay(S: State, id: Cid, s: nat, t: Tid) {
    id in S.callbacks && S.callbacks[id].sock == s
    && (S.callbacks[id].seen != S.ctr || Before(S.list, S.callbacks[id].at, t))
  }

  /** Call `t` must still be woken for socket `s`: it has passed the socket, which now has a matching
      event, and it has not been signalled. */
  ghost predicate Owed(S: State, t: Tid, s: nat) {
    t in S.callers && s < |S.socks| && HasPassed(S.callers[t], s) && !S.callers[t].signalled
    && Matches(S.socks[s], S.callers[t].sets, s)
  }

  ghost predicate WillBeReached(S: State) {
    forall t, s :: Owed(S, t, s) ==> exists id :: OnTheWay(S, id, s, t)
  }

  ghost predicate SignalsKept(S: State) {
    forall t :: t in S.callers ==> SignalKept(S.callers[t])
  }

  /** A call has passed socket `s` although it wants to read data that are left over there. */
  ghost predicate Overlooks(S: State, t: Tid, s: nat) {
    t in S.callers && s < |S.socks| && HasPassed(S.callers[t], s) && S.socks[s].left && s in S.callers[t].sets.read
  }

  ghost predicate IsBehind(S: State, t: Tid, s: nat) {
    s < |S.socks| && S.socks[s].left && (t in S.callers ==> s in S.callers[t].sets.read)
  }

  /** `behind` is right: data that a call overlooks were left over behind its back. */
  ghost predicate LeftKnown(S: State) {
    && (forall t: Tid, s: nat {:trigger Overlooks(S, t, s)} :: Overlooks(S, t, s) ==> (t, s) in S.behind)
    && (forall t: Tid, s: nat {:trigger IsBehind(S, t, s)} :: (t, s) in S.behind ==> IsBehind(S, t, s))
  }

  ghost predicate Inv(S: State) {
    Shape(S) && CountsWaiters(S) && SignalsKept(S) && WillBeReached(S) && LeftKnown(S)
  }

  /** A step keeps it that leaves `behind` and left-over data alone, lets no call pass such data, and does not
      change what a call asks for. */
  lemma LeftStaysKnown(S: State, T: State)
    requires LeftKnown(S) && T.behind == S.behind && |T.socks| == |S.socks|
    requires forall k :: 0 <= k < |S.socks| ==> T.socks[k].left == S.socks[k].left
    requires forall t :: t in T.callers ==> t in S.callers && T.callers[t].sets == S.callers[t].sets
    requires forall t, s: nat :: t in T.callers && s < |T.socks| && HasPassed(T.callers[t], s) ==>
      HasPassed(S.callers[t], s) || !Ready(S.socks[s], S.callers[t].sets, s)
    ensures LeftKnown(T)
  {
    forall t: Tid, s: nat | Overlooks(T, t, s) ensures (t, s) in T.behind {
      assert Overlooks(S, t, s);
    }
    forall t: Tid, s: nat | (t, s) in T.behind ensures IsBehind(T, t, s) {
      assert IsBehind(S, t, s);
    }
  }

  // ----- preservation -----

  lemma PositionUnique(list: seq<Tid>, p: nat)
    requires p < |list| && forall i, j :: 0 <= i < j < |list| ==> list[i] != list[j]
    ensures Position(list, list[p]) == p
  {
  }

  /** What examining one list entry, or reaching the end of the list, preserves. */
  lemma ReachKeepsInv(S: State, id: Cid, s: nat, p: nat, T: State)
    requires Shape(S) && SignalsKept(S) && s < |S.socks| && T == Reach(S, id, s, p)
    ensures Shape(T) && SignalsKept(T) && (CountsWaiters(S) ==> CountsWaiters(T)) && (LeftKnown(S) ==> LeftKnown(T))
  {
    ReachKeepsShape(S, id, s, p, T);
    ReachKeepsCounts(S, id, s, p, T);
    if LeftKnown(S) {
      LeftStaysKnown(S, T);
    }
  }

  lemma ReachKeepsShape(S: State, id: Cid, s: nat, p: nat, T: State)
    requires Shape(S) && s < |S.socks| && T == Reach(S, id, s, p)
    ensures Shape(T) && T.callers.Keys == S.callers.Keys && T.socks == S.socks && T.behind == S.behind
    ensures forall t :: t in S.callers ==>
      T.callers[t].phase == S.callers[t].phase && T.callers[t].sets == S.callers[t].sets && T.callers[t].limit == S.callers[t].limit
  {
    if p < |S.list| {
      assert S.list[p] in S.callers;
    }
  }

  lemma ReachKeepsCounts(S: State, id: Cid, s: nat, p: nat, T: State)
    requires Shape(S) && s < |S.socks| && T == Reach(S, id, s, p)
    ensures CountsWaiters(S) ==> CountsWaiters(T)
  {
    ReachKeepsShape(S, id, s, p, T);
    forall k: nat ensures Waiters(T, k) == Waiters(S, k) {
      assert forall u :: u in S.callers ==> Counted(T.callers[u], k) == Counted(S.callers[u], k);
    }
  }

  /** A callback that examines position `p` next, having examined every earlier one, leaves no call
      behind that must still be woken for its socket. */
  lemma ReachKeepsPromise(S: State, id: Cid, s: nat, p: nat, T: State, t: Tid, k: nat)
    requires Shape(S) && s < |S.socks| && T == Reach(S, id, s, p)
    requires Owed(T, t, k)
    requires (k == s && t in S.list && Position(S.list, t) >= p) || exists i :: i != id && OnTheWay(S, i, k, t)
    ensures exists i :: OnTheWay(T, i, k, t)
  {
    if i :| i != id && OnTheWay(S, i, k, t) {
      assert OnTheWay(T, i, k, t);
    } else {
      PositionUnique(S.list, p);
      assert OnTheWay(T, id, k, t);
    }
  }

  lemma OwedOnList(S: State, t: Tid, s: nat)
    requires Shape(S) && Owed(S, t, s)
    ensures t in S.list
  {
  }

  lemma WalkKeepsInv(S: State, id: Cid)
    requires Inv(S) && id in S.callbacks
    ensures Inv(Apply(S, Walk(id)))
  {
    var b := S.callbacks[id];
    var T := Apply(S, Walk(id));
    ReachKeepsInv(S, id, b.sock, if b.seen != S.ctr then 0 else Position(S.list, b.at) + 1, T);
    forall t, k | Owed(T, t, k) ensures exists i :: OnTheWay(T, i, k, t) {
      WalkKeepsPromise(S, id, t, k);
    }
  }

  lemma WalkKeepsPromise(S: State, id: Cid, t: Tid, k: nat)
    requires Shape(S) && WillBeReached(S) && id in S.callbacks && Owed(Apply(S, Walk(id)), t, k)
    ensures exists i :: OnTheWay(Apply(S, Walk(id)), i, k, t)
  {
    var b := S.callbacks[id];
    var p := if b.seen != S.ctr then 0 else Position(S.list, b.at) + 1;
    assert Owed(S, t, k);
    OwedOnList(S, t, k);
    var i :| OnTheWay(S, i, k, t);
    ReachKeepsPromise(S, id, b.sock, p, Apply(S, Walk(id)), t, k);
  }

  lemma NobodyCounted(S: State, s: nat)
    requires CountsWaiters(S) && s < |S.socks| && S.socks[s].waiting == 0
    ensures forall t :: t in S.callers ==> !Counted(S.callers[t], s)
  {
    forall t | t in S.callers ensures !Counted(S.callers[t], s) {
      assert t !in Waiters(S, s);
    }
  }

  /** The change of a socket by itself keeps all but the promise. */
  lemma RaiseKeeps(S: State, s: nat, e: Event)
    requires Inv(S) && s < |S.socks|
    ensures var R := S.(socks := S.socks[s := Raise(S.socks[s], e)]);
      Shape(R) && SignalsKept(R) && CountsWaiters(R) && LeftKnown(R)
  {
    var R := S.(socks := S.socks[s := Raise(S.socks[s], e)]);
    assert forall k: nat :: Waiters(R, k) == Waiters(S, k);
    LeftStaysKnown(S, R);
  }

  lemma PostKeepsInv(S: State, id: Cid, s: nat, e: Event)
    requires Inv(S) && id !in S.callbacks && s < |S.socks|
    ensures Inv(Apply(S, Post(id, s, e)))
  {
    RaiseKeeps(S, s, e);
    var R := S.(socks := S.socks[s := Raise(S.socks[s], e)]);
    var T := Apply(S, Post(id, s, e));
    if S.socks[s].waiting == 0 {
      NobodyCounted(S, s);
      forall t, k | Owed(T, t, k) ensures exists i :: OnTheWay(T, i, k, t) {
        assert Owed(S, t, k);
        var i :| OnTheWay(S, i, k, t);
        assert OnTheWay(T, i, k, t);
      }
    } else {
      ReachKeepsInv(R, id, s, 0, T);
      forall t, k | Owed(T, t, k) ensures exists i :: OnTheWay(T, i, k, t) {
        if k == s {
          OwedOnList(T, t, k);
        } else {
          assert Owed(S, t, k);
          var i :| OnTheWay(S, i, k, t);
          assert OnTheWay(R, i, k, t);
        }
        ReachKeepsPromise(R, id, s, 0, T, t, k);
      }
    }
  }

  /** A step of call `t` that leaves the list alone, and event fields too. */
  ghost predicate CallerStep(S: State, T: State, t: Tid) {
    && t in S.callers && T.callers.Keys == S.callers.Keys
    && (forall u :: u in S.callers && u != t ==> T.callers[u] == S.callers[u])
    && T.list == S.list && T.ctr == S.ctr && T.callbacks == S.callbacks && |T.socks| == |S.socks| && T.behind == S.behind
    && (forall k :: 0 <= k < |S.socks| ==> T.socks[k].(waiting := S.socks[k].waiting) == S.socks[k])
    && T.callers[t].sets == S.callers[t].sets && T.callers[t].limit == S.callers[t].limit
    && T.callers[t].signalled == S.callers[t].signalled
    && OnList(T.callers[t].phase) == OnList(S.callers[t].phase)
  }

  /** Such a step keeps the promise when the call passes no socket that is ready. */
  lemma CallerStepKeepsPromise(S: State, T: State, t: Tid)
    requires Shape(S) && WillBeReached(S) && CallerStep(S, T, t)
    requires forall k: nat :: k < |S.socks| && HasPassed(T.callers[t], k) ==>
      HasPassed(S.callers[t], k) || !Ready(S.socks[k], S.callers[t].sets, k)
    ensures Shape(T) && WillBeReached(T)
  {
    forall u, k | Owed(T, u, k) ensures exists i :: OnTheWay(T, i, k, u) {
      assert Owed(S, u, k);
      var i :| OnTheWay(S, i, k, u);
      assert OnTheWay(T, i, k, u);
    }
  }

  /** A step of call `t` that changes at most the counter of socket `s`, by the change in whether the
      call is counted there. */
  lemma CallerStepKeepsCounts(S: State, T: State, t: Tid, s: nat)
    requires CountsWaiters(S) && CallerStep(S, T, t)
    requires forall k: nat :: k != s ==> Counted(T.callers[t], k) == Counted(S.callers[t], k)
    requires forall k :: 0 <= k < |S.socks| && k != s ==> T.socks[k] == S.socks[k]
    requires s < |S.socks| ==>
      T.socks[s].waiting - S.socks[s].waiting
      == (if Counted(T.callers[t], s) then 1 else 0) - (if Counted(S.callers[t], s) then 1 else 0)
    ensures CountsWaiters(T)
  {
    forall k | 0 <= k < |T.socks| ensures T.socks[k].waiting == |Waiters(T, k)| {
      var others := Waiters(S, k) - {t};
      assert Waiters(T, k) == if Counted(T.callers[t], k) then others + {t} else others;
      assert Waiters(S, k) == if Counted(S.callers[t], k) then others + {t} else others;
    }
  }

  lemma CallerStepKeepsInv(S: State, T: State, t: Tid, s: nat)
    requires Inv(S) && CallerStep(S, T, t) && SignalKept(T.callers[t])
    requires forall k: nat :: k < |S.socks| && HasPassed(T.callers[t], k) ==>
      HasPassed(S.callers[t], k) || !Ready(S.socks[k], S.callers[t].sets, k)
    requires forall k: nat :: k != s ==> Counted(T.callers[t], k) == Counted(S.callers[t], k)
    requires forall k :: 0 <= k < |S.socks| && k != s ==> T.socks[k] == S.socks[k]
    requires s < |S.socks| ==>
      T.socks[s].waiting - S.socks[s].waiting
      == (if Counted(T.callers[t], s) then 1 else 0) - (if Counted(S.callers[t], s) then 1 else 0)
    ensures Inv(T)
  {
    LeftStaysKnown(S, T);
    CallerStepKeepsPromise(S, T, t);
    CallerStepKeepsCounts(S, T, t, s);
  }

  /** Putting a call on the list or taking it off makes every callback start again at the head. */
  lemma ListStepKeepsPromise(S: State, T: State, t: Tid)
    requires Shape(S) && WillBeReached(S) && T.callbacks == S.callbacks && T.ctr == S.ctr + 1 && T.socks == S.socks
    requires forall u :: u in T.callers && u != t ==> u in S.callers && T.callers[u] == S.callers[u]
    requires t in T.callers ==> T.callers[t].phase.Counting?
    ensures WillBeReached(T)
  {
    forall u, k | Owed(T, u, k) ensures exists i :: OnTheWay(T, i, k, u) {
      assert Owed(S, u, k);
      var i :| OnTheWay(S, i, k, u);
      assert OnTheWay(T, i, k, u);
    }
  }

  lemma RegisterKeepsInv(S: State, t: Tid)
    requires Inv(S) && t in S.callers && S.callers[t].phase.FirstScan?
    requires S.callers[t].phase.next >= S.callers[t].limit && !S.callers[t].phase.ready
    ensures Inv(Apply(S, Advance(t)))
  {
    var T := Apply(S, Advance(t));
    assert forall k: nat :: Waiters(T, k) == Waiters(S, k);
    LeftStaysKnown(S, T);
    ListStepKeepsPromise(S, T, t);
  }

  lemma WithoutList(list: seq<Tid>, t: Tid)
    requires t in list && forall i, j :: 0 <= i < j < |list| ==> list[i] != list[j]
    ensures forall u :: u in Without(list, t) <==> u in list && u != t
    ensures forall i, j :: 0 <= i < j < |Without(list, t)| ==> Without(list, t)[i] != Without(list, t)[j]
  {
    var p := Position(list, t);
    var rest := Without(list, t);
    forall u | u in list && u != t ensures u in rest {
      var q :| 0 <= q < |list| && list[q] == u;
      assert q < p ==> rest[q] == u;
      assert q > p ==> rest[q - 1] == u;
    }
  }

  lemma LeaveKeepsInv(S: State, t: Tid)
    requires Inv(S) && t in S.callers && S.callers[t].phase.Uncounting?
    requires S.callers[t].phase.next >= S.callers[t].limit
    ensures Inv(Apply(S, Advance(t)))
  {
    var T := Apply(S, Advance(t));
    WithoutList(S.list, t);
    assert forall k: nat :: Waiters(T, k) == Waiters(S, k);
    LeftStaysKnown(S, T);
    ListStepKeepsPromise(S, T, t);
  }

  /** A call that ends before it has registered. */
  lemma DropKeepsInv(S: State, t: Tid)
    requires Inv(S) && t in S.callers && S.callers[t].phase.FirstScan?
    ensures Inv(S.(callers := S.callers - {t}))
  {
    var T := S.(callers := S.callers - {t});
    LeftStaysKnown(S, T);
    assert forall k: nat :: Waiters(T, k) == Waiters(S, k);
    forall u, k | Owed(T, u, k) ensures exists i :: OnTheWay(T, i, k, u) {
      assert Owed(S, u, k);
      var i :| OnTheWay(S, i, k, u);
      assert OnTheWay(T, i, k, u);
    }
  }

  lemma AdvanceKeepsInv(S: State, t: Tid)
    requires Inv(S) && Enabled(S, Advance(t))
    ensures Inv(Apply(S, Advance(t)))
  {
    var c := S.callers[t];
    var T := Apply(S, Advance(t));
    if c.phase.FirstScan? && c.phase.next >= c.limit {
      if c.phase.ready {
        DropKeepsInv(S, t);
      } else {
        RegisterKeepsInv(S, t);
      }
    } else if c.phase.Uncounting? && c.phase.next >= c.limit {
      LeaveKeepsInv(S, t);
    } else if c.phase.Counting? && c.phase.next < c.limit {
      CountKeepsInv(S, t);
    } else if c.phase.Uncounting? {
      CountKeepsInv(S, t);
    } else {
      PhaseKeepsInv(S, t);
    }
  }

  /** What counting in or out at one socket changes. */
  ghost predicate CountsOne(S: State, T: State, t: Tid, i: nat)
    requires t in S.callers && t in T.callers && i < |S.socks| && i < |T.socks|
  {
    var c, d := S.callers[t], T.callers[t];
    && CallerStep(S, T, t) && SignalKept(d)
    && (forall k: nat :: !HasPassed(d, k))
    && (forall k: nat :: k != i ==> Counted(d, k) == Counted(c, k))
    && (forall k :: 0 <= k < |S.socks| && k != i ==> T.socks[k] == S.socks[k])
    && T.socks[i].waiting - S.socks[i].waiting == (if Counted(d, i) then 1 else 0) - (if Counted(c, i) then 1 else 0)
  }

  lemma CountInStep(S: State, t: Tid)
    requires Shape(S) && t in S.callers && S.callers[t].phase.Counting?
    requires S.callers[t].phase.next < S.callers[t].limit && SignalKept(S.callers[t])
    ensures var T := Apply(S, Advance(t)); |T.socks| == |S.socks| && t in T.callers && CountsOne(S, T, t, S.callers[t].phase.next)
  {
  }

  lemma CountOutStep(S: State, t: Tid)
    requires Shape(S) && t in S.callers && S.callers[t].phase.Uncounting?
    requires S.callers[t].phase.next < S.callers[t].limit && SignalKept(S.callers[t])
    ensures var T := Apply(S, Advance(t)); |T.socks| == |S.socks| && t in T.callers && CountsOne(S, T, t, S.callers[t].phase.next)
  {
  }

  /** Counting in or out at one socket. */
  lemma CountKeepsInv(S: State, t: Tid)
    requires Inv(S) && t in S.callers && (S.callers[t].phase.Counting? || S.callers[t].phase.Uncounting?)
    requires S.callers[t].phase.next < S.callers[t].limit
    ensures Inv(Apply(S, Advance(t)))
  {
    if S.callers[t].phase.Counting? {
      CountInStep(S, t);
    } else {
      CountOutStep(S, t);
    }
    CallerStepKeepsInv(S, Apply(S, Advance(t)), t, S.callers[t].phase.next);
  }

  /** What the steps change that concern nothing but the call's own phase and semaphore. */
  ghost predicate ChangesPhase(S: State, T: State, t: Tid)
    requires t in S.callers && t in T.callers
  {
    var c, d := S.callers[t], T.callers[t];
    && CallerStep(S, T, t) && SignalKept(d) && T.socks == S.socks
    && (forall k: nat :: Counted(d, k) == Counted(c, k))
    && (forall k: nat :: k < |S.socks| && HasPassed(d, k) ==> HasPassed(c, k) || !Ready(S.socks[k], c.sets, k))
  }

  lemma ScanStep(S: State, t: Tid)
    requires Shape(S) && t in S.callers && (S.callers[t].phase.FirstScan? || S.callers[t].phase.Rescan?) && SignalKept(S.callers[t])
    requires S.callers[t].phase.FirstScan? ==> S.callers[t].phase.next < S.callers[t].limit
    ensures var T := Apply(S, Advance(t)); t in T.callers && ChangesPhase(S, T, t)
  {
  }

  lemma WaitStep(S: State, t: Tid)
    requires Shape(S) && Enabled(S, Advance(t)) && (S.callers[t].phase.Counting? || S.callers[t].phase.Blocked?)
    requires S.callers[t].phase.Counting? ==> S.callers[t].phase.next >= S.callers[t].limit
    requires SignalKept(S.callers[t])
    ensures var T := Apply(S, Advance(t)); t in T.callers && ChangesPhase(S, T, t)
  {
  }

  /** Steps that change nothing but the call's own phase and semaphore. */
  lemma PhaseKeepsInv(S: State, t: Tid)
    requires Inv(S) && Enabled(S, Advance(t)) && !S.callers[t].phase.Uncounting?
    requires S.callers[t].phase.FirstScan? ==> S.callers[t].phase.next < S.callers[t].limit
    requires S.callers[t].phase.Counting? ==> S.callers[t].phase.next >= S.callers[t].limit
    ensures Inv(Apply(S, Advance(t)))
  {
    if S.callers[t].phase.FirstScan? || S.callers[t].phase.Rescan? {
      ScanStep(S, t);
    } else {
      WaitStep(S, t);
    }
    CallerStepKeepsInv(S, Apply(S, Advance(t)), t, 0);
  }

  lemma GiveUpKeepsInv(S: State, t: Tid)
    requires Inv(S) && Enabled(S, GiveUp(t))
    ensures Inv(Apply(S, GiveUp(t)))
  {
    if S.callers[t].phase.Blocked? {
      CallerStepKeepsInv(S, Apply(S, GiveUp(t)), t, 0);
    } else {
      DropKeepsInv(S, t);
    }
  }

  lemma StartKeepsInv(S: State, t: Tid, sets: FdSets, limit: nat)
    requires Inv(S) && Enabled(S, Start(t, sets, limit))
    ensures Inv(Apply(S, Start(t, sets, limit)))
  {
    var T := Apply(S, Start(t, sets, limit));
    assert forall k: nat :: Waiters(T, k) == Waiters(S, k);
    forall u: Tid, k: nat | Overlooks(T, u, k) ensures (u, k) in T.behind {
      assert Overlooks(S, u, k);
    }
    forall u: Tid, k: nat | (u, k) in T.behind ensures IsBehind(T, u, k) {
      assert IsBehind(S, u, k);
    }
    forall u, k | Owed(T, u, k) ensures exists i :: OnTheWay(T, i, k, u) {
      assert Owed(S, u, k);
      var i :| OnTheWay(S, i, k, u);
      assert OnTheWay(T, i, k, u);
    }
  }

  /** A receive leaves data over, or takes them. */
  lemma LeaveOverKeepsInv(S: State, s: nat, left: bool)
    requires Inv(S) && s < |S.socks|
    ensures Inv(Apply(S, LeaveOver(s, left)))
  {
    var T := Apply(S, LeaveOver(s, left));
    assert forall k: nat :: Waiters(T, k) == Waiters(S, k);
    forall t, k | Owed(T, t, k) ensures exists i :: OnTheWay(T, i, k, t) {
      assert Owed(S, t, k);
      var i :| OnTheWay(S, i, k, t);
      assert OnTheWay(T, i, k, t);
    }
    forall t: Tid, k: nat | Overlooks(T, t, k) ensures (t, k) in T.behind {
      assert k != s ==> Overlooks(S, t, k);
    }
    forall t: Tid, k: nat | (t, k) in T.behind ensures IsBehind(T, t, k) {
      assert (t, k) in S.behind ==> IsBehind(S, t, k);
    }
  }

  /** Every protected section of every participant keeps the invariant. */
  lemma StepKeepsInv(S: State, a: Action)
    requires Inv(S) && Enabled(S, a)
    ensures Inv(Apply(S, a))
  {
    match a
    case Start(t, sets, limit) => StartKeepsInv(S, t, sets, limit);
    case Advance(t) => AdvanceKeepsInv(S, t);
    case GiveUp(t) => GiveUpKeepsInv(S, t);
    case Post(id, s, e) => PostKeepsInv(S, id, s, e);
    case Walk(id) => WalkKeepsInv(S, id);
    case LeaveOver(s, left) => LeaveOverKeepsInv(S, s, left);
  }

  // ----- what single steps do, field by field -----

  /** The event fields of socket `s` are the same. */
  ghost predicate SameEvents(S: State, T: State, s: nat) {
    && s < |S.socks| && s < |T.socks|
    && T.socks[s].rcvevent == S.socks[s].rcvevent && T.socks[s].sendevent == S.socks[s].sendevent
    && T.socks[s].errevent == S.socks[s].errevent && T.socks[s].left == S.socks[s].left
  }

  /** What an event does to the sockets. */
  lemma PostSets(S: State, id: Cid, s: nat, e: Event)
    requires Shape(S) && Enabled(S, Post(id, s, e))
    ensures var T := Apply(S, Post(id, s, e));
      && |T.socks| == |S.socks|
      && T.socks[s].rcvevent - S.socks[s].rcvevent == (if e == RcvPlus then 1 else if e == RcvMinus then -1 else 0)
      && (T.socks[s].sendevent <==> e == SendPlus || (S.socks[s].sendevent && e != SendMinus))
      && (T.socks[s].errevent <==> e == Error || S.socks[s].errevent)
      && T.socks[s].left == S.socks[s].left && T.socks[s].waiting == S.socks[s].waiting
      && forall k :: 0 <= k < |S.socks| && k != s ==> T.socks[k] == S.socks[k]
  {
  }

  /** Only an event changes event fields, and only a receive leaves data over or takes them. */
  lemma OthersKeepEvents(S: State, a: Action, s: nat)
    requires Shape(S) && Enabled(S, a) && s < |S.socks| && !(a.Post? && a.s == s) && !(a.LeaveOver? && a.s == s)
    ensures SameEvents(S, Apply(S, a), s) && |Apply(S, a).socks| == |S.socks|
  {
  }

  lemma SocketsStay(S: State, a: Action)
    requires Shape(S) && Enabled(S, a)
    ensures |Apply(S, a).socks| == |S.socks|
  {
  }

  /** A wait that ends, other than by its timeout, takes the one signal that the call has got. */
  lemma {:induction false} WaitTakesSignal(S: State, t: Tid)
    requires Shape(S) && SignalsKept(S) && Enabled(S, Advance(t)) && S.callers[t].phase.Blocked?
    ensures var T := Apply(S, Advance(t));
      S.callers[t].signalled && S.callers[t].sem == 1 && t in T.callers && T.callers[t].sem == 0 && T.callers[t].phase == Uncounting(0)
  {
    assert SignalKept(S.callers[t]);
  }

  /** A call ends only when its first scan has looked at all its sockets, or when it has counted itself out of all. */
  lemma {:induction false} CallEnds(S: State, a: Action, t: Tid)
    requires Shape(S) && Enabled(S, a) && t in S.callers && t !in Apply(S, a).callers
    ensures var p := S.callers[t].phase; (p.FirstScan? || p.Uncounting?) && p.next >= S.callers[t].limit
  {
  }

  /** The socket has something that the sets ask for, field by field. */
  ghost predicate Wanted(k: Socket, sets: FdSets, s: nat, leftCounts: bool) {
    || (s in sets.read && (k.rcvevent > 0 || (leftCounts && k.left)))
    || (s in sets.write && k.sendevent)
    || (s in sets.except && k.errevent)
  }

  /** A scan goes on to the next socket and remembers whether it found this one ready; at its end, the first
      scan returns if it found any, and the second one does not wait. */
  lemma ScanLooks(S: State, t: Tid)
    requires Shape(S) && t in S.callers && (S.callers[t].phase.FirstScan? || S.callers[t].phase.Rescan?)
    ensures var c, T := S.callers[t], Apply(S, Advance(t)); var i, found := c.phase.next, c.phase.ready;
      if i < c.limit then
        t in T.callers && T.callers[t].phase.next == i + 1 && T.callers[t].phase.FirstScan? == c.phase.FirstScan?
          && (T.callers[t].phase.FirstScan? || T.callers[t].phase.Rescan?)
          && (T.callers[t].phase.ready <==> found || Wanted(S.socks[i], c.sets, i, true))
      else if c.phase.FirstScan? then
        (t !in T.callers <==> found) && (!found ==> t in T.list && T.callers[t].phase == Counting(0) && T.ctr == S.ctr + 1)
      else t in T.callers && T.callers[t].phase == if found then Uncounting(0) else Blocked
  {
  }

  /** A call is signalled by a section of a callback whose socket has an event that the call waits for, and by
      nothing else. */
  lemma SignalHasReason(S: State, a: Action, t: Tid)
    requires Shape(S) && Enabled(S, a) && t in S.callers && t in Apply(S, a).callers
    requires !S.callers[t].signalled && Apply(S, a).callers[t].signalled
    ensures a.Post? || a.Walk?
    ensures var s := if a.Post? then a.s else S.callbacks[a.id].sock;
      s < |Apply(S, a).socks| && Wanted(Apply(S, a).socks[s], S.callers[t].sets, s, false)
  {
  }

  /** What a call asks for does not change. */
  lemma SetsStay(S: State, a: Action, t: Tid)
    requires Shape(S) && Enabled(S, a) && t in Apply(S, a).callers
    ensures var c := Apply(S, a).callers[t];
      if t in S.callers then c.sets == S.callers[t].sets && c.limit == S.callers[t].limit
      else a == Start(t, c.sets, c.limit) && !c.signalled
  {
  }

  // ----- callbacks end -----

  /** Sections a callback still needs if the list does not change. */
  ghost function Remaining(S: State, id: Cid): nat
    requires Shape(S) && id in S.callbacks
  {
    var b := S.callbacks[id];
    if b.seen != S.ctr then |S.list| + 1 else |S.list| - Position(S.list, b.at)
  }

  /** Each section of a callback either ends it or brings it nearer to its end; only select calls
      that join or leave the list make it start again. */
  lemma WalkMakesProgress(S: State, id: Cid)
    requires Inv(S) && id in S.callbacks
    ensures var T := Apply(S, Walk(id));
      Shape(T) && (id in T.callbacks ==> Remaining(T, id) < Remaining(S, id))
  {
    var b := S.callbacks[id];
    WalkKeepsInv(S, id);
    var p := if b.seen != S.ctr then 0 else Position(S.list, b.at) + 1;
    if p < |S.list| {
      PositionUnique(S.list, p);
    }
  }
}
