/** The lease table of the DHCP server (RFC 2131, sections 4.3.1 and 4.3.2). */
module DhcpServer {
  import opened Wrappers

  type Mac = nat
  type Ip = nat

  const CLIENT_NUM := 8
  const LEASE_TIME: nat := 3600 * 24 * 365 * 10
  const REQUEST_TIMEOUT: nat := 10

  datatype State = Idle | Select | Request | Bind

  /** An entry: an address of the pool and the client that has it, had it last, or zero. */
  datatype Client = Client(state: State, mac: Mac, ip: Ip, timeout: nat, lease: nat)

  datatype Message = Discover | Request | Release | Decline | Other

  /** What the server sends: nothing, a refusal, or the address of an entry. */
  datatype Reply = NoReply | Nak | Offer(entry: nat) | Ack(entry: nat)

  datatype Result = Success | Inactive | Param | NotBind | NotFound

  type Table = seq<Client>

  // ----- what the table keeps -----

  predicate Owned(c: Client, mac: Mac) {
    c.state != Idle && c.mac == mac
  }

  /** No client has two entries. */
  ghost predicate OneEntryEach(t: Table) {
    forall i, j {:trigger Rivals(t[i], t[j])} :: 0 <= i < j < |t| ==> !Rivals(t[i], t[j])
  }

  ghost predicate Rivals(c: Client, d: Client) {
    c.state != Idle && Owned(d, c.mac)
  }

  /** A negotiation is pending for at most the timeout, a lease runs at most its length. */
  ghost predicate TimersOk(c: Client) {
    && c.state != Select
    && (c.state == State.Request ==> 0 < c.timeout <= REQUEST_TIMEOUT)
    && (c.state == Bind ==> 0 < c.lease <= LEASE_TIME)
  }

  ghost predicate TableOk(t: Table) {
    OneEntryEach(t) && forall i {:trigger TimersOk(t[i])} :: 0 <= i < |t| ==> TimersOk(t[i])
  }

  /** What no operation does: an entry keeps its address, and as long as it is in use it keeps its client. */
  ghost predicate EntryKept(c: Client, d: Client) {
    d.ip == c.ip && (c.state != Idle && d.state != Idle ==> d.mac == c.mac)
  }

  ghost predicate EntriesKept(t: Table, u: Table) {
    |u| == |t| && forall i {:trigger EntryKept(t[i], u[i])} :: 0 <= i < |t| ==> EntryKept(t[i], u[i])
  }

  // ----- looking an entry up -----

  datatype Want = MyHistory | Requested | Free | History

  predicate Fits(c: Client, want: Want, mac: Mac, ip: Ip) {
    c.state == Idle &&
    match want
    case MyHistory => c.mac == mac
    case Requested => c.ip == ip
    case Free => c.mac == 0
    case History => c.mac != 0
  }

  /** `r` is the first of the first `n` entries that fits. */
  ghost predicate IsFirst(t: Table, n: nat, want: Want, mac: Mac, ip: Ip, r: Option<nat>)
    requires n <= |t|
  {
    match r
    case None => forall i {:trigger Fits(t[i], want, mac, ip)} :: 0 <= i < n ==> !Fits(t[i], want, mac, ip)
    case Some(k) =>
      && k < n && Fits(t[k], want, mac, ip)
      && forall i {:trigger Fits(t[i], want, mac, ip)} :: 0 <= i < k ==> !Fits(t[i], want, mac, ip)
  }

  ghost predicate IsMine(t: Table, n: nat, mac: Mac, r: Option<nat>)
    requires n <= |t|
  {
    match r
    case None => forall i {:trigger Owned(t[i], mac)} :: 0 <= i < n ==> !Owned(t[i], mac)
    case Some(k) => k < n && Owned(t[k], mac)
  }

  /** Another client has the address. */
  predicate TakenBy(c: Client, mac: Mac, ip: Ip) {
    c.state != Idle && c.mac != mac && c.ip == ip
  }

  ghost predicate Taken(t: Table, n: nat, mac: Mac, ip: Ip)
    requires n <= |t|
  {
    exists i {:trigger TakenBy(t[i], mac, ip)} :: 0 <= i < n && TakenBy(t[i], mac, ip)
  }

  datatype Found = Found(mine: Option<nat>, requested: Option<nat>, myHistory: Option<nat>, free: Option<nat>,
                         history: Option<nat>, taken: bool)

  ghost predicate FoundOk(t: Table, n: nat, mac: Mac, ip: Ip, f: Found)
    requires n <= |t|
  {
    && IsMine(t, n, mac, f.mine) && IsFirst(t, n, Requested, mac, ip, f.requested)
    && IsFirst(t, n, MyHistory, mac, ip, f.myHistory) && IsFirst(t, n, Free, mac, ip, f.free)
    && IsFirst(t, n, History, mac, ip, f.history) && (f.taken <==> Taken(t, n, mac, ip))
  }

  function FirstOr(r: Option<nat>, c: Client, want: Want, mac: Mac, ip: Ip, i: nat): Option<nat> {
    if r == None && Fits(c, want, mac, ip) then Some(i) else r
  }

  /** One more entry looked at. */
  function Seen(f: Found, c: Client, mac: Mac, ip: Ip, i: nat): Found {
    if c.state == Idle then
      f.(requested := FirstOr(f.requested, c, Requested, mac, ip, i), myHistory := FirstOr(f.myHistory, c, MyHistory, mac, ip, i),
         free := FirstOr(f.free, c, Free, mac, ip, i), history := FirstOr(f.history, c, History, mac, ip, i))
    else if c.mac == mac then f.(mine := Some(i))
    else if c.ip == ip then f.(taken := true)
    else f
  }

  lemma {:induction false} FirstStep(t: Table, n: nat, want: Want, mac: Mac, ip: Ip, r: Option<nat>)
    requires n < |t| && IsFirst(t, n, want, mac, ip, r)
    ensures IsFirst(t, n + 1, want, mac, ip, FirstOr(r, t[n], want, mac, ip, n))
  {
  }

  lemma {:induction false} TakenStep(t: Table, n: nat, mac: Mac, ip: Ip)
    requires n < |t|
    ensures Taken(t, n + 1, mac, ip) <==> Taken(t, n, mac, ip) || TakenBy(t[n], mac, ip)
  {
  }

  lemma {:induction false} FoundStep(t: Table, n: nat, mac: Mac, ip: Ip, f: Found)
    requires n < |t| && FoundOk(t, n, mac, ip, f)
    ensures FoundOk(t, n + 1, mac, ip, Seen(f, t[n], mac, ip, n))
  {
    FirstStep(t, n, Requested, mac, ip, f.requested);
    FirstStep(t, n, MyHistory, mac, ip, f.myHistory);
    FirstStep(t, n, Free, mac, ip, f.free);
    FirstStep(t, n, History, mac, ip, f.history);
    TakenStep(t, n, mac, ip);
    MineStep(t, n, mac, f.mine);
  }

  lemma {:induction false} MineStep(t: Table, n: nat, mac: Mac, r: Option<nat>)
    requires n < |t| && IsMine(t, n, mac, r)
    ensures IsMine(t, n + 1, mac, if Owned(t[n], mac) then Some(n) else r)
  {
  }

  // ----- handling a message -----

  /** An entry is given up; only a lease that was in force is remembered. */
  function Forgotten(c: Client): Client {
    c.(state := Idle, mac := if c.state == Bind then c.mac else 0)
  }

  function OrElse(r: Option<nat>, s: Option<nat>): Option<nat> {
    if r.Some? then r else s
  }

  /** The priorities for a new negotiation. */
  function Choice(f: Found): Option<nat> {
    OrElse(f.requested, OrElse(f.myHistory, OrElse(f.free, f.history)))
  }

  /** The entry that _ClientTableLookup returns. */
  function Chosen(f: Found, msg: Message, toMe: bool): Option<nat> {
    match msg
    case Discover => if f.mine.Some? then OrElse(f.requested, f.mine) else Choice(f)
    case Request => if f.taken || !toMe then None else OrElse(f.requested, f.mine)
    case _ => None
  }

  /** What _ClientTableLookup makes of the entry that the client has. */
  function MineAfter(c: Client, f: Found, msg: Message): Client {
    match msg
    case Discover => if f.requested.Some? then c.(state := Idle, mac := 0) else c.(state := Idle)
    case Request => if f.taken || f.requested.Some? then Forgotten(c) else c
    case Other => c
    case _ => Forgotten(c)
  }

  function LookedUp(t: Table, f: Found, msg: Message, mac: Mac, toMe: bool): (u: Table)
    requires (f.mine.Some? ==> f.mine.value < |t|)
    requires Chosen(f, msg, toMe).Some? ==> Chosen(f, msg, toMe).value < |t|
    ensures |u| == |t|
  {
    var u := if f.mine.Some? then t[f.mine.value := MineAfter(t[f.mine.value], f, msg)] else t;
    match Chosen(f, msg, toMe)
    case None => u
    case Some(k) => u[k := u[k].(mac := mac)]
  }

  /** The histories of a client are deleted. */
  function Cleaned(c: Client, mac: Mac): Client {
    if c.state == Idle && c.mac == mac then c.(mac := 0) else c
  }

  function CleanedTable(t: Table, mac: Mac): (u: Table)
    ensures |u| == |t|
  {
    seq(|t|, i requires 0 <= i < |t| => Cleaned(t[i], mac))
  }

  function Offered(c: Client): Client {
    c.(state := State.Request, timeout := REQUEST_TIMEOUT)
  }

  function Bound(c: Client): Client {
    c.(state := Bind, lease := LEASE_TIME)
  }

  /** Whether the state machine acknowledges: a pending offer or lease is confirmed, an idle entry is bound
      by a request. In all other cases it offers. */
  predicate Acknowledges(c: Client, msg: Message) {
    c.state == State.Request || c.state == Bind || (c.state == Idle && msg == Message.Request)
  }

  /** A whole message: the table and the reply after it. */
  function Handled(t: Table, f: Found, msg: Message, mac: Mac, toMe: bool): (r: (Table, Reply))
    requires (f.mine.Some? ==> f.mine.value < |t|)
    requires Chosen(f, msg, toMe).Some? ==> Chosen(f, msg, toMe).value < |t|
    ensures |r.0| == |t|
  {
    var u := LookedUp(t, f, msg, mac, toMe);
    match Chosen(f, msg, toMe)
    case None => (u, if msg == Release || msg == Decline then NoReply else Nak)
    case Some(k) =>
      if Acknowledges(u[k], msg) then (CleanedTable(u[k := Bound(u[k])], u[k].mac), Ack(k))
      else (u[k := Offered(u[k])], Offer(k))
  }

  // ----- laws -----

  lemma {:induction false} ChosenInRange(t: Table, f: Found, msg: Message, mac: Mac, ip: Ip, toMe: bool)
    requires FoundOk(t, |t|, mac, ip, f)
    ensures f.mine.Some? ==> f.mine.value < |t|
    ensures Chosen(f, msg, toMe).Some? ==> Chosen(f, msg, toMe).value < |t|
    ensures Chosen(f, msg, toMe).Some? ==> t[Chosen(f, msg, toMe).value].state == Idle || Chosen(f, msg, toMe) == f.mine
  {
  }

  /** In a table where nobody has two entries, the client has no entry but the one that was found. */
  lemma {:induction false} MineIsOnly(t: Table, mac: Mac, mine: Option<nat>, i: nat)
    requires TableOk(t) && IsMine(t, |t|, mac, mine) && i < |t| && Owned(t[i], mac)
    ensures mine == Some(i)
  {
    if mine.Some? {
      var k := mine.value;
      assert i < k ==> !Rivals(t[i], t[k]);
      assert k < i ==> !Rivals(t[k], t[i]);
    }
  }

  /** Entry by entry, what a message changes. */
  lemma {:induction false} HandledEntry(t: Table, f: Found, msg: Message, mac: Mac, ip: Ip, toMe: bool, i: nat)
    requires TableOk(t) && FoundOk(t, |t|, mac, ip, f) && i < |t|
    ensures f.mine.Some? ==> f.mine.value < |t|
    ensures Chosen(f, msg, toMe).Some? ==> Chosen(f, msg, toMe).value < |t|
    ensures var u := Handled(t, f, msg, mac, toMe).0; var chosen := Chosen(f, msg, toMe) == Some(i);
      && EntryKept(t[i], u[i]) && TimersOk(u[i])
      && (t[i].state != Idle && t[i].mac != mac ==> u[i] == t[i])
      && (Owned(u[i], mac) ==> chosen || (Chosen(f, msg, toMe) == None && u[i] == t[i]))
      && (u[i].state != Idle && u[i].mac != mac ==> u[i] == t[i])
      && (chosen ==> Owned(u[i], mac))
  {
    assert TimersOk(t[i]);
    ChosenInRange(t, f, msg, mac, ip, toMe);
    if Owned(t[i], mac) {
      MineIsOnly(t, mac, f.mine, i);
    }
  }

  /** No message ever gives a client a second entry, moves an entry from one client to another while it is
      in use, or touches an entry that another client uses. */
  lemma {:induction false} HandledKeepsTable(t: Table, f: Found, msg: Message, mac: Mac, ip: Ip, toMe: bool)
    requires TableOk(t) && FoundOk(t, |t|, mac, ip, f)
    ensures f.mine.Some? ==> f.mine.value < |t|
    ensures Chosen(f, msg, toMe).Some? ==> Chosen(f, msg, toMe).value < |t|
    ensures var u := Handled(t, f, msg, mac, toMe).0;
      && TableOk(u) && EntriesKept(t, u)
      && forall i :: 0 <= i < |t| && t[i].state != Idle && t[i].mac != mac ==> u[i] == t[i]
  {
    ChosenInRange(t, f, msg, mac, ip, toMe);
    var u := Handled(t, f, msg, mac, toMe).0;
    forall i | 0 <= i < |t|
      ensures EntryKept(t[i], u[i]) && TimersOk(u[i]) && (t[i].state != Idle && t[i].mac != mac ==> u[i] == t[i])
    {
      HandledEntry(t, f, msg, mac, ip, toMe, i);
    }
    forall i, j | 0 <= i < j < |u| ensures !Rivals(u[i], u[j]) {
      HandledEntry(t, f, msg, mac, ip, toMe, i);
      HandledEntry(t, f, msg, mac, ip, toMe, j);
      assert !Rivals(t[i], t[j]);
    }
  }

  /** Nobody idle is remembered as this client. */
  ghost predicate NoHistory(t: Table, mac: Mac) {
    forall i {:trigger Fits(t[i], MyHistory, mac, 0)} :: 0 <= i < |t| ==> !Fits(t[i], MyHistory, mac, 0)
  }

  /** The reply fits the table: an offered or acknowledged entry is the client's, its timer runs, it is the
      client's only entry, and an acknowledged client has no history left. */
  ghost predicate ReplyOk(u: Table, mac: Mac, reply: Reply) {
    match reply
    case Offer(k) => k < |u| && OnlyEntry(u, mac, k) && u[k].state == State.Request && u[k].timeout == REQUEST_TIMEOUT
    case Ack(k) =>
      k < |u| && OnlyEntry(u, mac, k) && u[k].state == Bind && u[k].lease == LEASE_TIME && (mac != 0 ==> NoHistory(u, mac))
    case _ => true
  }

  ghost predicate OnlyEntry(u: Table, mac: Mac, k: nat)
    requires k < |u|
  {
    Owned(u[k], mac) && forall i {:trigger Owned(u[i], mac)} :: 0 <= i < |u| && i != k ==> !Owned(u[i], mac)
  }

  lemma {:induction false} RepliesToOwner(t: Table, f: Found, msg: Message, mac: Mac, ip: Ip, toMe: bool)
    requires TableOk(t) && FoundOk(t, |t|, mac, ip, f)
    ensures f.mine.Some? ==> f.mine.value < |t|
    ensures Chosen(f, msg, toMe).Some? ==> Chosen(f, msg, toMe).value < |t|
    ensures var r := Handled(t, f, msg, mac, toMe); ReplyOk(r.0, mac, r.1)
  {
    ChosenInRange(t, f, msg, mac, ip, toMe);
    var r := Handled(t, f, msg, mac, toMe);
    if Chosen(f, msg, toMe).Some? {
      var k := Chosen(f, msg, toMe).value;
      HandledEntry(t, f, msg, mac, ip, toMe, k);
      forall i | 0 <= i < |r.0| && i != k ensures !Owned(r.0[i], mac) {
        HandledEntry(t, f, msg, mac, ip, toMe, i);
      }
    }
  }

  /** The address asked for is free: idle, and not in use by another client. */
  ghost predicate Available(t: Table, ip: Ip) {
    exists i {:trigger t[i]} :: 0 <= i < |t| && t[i].state == Idle && t[i].ip == ip
  }

  ghost predicate HasEntry(t: Table, mac: Mac) {
    exists i {:trigger Owned(t[i], mac)} :: 0 <= i < |t| && Owned(t[i], mac)
  }

  ghost predicate HasIdle(t: Table) {
    exists i {:trigger t[i]} :: 0 <= i < |t| && t[i].state == Idle
  }

  lemma {:induction false} FoundMeans(t: Table, mac: Mac, ip: Ip, f: Found)
    requires FoundOk(t, |t|, mac, ip, f)
    ensures f.mine.Some? <==> HasEntry(t, mac)
    ensures f.requested.Some? <==> Available(t, ip)
    ensures Choice(f).Some? <==> HasIdle(t)
  {
    assert f.requested.Some? ==> Fits(t[f.requested.value], Requested, mac, ip);
    if Available(t, ip) {
      var i :| 0 <= i < |t| && t[i].state == Idle && t[i].ip == ip;
      assert Fits(t[i], Requested, mac, ip);
    }
    if HasIdle(t) {
      var i :| 0 <= i < |t| && t[i].state == Idle;
      assert Fits(t[i], Free, mac, ip) || Fits(t[i], History, mac, ip);
    }
    if HasEntry(t, mac) {
      var i :| 0 <= i < |t| && Owned(t[i], mac);
    }
  }

  /** An idle entry that remembers `owner`, or nobody if that is zero. */
  ghost predicate IdleOf(c: Client, owner: Mac) {
    c.state == Idle && c.mac == owner
  }

  ghost predicate SomeIdleOf(t: Table, owner: Mac) {
    exists i {:trigger t[i]} :: 0 <= i < |t| && IdleOf(t[i], owner)
  }

  ghost predicate FirstIdleOf(t: Table, k: nat, owner: Mac) {
    k < |t| && IdleOf(t[k], owner) && forall i {:trigger t[i]} :: 0 <= i < k ==> !IdleOf(t[i], owner)
  }

  ghost predicate FirstIdle(t: Table, k: nat) {
    k < |t| && t[k].state == Idle && forall i {:trigger t[i]} :: 0 <= i < k ==> t[i].state != Idle
  }

  /** The priorities for an offer: the address asked for if it is idle; or else the client's own entry, if it has
      one; or else the first address that it had before, the first that nobody had, or the first that is idle. */
  ghost predicate OfferedByPriority(t: Table, k: nat, mac: Mac, ip: Ip) {
    && k < |t|
    && (if Available(t, ip) then t[k].state == Idle && t[k].ip == ip
        else if HasEntry(t, mac) then Owned(t[k], mac)
        else if SomeIdleOf(t, mac) then FirstIdleOf(t, k, mac)
        else if SomeIdleOf(t, 0) then FirstIdleOf(t, k, 0)
        else FirstIdle(t, k))
  }

  /** A discovery is refused exactly when the table is full and the client has no entry; otherwise the
      client is offered the address that comes first. */
  lemma {:induction false} DiscoverIsOffered(t: Table, f: Found, mac: Mac, ip: Ip, toMe: bool)
    requires TableOk(t) && FoundOk(t, |t|, mac, ip, f)
    ensures f.mine.Some? ==> f.mine.value < |t|
    ensures Chosen(f, Discover, toMe).Some? ==> Chosen(f, Discover, toMe).value < |t|
    ensures var r := Handled(t, f, Discover, mac, toMe);
      if !HasEntry(t, mac) && !HasIdle(t) then r == (t, Nak)
      else r.1.Offer? && r.1.entry < |t| && (Available(t, ip) ==> r.0[r.1.entry].ip == ip)
           && OfferedByPriority(t, r.1.entry, mac, ip)
  {
    ChosenInRange(t, f, Discover, mac, ip, toMe);
    FoundMeans(t, mac, ip, f);
    if HasEntry(t, mac) || HasIdle(t) {
      ChosenByPriority(t, f, mac, ip, toMe);
    }
  }

  lemma {:induction false} ChosenByPriority(t: Table, f: Found, mac: Mac, ip: Ip, toMe: bool)
    requires FoundOk(t, |t|, mac, ip, f) && (HasEntry(t, mac) || HasIdle(t))
    ensures Chosen(f, Discover, toMe).Some? && OfferedByPriority(t, Chosen(f, Discover, toMe).value, mac, ip)
  {
    FoundMeans(t, mac, ip, f);
    FoundHistories(t, mac, ip, f);
  }

  /** What the searches among the idle entries have found. */
  lemma {:induction false} FoundHistories(t: Table, mac: Mac, ip: Ip, f: Found)
    requires FoundOk(t, |t|, mac, ip, f)
    ensures if f.myHistory.Some? then FirstIdleOf(t, f.myHistory.value, mac) else !SomeIdleOf(t, mac)
    ensures if f.free.Some? then FirstIdleOf(t, f.free.value, 0) else !SomeIdleOf(t, 0)
    ensures f.free == None && f.history.Some? ==> FirstIdle(t, f.history.value)
  {
    FirstMeans(t, MyHistory, mac, ip, f.myHistory, mac);
    FirstMeans(t, Free, mac, ip, f.free, 0);
    if f.free == None && f.history.Some? {
      forall i | 0 <= i < f.history.value ensures t[i].state != Idle {
        assert !Fits(t[i], History, mac, ip) && !Fits(t[i], Free, mac, ip);
      }
    }
  }

  lemma {:induction false} FirstMeans(t: Table, want: Want, mac: Mac, ip: Ip, r: Option<nat>, owner: Mac)
    requires IsFirst(t, |t|, want, mac, ip, r) && ((want == MyHistory && owner == mac) || (want == Free && owner == 0))
    ensures if r.Some? then FirstIdleOf(t, r.value, owner) else !SomeIdleOf(t, owner)
  {
    forall i | 0 <= i < |t| ensures Fits(t[i], want, mac, ip) <==> IdleOf(t[i], owner) {
    }
  }

  /** What a message makes of every entry. The one that is offered or acknowledged is the client's from now on. The
      one it had before is idle, unless the message was for another server or of another kind; it remembers the
      client only if its lease was in force and the client did not start anew. After an acknowledgement no idle
      entry remembers the client. All other entries are as before. */
  ghost predicate EntryAfter(c: Client, d: Client, taken: bool, available: bool, msg: Message, mac: Mac, reply: Reply, i: nat) {
    var own := Owned(c, mac);
    var moved := own && (msg == Release || msg == Decline || (msg == Message.Request && (taken || available)));
    var owner := if own && msg == Discover then 0 else if moved && c.state != Bind then 0 else c.mac;
    if reply == Offer(i) then d == c.(state := State.Request, mac := mac, timeout := 10)
    else if reply == Ack(i) then d == c.(state := Bind, mac := mac, lease := 315360000)
    else if own && (msg == Discover || moved) then d == c.(state := Idle, mac := if reply.Ack? && owner == mac then 0 else owner)
    else if c.state == Idle && c.mac == mac && reply.Ack? then d == c.(mac := 0)
    else d == c
  }

  lemma {:induction false} EveryEntryAfter(t: Table, f: Found, msg: Message, mac: Mac, ip: Ip, toMe: bool, i: nat)
    requires TableOk(t) && FoundOk(t, |t|, mac, ip, f) && i < |t|
    ensures f.mine.Some? ==> f.mine.value < |t|
    ensures Chosen(f, msg, toMe).Some? ==> Chosen(f, msg, toMe).value < |t|
    ensures var r := Handled(t, f, msg, mac, toMe);
      EntryAfter(t[i], r.0[i], Taken(t, |t|, mac, ip), Available(t, ip), msg, mac, r.1, i)
  {
    assert TimersOk(t[i]);
    FoundMeans(t, mac, ip, f);
    ChosenInRange(t, f, msg, mac, ip, toMe);
    if Owned(t[i], mac) {
      MineIsOnly(t, mac, f.mine, i);
    }
  }

  /** The client has the address already. */
  ghost predicate HasAddress(t: Table, mac: Mac, ip: Ip) {
    exists i {:trigger Owned(t[i], mac)} :: 0 <= i < |t| && Owned(t[i], mac) && t[i].ip == ip
  }

  /** A request is acknowledged exactly when it is meant for this server, nobody else has the address, and
      the address is idle or the client has an entry already; otherwise it is refused. What is acknowledged is
      the address asked for if and only if that is idle or the client has it; if not, it is the one that the
      client has, whatever it asked for. */
  lemma {:induction false} RequestIsAcknowledged(t: Table, f: Found, mac: Mac, ip: Ip, toMe: bool)
    requires TableOk(t) && FoundOk(t, |t|, mac, ip, f)
    ensures f.mine.Some? ==> f.mine.value < |t|
    ensures Chosen(f, Message.Request, toMe).Some? ==> Chosen(f, Message.Request, toMe).value < |t|
    ensures var r := Handled(t, f, Message.Request, mac, toMe);
      if toMe && !Taken(t, |t|, mac, ip) && (Available(t, ip) || HasEntry(t, mac)) then
        && r.1.Ack? && r.1.entry < |t|
        && (r.0[r.1.entry].ip == ip <==> Available(t, ip) || HasAddress(t, mac, ip))
        && (!Available(t, ip) ==> Owned(t[r.1.entry], mac) && r.0[r.1.entry].ip == t[r.1.entry].ip)
      else r.1 == Nak
  {
    ChosenInRange(t, f, Message.Request, mac, ip, toMe);
    FoundMeans(t, mac, ip, f);
    assert f.mine.Some? ==> TimersOk(t[f.mine.value]);
    if HasAddress(t, mac, ip) {
      var i :| 0 <= i < |t| && Owned(t[i], mac) && t[i].ip == ip;
      MineIsOnly(t, mac, f.mine, i);
    }
  }

  /** A release or a refusal ends whatever the client has. */
  lemma {:induction false} ReleaseEndsLease(t: Table, f: Found, msg: Message, mac: Mac, ip: Ip, toMe: bool)
    requires TableOk(t) && FoundOk(t, |t|, mac, ip, f) && (msg == Release || msg == Decline)
    ensures f.mine.Some? ==> f.mine.value < |t|
    ensures Chosen(f, msg, toMe) == None
    ensures var r := Handled(t, f, msg, mac, toMe); r.1 == NoReply && !HasEntry(r.0, mac)
  {
    var r := Handled(t, f, msg, mac, toMe);
    forall i | 0 <= i < |t| ensures !Owned(r.0[i], mac) {
      if Owned(t[i], mac) {
        MineIsOnly(t, mac, f.mine, i);
      }
    }
  }

  // ----- the addresses of the pool -----

  /** The part of an address that the subnet mask leaves open; `hosts` is the complement of the mask. */
  function HostPart(ip: u32, hosts: u32): (h: nat)
    ensures h <= hosts && h <= ip
  {
    ip % (hosts + 1)
  }

  /** The program's modulus: it does not come to the last host part, and takes 1 for 0. */
  function WrapHost(n: nat, hosts: u32): (h: nat)
    requires hosts > 0
  {
    var t := n % 0x1_0000_0000 % hosts;
    if t != 0 then t else 1
  }

  /** The host part of the pool's address number `i`: they follow that of the server. */
  function PoolHost(ip: u32, hosts: u32, i: nat): nat
    requires hosts > 0
  {
    WrapHost(WrapHost(HostPart(ip, hosts) + 1, hosts) + i, hosts)
  }

  function PoolAddress(ip: u32, hosts: u32, i: nat): Ip
    requires hosts > 0
  {
    ip - HostPart(ip, hosts) + PoolHost(ip, hosts, i)
  }

  lemma {:induction false} ModIs(n: nat, d: nat)
    requires 0 < d && n < 2 * d
    ensures n % d == if n < d then n else n - d
  {
    var k, r := n / d, n % d;
    assert n == d * k + r && 0 <= r < d;
    Multiples(d, k);
  }

  lemma {:induction false} Multiples(d: nat, k: nat)
    ensures d * k >= (if k == 0 then 0 else if k == 1 then d else 2 * d)
    ensures k <= 1 ==> d * k == if k == 0 then 0 else d
  {
    if k >= 2 {
      assert d * k == 2 * d + d * (k - 2);
    }
  }

  lemma {:induction false} WrapHostIs(n: nat, hosts: u32)
    requires hosts > 0 && n <= hosts + 1
    ensures WrapHost(n, hosts) == if 0 < n < hosts then n else 1
  {
    ModIs(n, 0x1_0000_0000);
    var m := n % 0x1_0000_0000;
    if hosts == 1 {
      assert m % hosts == 0;
    } else {
      assert m < 2 * hosts;
      ModIs(m, hosts);
    }
  }

  ghost predicate SamePlace(ip: u32, hosts: u32, a: nat, b: nat)
    requires hosts > 0
  {
    PoolHost(ip, hosts, a) == PoolHost(ip, hosts, b)
  }

  /** The addresses of the pool differ if and only if there are nine hosts or more and the eight addresses
      behind that of the server do not reach the last host part, or start anew because the server is at the
      end. */
  ghost predicate RoomForPool(ip: u32, hosts: u32) {
    hosts >= 9 && (HostPart(ip, hosts) <= hosts - 8 || HostPart(ip, hosts) >= hosts - 1)
  }

  lemma {:induction false} PoolDiffers(ip: u32, hosts: u32, a: nat, b: nat)
    requires RoomForPool(ip, hosts) && a < b < CLIENT_NUM
    ensures !SamePlace(ip, hosts, a, b)
  {
    WrapHostIs(HostPart(ip, hosts) + 1, hosts);
    var start := WrapHost(HostPart(ip, hosts) + 1, hosts);
    WrapHostIs(start + a, hosts);
    WrapHostIs(start + b, hosts);
  }

  lemma {:induction false} PoolCollides(ip: u32, hosts: u32) returns (a: nat, b: nat)
    requires hosts > 0 && !RoomForPool(ip, hosts)
    ensures a < b < CLIENT_NUM && SamePlace(ip, hosts, a, b)
  {
    WrapHostIs(HostPart(ip, hosts) + 1, hosts);
    var start := WrapHost(HostPart(ip, hosts) + 1, hosts);
    if hosts - start == 7 {
      a, b := 0, 7;
    } else {
      a, b := hosts - start, hosts - start + 1;
    }
    WrapHostIs(start + a, hosts);
    WrapHostIs(start + b, hosts);
  }

  lemma {:induction false} PoolIsDistinct(ip: u32, hosts: u32)
    requires hosts > 0
    ensures RoomForPool(ip, hosts) <==>
      forall a, b :: 0 <= a < b < CLIENT_NUM ==> PoolAddress(ip, hosts, a) != PoolAddress(ip, hosts, b)
  {
    if RoomForPool(ip, hosts) {
      forall a, b | 0 <= a < b < CLIENT_NUM ensures PoolAddress(ip, hosts, a) != PoolAddress(ip, hosts, b) {
        PoolDiffers(ip, hosts, a, b);
      }
    } else {
      var a, b := PoolCollides(ip, hosts);
      assert PoolAddress(ip, hosts, a) == PoolAddress(ip, hosts, b);
    }
  }

  /** The addresses are those that follow the server's, as long as the last host part is not reached; behind a server
      at the end, they are those of the first hosts. */
  lemma {:induction false} PoolFollows(ip: u32, hosts: u32, i: nat)
    requires hosts > 0
    ensures HostPart(ip, hosts) + 1 + i < hosts ==> PoolAddress(ip, hosts, i) == ip + 1 + i
    ensures HostPart(ip, hosts) + 1 >= hosts && i + 1 < hosts ==> PoolAddress(ip, hosts, i) == ip - HostPart(ip, hosts) + 1 + i
  {
    var h := HostPart(ip, hosts);
    WrapHostIs(h + 1, hosts);
    if h + 1 + i < hosts {
      WrapHostIs(h + 1 + i, hosts);
    } else if h + 1 >= hosts && i + 1 < hosts {
      WrapHostIs(1 + i, hosts);
    }
  }

  ghost predicate AddressOf(c: Client, ip: u32, hosts: u32, i: nat) {
    hosts > 0 && c.ip == PoolAddress(ip, hosts, i)
  }

  /** The entries have the addresses of the pool. */
  ghost predicate PoolIs(t: Table, ip: u32, hosts: u32) {
    forall i {:trigger AddressOf(t[i], ip, hosts, i)} :: 0 <= i < |t| ==> AddressOf(t[i], ip, hosts, i)
  }

  lemma {:induction false} PoolStays(t: Table, u: Table, ip: u32, hosts: u32)
    requires PoolIs(t, ip, hosts) && EntriesKept(t, u)
    ensures PoolIs(u, ip, hosts)
  {
    forall i | 0 <= i < |u| ensures AddressOf(u[i], ip, hosts, i) {
      assert AddressOf(t[i], ip, hosts, i) && EntryKept(t[i], u[i]);
    }
  }

  // ----- the tick -----

  /** One second later. `present` is whether the client is still in the wireless network. */
  function Ticked(c: Client, present: bool): Client {
    if c.state == State.Request && c.timeout > 0 then
      if c.timeout == 1 then c.(timeout := 0, mac := 0, state := Idle) else c.(timeout := c.timeout - 1)
    else if c.state == Bind && c.lease > 0 then
      if c.lease == 1 || !present then c.(lease := c.lease - 1, state := Idle) else c.(lease := c.lease - 1)
    else if c.state == Bind && !present then c.(state := Idle)
    else c
  }

  /** What a second does: an offer comes one second nearer to its end, whether the client is present or not, and then
      nobody is remembered; a lease does too, and it ends at once when the client is gone; at its end the client is
      remembered. */
  lemma {:induction false} TickMeans(c: Client, present: bool)
    requires TimersOk(c)
    ensures var d := Ticked(c, present);
      && d.ip == c.ip
      && (c.state == Idle ==> d == c)
      && (c.state == State.Request ==> d.timeout == c.timeout - 1 && d.lease == c.lease)
      && (c.state == State.Request ==> if c.timeout > 1 then d.state == State.Request && d.mac == c.mac else d.state == Idle && d.mac == 0)
      && (c.state == Bind ==> d.lease == c.lease - 1 && d.timeout == c.timeout && d.mac == c.mac)
      && (c.state == Bind ==> d.state == if present && c.lease > 1 then Bind else Idle)
  {
  }

  function TickedTable(t: Table, present: seq<bool>): (u: Table)
    requires |present| == |t|
    ensures |u| == |t|
  {
    seq(|t|, i requires 0 <= i < |t| => Ticked(t[i], present[i]))
  }

  /** Giving entries up, and forgetting who had idle ones, keeps everything in order. */
  ghost predicate GivesUp(c: Client, d: Client) {
    d.ip == c.ip && (d.state == Idle || (d.state == c.state && d.mac == c.mac && TimersOk(d)))
  }

  lemma {:induction false} GivingUpKeepsTable(t: Table, u: Table)
    requires TableOk(t) && |u| == |t| && forall i {:trigger GivesUp(t[i], u[i])} :: 0 <= i < |t| ==> GivesUp(t[i], u[i])
    ensures TableOk(u) && EntriesKept(t, u)
  {
    forall i | 0 <= i < |t| ensures EntryKept(t[i], u[i]) && TimersOk(u[i]) {
      assert GivesUp(t[i], u[i]) && TimersOk(t[i]);
    }
    forall i, j | 0 <= i < j < |u| ensures !Rivals(u[i], u[j]) {
      assert GivesUp(t[i], u[i]) && GivesUp(t[j], u[j]) && !Rivals(t[i], t[j]);
    }
  }

  lemma {:induction false} TickKeepsTable(t: Table, present: seq<bool>)
    requires TableOk(t) && |present| == |t|
    ensures TableOk(TickedTable(t, present)) && EntriesKept(t, TickedTable(t, present))
  {
    var u := TickedTable(t, present);
    forall i | 0 <= i < |t| ensures GivesUp(t[i], u[i]) {
      assert TimersOk(t[i]);
    }
    GivingUpKeepsTable(t, u);
  }

  /** The entry after `n` seconds without messages, its client being present all the time. */
  function After(c: Client, n: nat): Client {
    if n == 0 then c else Ticked(After(c, n - 1), true)
  }

  /** An offer that is not taken up stands for exactly the timeout, then the entry is free; a lease runs for
      exactly its length, then the client is remembered. */
  lemma {:induction false} TimesOut(c: Client, n: nat)
    requires TimersOk(c) && c.state != Idle
    requires n <= if c.state == Bind then c.lease else c.timeout
    ensures var d := After(c, n);
      if c.state == Bind then d == c.(lease := c.lease - n, state := if n == c.lease then Idle else Bind)
      else d == c.(timeout := c.timeout - n, state := if n == c.timeout then Idle else State.Request, mac := if n == c.timeout then 0 else c.mac)
  {
    if n > 0 {
      TimesOut(c, n - 1);
    }
  }

  class Server {
    const clients: array<Client>
    const address: u32
    const hosts: u32
    var enabled: bool

    ghost predicate Valid()
      reads this, clients
    {
      clients.Length == CLIENT_NUM && TableOk(clients[..]) && hosts > 0 && PoolIs(clients[..], address, hosts)
    }

    /** DHCPS_Start: the pool follows the server's own address. `hosts` is the complement of the subnet mask. */
    constructor (address: u32, hosts: u32)
      requires hosts > 0
      ensures Valid() && enabled && fresh(clients) && this.address == address && this.hosts == hosts
      ensures forall i :: 0 <= i < CLIENT_NUM ==> clients[i] == Client(Idle, 0, PoolAddress(address, hosts, i), 0, LEASE_TIME)
    {
      this.address, this.hosts := address, hosts;
      clients := new Client[CLIENT_NUM](i requires 0 <= i < CLIENT_NUM =>
        Client(Idle, 0, PoolAddress(address, hosts, i), 0, LEASE_TIME));
      enabled := true;
    }

    /** If the pool has room behind the server's address, no address is ever in use by two clients. */
    lemma NoAddressTwice(i: nat, j: nat)
      requires Valid() && RoomForPool(address, hosts)
      requires i < CLIENT_NUM && j < CLIENT_NUM && clients[i].state != Idle && clients[j].state != Idle
      ensures clients[i].ip == clients[j].ip <==> clients[i].mac == clients[j].mac
    {
      var t := clients[..];
      assert AddressOf(t[i], address, hosts, i) && AddressOf(t[j], address, hosts, j);
      PoolIsDistinct(address, hosts);
      assert i < j ==> !Rivals(t[i], t[j]);
      assert j < i ==> !Rivals(t[j], t[i]);
    }

    /** The loop of _ClientTableLookup. */
    method Scan(mac: Mac, ip: Ip) returns (f: Found)
      ensures FoundOk(clients[..], clients.Length, mac, ip, f)
    {
      f := Found(None, None, None, None, None, false);
      ghost var t := clients[..];
      var i: nat := 0;
      while i < clients.Length
        invariant i <= clients.Length && t == clients[..] && FoundOk(t, i, mac, ip, f)
      {
        FoundStep(t, i, mac, ip, f);
        f := Seen(f, clients[i], mac, ip, i);
        i := i + 1;
      }
    }

    /** _ClientTableLookup: find the entry for a message and note the client in it. */
    method Lookup(mac: Mac, msg: Message, ip: Ip, server: Ip) returns (r: Option<nat>, ghost f: Found)
      requires Valid()
      modifies clients
      ensures FoundOk(old(clients[..]), CLIENT_NUM, mac, ip, f)
      ensures r == Chosen(f, msg, server == 0 || server == address) && (r.Some? ==> r.value < CLIENT_NUM)
      ensures f.mine.Some? ==> f.mine.value < CLIENT_NUM
      ensures clients[..] == LookedUp(old(clients[..]), f, msg, mac, server == 0 || server == address)
    {
      ghost var t := clients[..];
      var found := Scan(mac, ip);
      f := found;
      var toMe := server == 0 || server == address;
      ChosenInRange(t, found, msg, mac, ip, toMe);
      r := None;
      match msg {
        case Discover =>
          if found.mine.Some? {
            var k := found.mine.value;
            clients[k] := clients[k].(state := Idle);
            if found.requested.Some? {
              clients[k] := clients[k].(mac := 0);
              r := found.requested;
            } else {
              r := found.mine;
            }
          } else {
            r := Choice(found);
          }
        case Request =>
          if found.mine.Some? {
            if found.taken {
              Forget(found.mine.value);
            } else if found.requested.Some? {
              Forget(found.mine.value);
              r := if toMe then found.requested else None;
            } else if toMe {
              r := found.mine;
            }
          } else if !found.taken && toMe {
            r := found.requested;
          }
        case Release =>
          if found.mine.Some? {
            Forget(found.mine.value);
          }
        case Decline =>
          if found.mine.Some? {
            Forget(found.mine.value);
          }
        case Other =>
      }
      if r.Some? {
        clients[r.value] := clients[r.value].(mac := mac);
      }
    }

    /** Give an entry up. */
    method Forget(k: nat)
      requires k < clients.Length
      modifies clients
      ensures clients[..] == old(clients[..])[k := Forgotten(old(clients[k]))]
    {
      if clients[k].state != Bind {
        clients[k] := clients[k].(mac := 0);
      }
      clients[k] := clients[k].(state := Idle);
    }

    /** _CleanClientHistory. */
    method CleanHistory(mac: Mac)
      modifies clients
      ensures clients[..] == CleanedTable(old(clients[..]), mac)
    {
      for i := 0 to clients.Length
        invariant forall j :: 0 <= j < clients.Length ==>
          clients[j] == if j < i then Cleaned(old(clients[j]), mac) else old(clients[j])
      {
        if clients[i].state == Idle && clients[i].mac == mac {
          clients[i] := clients[i].(mac := 0);
        }
      }
    }

    /** _DhcpClientSMEHandle: the state machine of an entry. An idle entry falls through to the offer. */
    method Advance(k: nat, msg: Message) returns (reply: Reply)
      requires k < clients.Length
      modifies clients
      ensures var c := old(clients[k]); var t := old(clients[..]);
        if Acknowledges(c, msg) then reply == Ack(k) && clients[..] == CleanedTable(t[k := Bound(c)], c.mac)
        else reply == Offer(k) && clients[..] == t[k := Offered(c)]
    {
      ghost var c := clients[k];
      var ack := false;
      match clients[k].state {
        case Idle =>
          if msg == Discover {
            clients[k] := clients[k].(state := Select);
          } else if msg == Message.Request {
            ack := true;
          }
        case Select =>
        case Request => ack := true;
        case Bind => ack := true;
      }
      if ack {
        clients[k] := clients[k].(lease := LEASE_TIME, state := Bind);
        CleanHistory(clients[k].mac);
        return Ack(k);
      }
      clients[k] := clients[k].(timeout := REQUEST_TIMEOUT, state := State.Request);
      return Offer(k);
    }

    /** The part of DHCPS_RecvCb that handles a well-formed message. */
    method Receive(msg: Message, mac: Mac, ip: Ip, server: Ip) returns (reply: Reply, ghost f: Found)
      requires Valid()
      modifies clients
      ensures Valid() && EntriesKept(old(clients[..]), clients[..])
      ensures FoundOk(old(clients[..]), CLIENT_NUM, mac, ip, f) && ReplyOk(clients[..], mac, reply)
      ensures forall i :: 0 <= i < CLIENT_NUM && old(clients[i].state != Idle && clients[i].mac != mac) ==>
        clients[i] == old(clients[i])
      ensures f.mine.Some? ==> f.mine.value < CLIENT_NUM
      ensures var toMe := server == 0 || server == address;
        && (Chosen(f, msg, toMe).Some? ==> Chosen(f, msg, toMe).value < CLIENT_NUM)
        && (clients[..], reply) == Handled(old(clients[..]), f, msg, mac, toMe)
    {
      ghost var t := clients[..];
      var r;
      r, f := Lookup(mac, msg, ip, server);
      if r == None {
        reply := if msg != Release && msg != Decline then Nak else NoReply;
      } else {
        reply := Advance(r.value, msg);
      }
      HandledKeepsTable(t, f, msg, mac, ip, server == 0 || server == address);
      PoolStays(t, clients[..], address, hosts);
      RepliesToOwner(t, f, msg, mac, ip, server == 0 || server == address);
    }

    /** _DhcpTickHandle. */
    method Tick(present: seq<bool>)
      requires Valid() && |present| == CLIENT_NUM
      modifies clients
      ensures Valid() && EntriesKept(old(clients[..]), clients[..])
      ensures clients[..] == if enabled then TickedTable(old(clients[..]), present) else old(clients[..])
    {
      if !enabled {
        assert forall i :: 0 <= i < CLIENT_NUM ==> EntryKept(clients[..][i], clients[..][i]);
        return;
      }
      ghost var t := clients[..];
      for i := 0 to clients.Length
        invariant forall j :: 0 <= j < clients.Length ==>
          clients[j] == if j < i then Ticked(old(clients[j]), present[j]) else old(clients[j])
      {
        if clients[i].state == State.Request {
          if clients[i].timeout > 0 {
            clients[i] := clients[i].(timeout := clients[i].timeout - 1);
            if clients[i].timeout == 0 {
              clients[i] := clients[i].(mac := 0, state := Idle);
            }
          }
        } else if clients[i].state == Bind {
          var over := false;
          if clients[i].lease > 0 {
            clients[i] := clients[i].(lease := clients[i].lease - 1);
            over := clients[i].lease == 0;
          }
          if over {
            clients[i] := clients[i].(state := Idle);
          } else if !present[i] {
            clients[i] := clients[i].(state := Idle);
          }
        }
      }
      TickKeepsTable(t, present);
      PoolStays(t, TickedTable(t, present), address, hosts);
      assert clients[..] == TickedTable(t, present);
    }

    /** DHCPS_ClientDelete: only a lease that is in force can be deleted. */
    method Delete(mac: Option<Mac>) returns (r: Result)
      requires Valid()
      modifies clients
      ensures Valid() && EntriesKept(old(clients[..]), clients[..])
      ensures !enabled ==> r == Inactive
      ensures enabled && mac == None ==> r == Param
      ensures enabled && mac.Some? ==>
        && (r == NotFound <==> !HasEntry(old(clients[..]), mac.value))
        && (r == Success ==> !HasEntry(clients[..], mac.value) && Ended(old(clients[..]), clients[..], mac.value))
        && (r == NotBind ==> Negotiating(old(clients[..]), mac.value))
        && (r == Success || r == NotBind || r == NotFound)
      ensures r != Success ==> clients[..] == old(clients[..])
      ensures forall i :: 0 <= i < CLIENT_NUM && (mac.Some? ==> !old(Owned(clients[i], mac.value))) ==> clients[i] == old(clients[i])
    {
      ghost var t := clients[..];
      assert forall i :: 0 <= i < CLIENT_NUM ==> EntryKept(t[i], t[i]);
      if !enabled {
        return Inactive;
      }
      if mac == None {
        return Param;
      }
      for i := 0 to clients.Length
        invariant clients[..] == t && IsMine(t, i, mac.value, None)
      {
        if clients[i].state != Idle && clients[i].mac == mac.value {
          if clients[i].state != Bind {
            assert Owned(t[i], mac.value);
            return NotBind;
          }
          clients[i] := clients[i].(state := Idle);
          DeletedLease(t, mac.value, i);
          PoolStays(t, t[i := t[i].(state := Idle)], address, hosts);
          assert Owned(t[i], mac.value);
          assert clients[..] == t[i := t[i].(state := Idle)];
          return Success;
        }
      }
      return NotFound;
    }
  }

  /** The lease of the client is over; its entry remembers the client. */
  ghost predicate Ended(t: Table, u: Table, mac: Mac) {
    exists k {:trigger Owned(t[k], mac)} :: 0 <= k < |t| && Owned(t[k], mac) && t[k].state == Bind
      && u == t[k := t[k].(state := Idle)]
  }

  ghost predicate Negotiating(t: Table, mac: Mac) {
    exists k {:trigger Owned(t[k], mac)} :: 0 <= k < |t| && Owned(t[k], mac) && t[k].state != Bind
  }

  lemma {:induction false} DeletedLease(t: Table, mac: Mac, k: nat)
    requires TableOk(t) && k < |t| && Owned(t[k], mac)
    ensures var u := t[k := t[k].(state := Idle)];
      HasEntry(t, mac) && TableOk(u) && EntriesKept(t, u) && !HasEntry(u, mac)
  {
    var u := t[k := t[k].(state := Idle)];
    forall i | 0 <= i < |t| ensures GivesUp(t[i], u[i]) && !Owned(u[i], mac) {
      assert TimersOk(t[i]);
      if Owned(t[i], mac) {
        MineIsOnly(t, mac, Some(k), i);
      }
    }
    GivingUpKeepsTable(t, u);
  }

  /** The first `n` entries are offered to the clients 1 to `n`, nobody has had the others. */
  ghost predicate OfferedTo(t: Table, n: nat) {
    forall i {:trigger t[i]} :: 0 <= i < |t| ==>
      if i < n then t[i].state == State.Request && t[i].mac == i + 1 else t[i].state == Idle && t[i].mac == 0
  }

  /** A new client that asks for no address in particular gets the first entry that nobody has had. */
  lemma {:induction false} NextIsFree(t: Table, f: Found, n: nat, ip: u32, hosts: u32)
    requires OfferedTo(t, n) && n < |t| && FoundOk(t, |t|, n + 1, 0, f) && PoolIs(t, ip, hosts)
    ensures Chosen(f, Discover, true) == Some(n) && f.mine == None
  {
    forall i | 0 <= i < |t| ensures !Fits(t[i], Requested, n + 1, 0) {
      assert AddressOf(t[i], ip, hosts, i);
    }
    assert Fits(t[n], Free, n + 1, 0);
  }

  method DiscoverNext(s: Server, n: nat)
    requires s.Valid() && OfferedTo(s.clients[..], n) && n < CLIENT_NUM
    modifies s.clients
    ensures s.Valid() && OfferedTo(s.clients[..], n + 1)
  {
    ghost var t := s.clients[..];
    var reply, f := s.Receive(Discover, n + 1, 0, 0);
    NextIsFree(t, f, n, s.address, s.hosts);
  }

  /** A run in which two clients are offered the same address: the server is 192.168.1.250 and the mask leaves
      eight bits open; the fifth and the sixth of six new clients both get 192.168.1.1. */
  method TwoClientsOneAddress() returns (s: Server)
    ensures fresh(s) && s.Valid() && s.address == 0xC0A8_01FA && s.hosts == 255
    ensures s.clients[4].state == s.clients[5].state == State.Request && s.clients[4].mac != s.clients[5].mac
    ensures s.clients[4].ip == s.clients[5].ip == 0xC0A8_0101
  {
    s := new Server(0xC0A8_01FA, 255);
    for n := 0 to 6
      invariant fresh(s) && fresh(s.clients) && s.Valid() && s.address == 0xC0A8_01FA && s.hosts == 255
      invariant OfferedTo(s.clients[..], n)
    {
      DiscoverNext(s, n);
    }
    SameAddress(s.clients[..]);
  }

  lemma SameAddress(t: Table)
    requires |t| == CLIENT_NUM && OfferedTo(t, 6) && PoolIs(t, 0xC0A8_01FA, 255)
    ensures t[4].state == t[5].state == State.Request && t[4].mac != t[5].mac && t[4].ip == t[5].ip == 0xC0A8_0101
  {
    assert AddressOf(t[4], 0xC0A8_01FA, 255, 4) && AddressOf(t[5], 0xC0A8_01FA, 255, 5);
    assert HostPart(0xC0A8_01FA, 255) == 250;
    WrapHostIs(251, 255);
    WrapHostIs(255, 255);
    WrapHostIs(256, 255);
    assert PoolHost(0xC0A8_01FA, 255, 4) == 1 && PoolHost(0xC0A8_01FA, 255, 5) == 1;
  }
}
