/** The delta-encoded timeout list: each entry stores the time that passes between the expiry of
    its predecessor and its own. */
module Timers {
  import opened Wrappers

  /** A timeout; handler 0 stands for a null handler. */
  datatype Timeo = Timeo(time: u32, h: nat, arg: nat)

  /** The same timeout with its deadline counted from now. */
  datatype Entry = Entry(at: nat, h: nat, arg: nat)

  const POOL_SIZE: nat := 8

  /** Sum of the deltas. */
  ghost function Total(L: seq<Timeo>): nat {
    if L == [] then 0 else L[0].time + Total(L[1..])
  }

  /** The deadlines that a delta list stands for, counted from `base`. */
  ghost function Deadlines(L: seq<Timeo>, base: nat): (A: seq<Entry>)
    ensures |A| == |L|
  {
    if L == [] then []
    else [Entry(base + L[0].time, L[0].h, L[0].arg)] + Deadlines(L[1..], base + L[0].time)
  }

  /** Insertion in deadline order, behind every entry with the same deadline. */
  ghost function SortedInsert(A: seq<Entry>, e: Entry): seq<Entry> {
    if A == [] || A[0].at > e.at then [e] + A else [A[0]] + SortedInsert(A[1..], e)
  }

  ghost predicate Sorted(A: seq<Entry>) {
    forall i, j :: 0 <= i < j < |A| ==> A[i].at <= A[j].at
  }

  /** Index of the first entry for `h` and `arg`, or |L|. */
  ghost function FirstMatch(L: seq<Timeo>, h: nat, arg: nat): (k: nat)
    ensures k <= |L| && (k < |L| ==> L[k].h == h && L[k].arg == arg)
    ensures forall i :: 0 <= i < k ==> L[i].h != h || L[i].arg != arg
  {
    if L == [] || (L[0].h == h && L[0].arg == arg) then 0 else 1 + FirstMatch(L[1..], h, arg)
  }

  ghost function RemoveAt<T>(s: seq<T>, k: nat): seq<T> {
    if k < |s| then s[..k] + s[k + 1..] else s
  }

  // ----- laws of the encoding -----

  lemma {:induction false} DeadlinesConcat(A: seq<Timeo>, B: seq<Timeo>, base: nat)
    ensures Deadlines(A + B, base) == Deadlines(A, base) + Deadlines(B, base + Total(A))
    ensures Total(A + B) == Total(A) + Total(B)
  {
    if A == [] {
      assert A + B == B;
    } else {
      var L, rest := A + B, A[1..];
      var e, mid := Entry(base + A[0].time, A[0].h, A[0].arg), base + A[0].time;
      assert L[1..] == rest + B && L[0] == A[0];
      DeadlinesConcat(rest, B, mid);
      calc {
        Deadlines(L, base);
        [e] + Deadlines(rest + B, mid);
        [e] + (Deadlines(rest, mid) + Deadlines(B, mid + Total(rest)));
        ([e] + Deadlines(rest, mid)) + Deadlines(B, mid + Total(rest));
        Deadlines(A, base) + Deadlines(B, base + Total(A));
      }
    }
  }

  /** Deadlines come in order and end with the total. */
  lemma {:induction false} DeadlinesSorted(L: seq<Timeo>, base: nat)
    ensures Sorted(Deadlines(L, base))
    ensures forall i :: 0 <= i < |L| ==> base <= Deadlines(L, base)[i].at <= base + Total(L)
    ensures L != [] ==> Deadlines(L, base)[|L| - 1].at == base + Total(L)
  {
    if L != [] {
      var rest := L[1..];
      var A, B := Deadlines(L, base), Deadlines(rest, base + L[0].time);
      DeadlinesSorted(rest, base + L[0].time);
      assert A == [Entry(base + L[0].time, L[0].h, L[0].arg)] + B;
      assert Total(L) == L[0].time + Total(rest);
      if rest != [] {
        assert A[|L| - 1] == B[|rest| - 1];
      }
    }
  }

  /** Deadlines counted from an earlier moment are larger by the difference. */
  lemma {:induction false} DeadlinesShift(L: seq<Timeo>, base: nat, d: nat)
    ensures forall i :: 0 <= i < |L| ==> Deadlines(L, base + d)[i].at == Deadlines(L, base)[i].at + d
  {
    if L != [] {
      var rest, mid := L[1..], base + L[0].time;
      DeadlinesShift(rest, mid, d);
      var A, B := Deadlines(rest, mid), Deadlines(rest, mid + d);
      forall i | 0 <= i < |L| ensures Deadlines(L, base + d)[i].at == Deadlines(L, base)[i].at + d {
        if i > 0 {
          assert Deadlines(L, base)[i] == A[i - 1] && Deadlines(L, base + d)[i] == B[i - 1];
        }
      }
    }
  }

  lemma {:induction false} SortedInsertAt(A: seq<Entry>, B: seq<Entry>, e: Entry)
    requires forall i :: 0 <= i < |A| ==> A[i].at <= e.at
    requires B == [] || B[0].at > e.at
    ensures SortedInsert(A + B, e) == A + [e] + B
  {
    if A == [] {
      assert A + B == B;
    } else {
      var rest, C := A[1..], A + B;
      assert C[1..] == rest + B && C[0] == A[0];
      SortedInsertAt(rest, B, e);
      assert A == [A[0]] + rest;
    }
  }

  /** Where an insertion puts the new entry. */
  lemma {:induction false} SortedInsertSplits(A: seq<Entry>, e: Entry) returns (k: nat)
    requires Sorted(A)
    ensures k <= |A| && SortedInsert(A, e) == A[..k] + [e] + A[k..]
    ensures forall i :: 0 <= i < k ==> A[i].at <= e.at
    ensures forall i :: k <= i < |A| ==> A[i].at > e.at
  {
    if A == [] || A[0].at > e.at {
      k := 0;
    } else {
      k := SortedInsertSplits(A[1..], e);
      assert A[1..][..k] == A[1..k + 1] && A[1..][k..] == A[k + 1..];
      k := k + 1;
    }
  }

  /** `B` is `A` with `e` added at `k`, behind exactly the entries that are due no later than `e`. */
  ghost predicate InsertedAt(A: seq<Entry>, e: Entry, B: seq<Entry>, k: nat) {
    && k < |B| && B[k] == e && RemoveAt(B, k) == A
    && forall i :: 0 <= i < |A| ==> (A[i].at <= e.at <==> i < k)
  }

  /** Entries that were due in registration order stay so: the new entry goes behind equal ones, and
      no two old entries change places. */
  lemma {:induction false} InsertIsStable(A: seq<Entry>, e: Entry)
    requires Sorted(A)
    ensures Sorted(SortedInsert(A, e)) && |SortedInsert(A, e)| == |A| + 1
    ensures exists k: nat :: InsertedAt(A, e, SortedInsert(A, e), k)
  {
    var k := SortedInsertSplits(A, e);
    SplitIsStable(A, e, k);
  }

  lemma {:induction false} SplitIsStable(A: seq<Entry>, e: Entry, k: nat)
    requires Sorted(A) && k <= |A|
    requires forall i :: 0 <= i < k ==> A[i].at <= e.at
    requires forall i :: k <= i < |A| ==> A[i].at > e.at
    ensures Sorted(A[..k] + [e] + A[k..]) && InsertedAt(A, e, A[..k] + [e] + A[k..], k)
  {
    var B := A[..k] + [e] + A[k..];
    assert B[..k] == A[..k] && B[k + 1..] == A[k..];
    forall i, j | 0 <= i < j < |B| ensures B[i].at <= B[j].at {
      assert B[i] == if i < k then A[i] else if i == k then e else A[i - 1];
      assert B[j] == if j < k then A[j] else if j == k then e else A[j - 1];
    }
  }

  /** Changing the first delta of a list is the same as changing the base. */
  lemma {:induction false} DeadlinesRebase(L: seq<Timeo>, base: nat, time: u32, base': nat)
    requires L != [] && base + L[0].time == base' + time
    ensures var M := [L[0].(time := time)] + L[1..];
      Deadlines(M, base') == Deadlines(L, base) && Total(M) - time == Total(L) - L[0].time
  {
  }

  lemma {:induction false} DeadlinesCons(t: Timeo, L: seq<Timeo>, base: nat)
    ensures Deadlines([t] + L, base) == [Entry(base + t.time, t.h, t.arg)] + Deadlines(L, base + t.time)
    ensures Total([t] + L) == t.time + Total(L)
  {
  }

  /** The list behind a new entry `t`: the first delta is reduced by that of `t`. */
  ghost function Reduced(B: seq<Timeo>, t: Timeo): seq<Timeo>
    requires B == [] || B[0].time > t.time
  {
    if B == [] then [] else [B[0].(time := B[0].time - t.time)] + B[1..]
  }

  lemma {:induction false} ReducedDeadlines(B: seq<Timeo>, t: Timeo, base: nat)
    requires B == [] || B[0].time > t.time
    ensures Deadlines(Reduced(B, t), base + t.time) == Deadlines(B, base)
    ensures B != [] ==> Total(Reduced(B, t)) == Total(B) - t.time
  {
  }

  /** The list with `t` inserted between `A` and `B`. */
  ghost function Inserted(A: seq<Timeo>, t: Timeo, B: seq<Timeo>): seq<Timeo>
    requires B == [] || B[0].time > t.time
  {
    A + ([t] + Reduced(B, t))
  }

  /** Inserting `t` between `A` and `B` puts its deadline between theirs. */
  lemma {:induction false} InsertDeadlines(A: seq<Timeo>, t: Timeo, B: seq<Timeo>)
    requires B == [] || B[0].time > t.time
    ensures Deadlines(Inserted(A, t, B), 0)
      == Deadlines(A, 0) + [Entry(Total(A) + t.time, t.h, t.arg)] + Deadlines(B, Total(A))
    ensures Deadlines(A + B, 0) == Deadlines(A, 0) + Deadlines(B, Total(A))
    ensures Total(Inserted(A, t, B)) == if B == [] then Total(A) + t.time else Total(A + B)
  {
    DeadlinesConcat(A, B, 0);
    DeadlinesConcat(A, [t] + Reduced(B, t), 0);
    DeadlinesCons(t, Reduced(B, t), Total(A));
    ReducedDeadlines(B, t, Total(A));
  }

  /** Such an insertion is a sorted insertion of the deadline. */
  lemma {:induction false} InsertIsSorted(A: seq<Timeo>, t: Timeo, B: seq<Timeo>)
    requires B == [] || B[0].time > t.time
    ensures Deadlines(Inserted(A, t, B), 0)
      == SortedInsert(Deadlines(A + B, 0), Entry(Total(A) + t.time, t.h, t.arg))
  {
    InsertDeadlines(A, t, B);
    DeadlinesSorted(A, 0);
    SortedInsertAt(Deadlines(A, 0), Deadlines(B, Total(A)), Entry(Total(A) + t.time, t.h, t.arg));
  }

  /** Removing entry `k` and giving its delta to its successor. */
  ghost function Unlinked(L: seq<Timeo>, k: nat): seq<Timeo>
    requires k < |L|
    requires k + 1 < |L| ==> L[k + 1].time + L[k].time < 0x1_0000_0000
  {
    if k + 1 < |L| then L[..k] + ([L[k + 1].(time := L[k + 1].time + L[k].time)] + L[k + 2..]) else L[..k]
  }

  /** Giving the delta of `t` to its successor keeps the deadlines on both sides of it. */
  lemma {:induction false} PassOn(A: seq<Timeo>, t: Timeo, B: seq<Timeo>)
    requires B != [] && B[0].time + t.time < 0x1_0000_0000
    ensures var M := A + ([B[0].(time := B[0].time + t.time)] + B[1..]);
      Deadlines(M, 0) == Deadlines(A, 0) + Deadlines(B, Total(A) + t.time) && Total(M) == Total(A) + t.time + Total(B)
  {
    var time := B[0].time + t.time;
    DeadlinesConcat(A, [B[0].(time := time)] + B[1..], 0);
    DeadlinesRebase(B, Total(A) + t.time, time, Total(A));
  }

  lemma {:induction false} UnlinkDeadlines(L: seq<Timeo>, k: nat)
    requires k < |L| && (k + 1 < |L| ==> L[k + 1].time + L[k].time < 0x1_0000_0000)
    ensures Deadlines(Unlinked(L, k), 0) == RemoveAt(Deadlines(L, 0), k)
    ensures Total(Unlinked(L, k)) <= Total(L)
  {
    var A, B := L[..k], L[k + 1..];
    var D, E, e := Deadlines(A, 0), Deadlines(B, Total(A) + L[k].time), Entry(Total(A) + L[k].time, L[k].h, L[k].arg);
    assert L == A + ([L[k]] + B);
    DeadlinesConcat(A, [L[k]] + B, 0);
    DeadlinesCons(L[k], B, Total(A));
    MiddleGone(D, e, E);
    if B == [] {
      assert Unlinked(L, k) == A;
    } else {
      assert L[k + 2..] == B[1..];
      PassOn(A, L[k], B);
    }
  }

  lemma MiddleGone(D: seq<Entry>, e: Entry, E: seq<Entry>)
    ensures RemoveAt(D + ([e] + E), |D|) == D + E
  {
  }

  lemma {:induction false} TwoDeltas(L: seq<Timeo>, k: nat)
    requires k + 1 < |L|
    ensures L[k].time + L[k + 1].time <= Total(L)
  {
    assert L == L[..k] + ([L[k], L[k + 1]] + L[k + 2..]);
    DeadlinesConcat(L[..k], [L[k], L[k + 1]] + L[k + 2..], 0);
    DeadlinesConcat([L[k], L[k + 1]], L[k + 2..], 0);
    assert [L[k], L[k + 1]][1..] == [L[k + 1]] && [L[k + 1]][1..] == [];
  }

  // ----- the list and the clock -----

  /** A handler call: when it was requested for, when it happened, and the skew of the list's clock when it
      was requested and when it was made. */
  datatype Firing = Firing(h: nat, arg: nat, due: nat, at: nat, since: int, skew: int)

  /** What a handler may do: register or cancel timeouts, and take time. */
  datatype Action = Set(msecs: u32, h: nat, arg: nat) | Cancel(h: nat, arg: nat) | Busy(d: nat)

  /** One round of the fetch loop as the mailbox and the clock play it: whether waiting ends without
      a message, the waiting time that is reported, the time that really passes meanwhile, and what the
      handler does. */
  datatype Turn = Turn(expires: bool, waited: u32, elapsed: nat, actions: seq<Action>)

  /** What a caller of sys_timeout was promised: the moment of the call, and the skew when it asked. */
  datatype Promise = Promise(due: nat, since: int)

  /** The list has a clock of its own, which advances by what is taken off the first delta. `skew` is by how
      much the real clock has advanced more. An entry is as late as the skew has grown since it was requested. */
  ghost predicate Placed(e: Entry, p: Promise, now: nat, skew: int) {
    now + e.at - p.due == skew - p.since
  }

  ghost predicate AllPlaced(D: seq<Entry>, due: seq<Promise>, now: nat, skew: int) {
    && |due| == |D|
    && forall i {:trigger Placed(D[i], due[i], now, skew)} :: 0 <= i < |D| ==> Placed(D[i], due[i], now, skew)
  }

  ghost predicate Tracked(L: seq<Timeo>, due: seq<Promise>, now: nat, skew: int) {
    AllPlaced(Deadlines(L, 0), due, now, skew)
  }

  /** A call was as late as the skew had grown since it was requested. */
  ghost predicate CalledAsTracked(f: Firing) {
    f.at - f.due == f.skew - f.since
  }

  ghost predicate NotAfter(f: Firing, at: nat) {
    f.at <= at
  }

  ghost predicate FiredAsTracked(fired: seq<Firing>, now: nat) {
    && (forall i {:trigger CalledAsTracked(fired[i])} :: 0 <= i < |fired| ==> CalledAsTracked(fired[i]))
    && (forall i {:trigger NotAfter(fired[i], now)} :: 0 <= i < |fired| ==> NotAfter(fired[i], now))
    && (forall i, j {:trigger NotAfter(fired[i], fired[j].at)} :: 0 <= i < j < |fired| ==> NotAfter(fired[i], fired[j].at))
  }

  lemma FiredLater(fired: seq<Firing>, now: nat, later: nat)
    requires FiredAsTracked(fired, now) && now <= later
    ensures FiredAsTracked(fired, later)
  {
    forall i | 0 <= i < |fired| ensures NotAfter(fired[i], later) {
      assert NotAfter(fired[i], now);
    }
  }

  lemma FiredMore(fired: seq<Firing>, f: Firing)
    requires FiredAsTracked(fired, f.at) && CalledAsTracked(f)
    ensures FiredAsTracked(fired + [f], f.at)
  {
  }

  /** No promise was given at a skew that was larger by more than `early`, and no call was earlier by more. */
  ghost predicate InTime(due: seq<Promise>, skew: int, fired: seq<Firing>, early: nat) {
    && (forall i :: 0 <= i < |due| ==> due[i].since <= skew + early)
    && (forall i :: 0 <= i < |fired| ==> fired[i].due <= fired[i].at + early)
  }

  /** The promise `p` was added at `k`, where the list has an entry for `h` and `arg`. */
  ghost predicate AddedAt(before: seq<Promise>, due: seq<Promise>, L: seq<Timeo>, k: nat, p: Promise, h: nat, arg: nat) {
    && k <= |before| && due == before[..k] + [p] + before[k..]
    && k < |L| && L[k].h == h && L[k].arg == arg
  }

  ghost predicate Added(before: seq<Promise>, due: seq<Promise>, L: seq<Timeo>, p: Promise, h: nat, arg: nat) {
    exists k: nat :: AddedAt(before, due, L, k, p, h, arg)
  }

  lemma {:induction false} PlacedInsert(A: seq<Entry>, e: Entry, B: seq<Entry>, due: seq<Promise>, now: nat, skew: int)
    requires AllPlaced(A + B, due, now, skew)
    ensures AllPlaced(A + [e] + B, due[..|A|] + [Promise(now + e.at, skew)] + due[|A|..], now, skew)
  {
    var D, E := A + B, A + [e] + B;
    var due' := due[..|A|] + [Promise(now + e.at, skew)] + due[|A|..];
    forall i | 0 <= i < |E| ensures Placed(E[i], due'[i], now, skew) {
      var k := if i <= |A| then i else i - 1;
      if i != |A| {
        assert Placed(D[k], due[k], now, skew);
        assert E[i] == D[k] && due'[i] == due[k];
      }
    }
  }

  lemma {:induction false} PlacedRemove(D: seq<Entry>, k: nat, due: seq<Promise>, now: nat, skew: int)
    requires AllPlaced(D, due, now, skew) && k < |D|
    ensures AllPlaced(RemoveAt(D, k), RemoveAt(due, k), now, skew)
  {
  }

  /** What an insertion before entry `k` preserves and adds. */
  lemma {:induction false} InsertedTracked(L: seq<Timeo>, k: nat, t: Timeo, due: seq<Promise>, now: nat, skew: int)
    requires Tracked(L, due, now, skew) && k <= |L| && (k < |L| ==> L[k].time > t.time)
    ensures var M := Inserted(L[..k], t, L[k..]); var at := Total(L[..k]) + t.time;
      && |M| == |L| + 1
      && Tracked(M, due[..k] + [Promise(now + at, skew)] + due[k..], now, skew)
      && Deadlines(M, 0) == SortedInsert(Deadlines(L, 0), Entry(at, t.h, t.arg))
      && Total(M) <= (if at > Total(L) then at else Total(L))
  {
    assert L[..k] + L[k..] == L;
    var A, B := L[..k], L[k..];
    InsertIsSorted(A, t, B);
    InsertDeadlines(A, t, B);
    PlacedInsert(Deadlines(A, 0), Entry(Total(A) + t.time, t.h, t.arg), Deadlines(B, Total(A)), due, now, skew);
  }

  /** The assignments that insert `t` before entry `k`. */
  lemma {:induction false} LinkedInPlace(L: seq<Timeo>, k: nat, t: Timeo)
    requires k <= |L| && (k < |L| ==> L[k].time > t.time)
    ensures var M := if k < |L| then L[k := L[k].(time := L[k].time - t.time)] else L;
      M[..k] + ([t] + M[k..]) == Inserted(L[..k], t, L[k..])
  {
  }

  lemma {:induction false} TrackedUnlink(L: seq<Timeo>, k: nat, due: seq<Promise>, now: nat, skew: int)
    requires Tracked(L, due, now, skew)
    requires k < |L| && (k + 1 < |L| ==> L[k + 1].time + L[k].time < 0x1_0000_0000)
    ensures Tracked(Unlinked(L, k), RemoveAt(due, k), now, skew)
  {
    UnlinkDeadlines(L, k);
    PlacedRemove(Deadlines(L, 0), k, due, now, skew);
  }

  /** Waiting: `w` is taken off the first delta while `elapsed` passes, and the skew grows by the difference.
      An entry can still be called in time if and only if its lag before and `elapsed` are together at least `w`. */
  lemma {:induction false} TrackedWait(L: seq<Timeo>, w: nat, elapsed: nat, due: seq<Promise>, now: nat, skew: int)
    requires L != [] && w <= L[0].time && Tracked(L, due, now, skew)
    ensures var M := [L[0].(time := L[0].time - w)] + L[1..]; var D, E := Deadlines(L, 0), Deadlines(M, 0);
      && Tracked(M, due, now + elapsed, skew + elapsed - w) && Total(M) == Total(L) - w
      && (forall i :: 0 <= i < |D| ==> (now + elapsed + E[i].at >= due[i].due <==> now + D[i].at - due[i].due + elapsed >= w))
  {
    var M := [L[0].(time := L[0].time - w)] + L[1..];
    DeadlinesRebase(L, 0, L[0].time - w, w);
    DeadlinesShift(M, 0, w);
    var D, E := Deadlines(L, 0), Deadlines(M, 0);
    forall i | 0 <= i < |E| ensures Placed(E[i], due[i], now + elapsed, skew + elapsed - w) {
      assert Placed(D[i], due[i], now, skew);
      assert D[i].at == E[i].at + w;
    }
  }

  /** Time passes without being waited for. */
  lemma {:induction false} TrackedElapse(L: seq<Timeo>, d: nat, due: seq<Promise>, now: nat, skew: int)
    requires Tracked(L, due, now, skew)
    ensures Tracked(L, due, now + d, skew + d)
  {
    var D := Deadlines(L, 0);
    forall i | 0 <= i < |D| ensures Placed(D[i], due[i], now + d, skew + d) {
      assert Placed(D[i], due[i], now, skew);
    }
  }

  /** Dropping an expired first entry. */
  lemma {:induction false} TrackedPop(L: seq<Timeo>, due: seq<Promise>, now: nat, skew: int)
    requires L != [] && L[0].time == 0 && Tracked(L, due, now, skew)
    ensures Tracked(L[1..], due[1..], now, skew) && Total(L[1..]) == Total(L)
    ensures now - due[0].due == skew - due[0].since
  {
    var D := Deadlines(L, 0);
    PlacedRemove(D, 0, due, now, skew);
    assert Placed(D[0], due[0], now, skew);
    assert D[..0] + D[1..] == Deadlines(L[1..], 0);
    assert due[..0] + due[1..] == due[1..];
  }

  // ----- the fetch loop on deadlines -----

  /** Index of the first deadline for `h` and `arg`, or |A|. */
  ghost function FirstOf(A: seq<Entry>, h: nat, arg: nat): (k: nat)
    ensures k <= |A|
  {
    if A == [] || (A[0].h == h && A[0].arg == arg) then 0 else 1 + FirstOf(A[1..], h, arg)
  }

  lemma {:induction false} FirstMatchDeadlines(L: seq<Timeo>, base: nat, h: nat, arg: nat)
    ensures FirstOf(Deadlines(L, base), h, arg) == FirstMatch(L, h, arg)
  {
    if L != [] {
      FirstMatchDeadlines(L[1..], base + L[0].time, h, arg);
      assert Deadlines(L, base)[1..] == Deadlines(L[1..], base + L[0].time);
    }
  }

  /** The deadlines after the first `n` actions of a handler. Setting a timeout needs a free element. */
  ghost function Acted(A: seq<Entry>, actions: seq<Action>, n: nat): seq<Entry>
    requires n <= |actions|
  {
    if n == 0 then A
    else
      var B := Acted(A, actions, n - 1);
      match actions[n - 1]
      case Set(msecs, h, arg) => if |B| < POOL_SIZE then SortedInsert(B, Entry(msecs, h, arg)) else B
      case Cancel(h, arg) => RemoveAt(B, FirstOf(B, h, arg))
      case Busy(_) => B
  }

  /** All deadlines come nearer by `d`. */
  ghost function Lowered(A: seq<Entry>, d: nat): seq<Entry> {
    seq(|A|, i requires 0 <= i < |A| => A[i].(at := if A[i].at < d then 0 else A[i].at - d))
  }

  lemma {:induction false} WaitedDeadlines(L: seq<Timeo>, w: nat)
    requires L != [] && w <= L[0].time
    ensures Deadlines([L[0].(time := L[0].time - w)] + L[1..], 0) == Lowered(Deadlines(L, 0), w)
  {
    var M := [L[0].(time := L[0].time - w)] + L[1..];
    DeadlinesRebase(L, 0, L[0].time - w, w);
    DeadlinesShift(M, 0, w);
    var D, E := Deadlines(L, 0), Deadlines(M, 0);
    SameNames(L, 0);
    SameNames(M, 0);
    forall i | 0 <= i < |E| ensures E[i] == Lowered(D, w)[i] {
      assert D[i].at == E[i].at + w;
    }
  }

  lemma {:induction false} SameNames(L: seq<Timeo>, base: nat)
    ensures forall i :: 0 <= i < |L| ==> Deadlines(L, base)[i].h == L[i].h && Deadlines(L, base)[i].arg == L[i].arg
  {
    if L != [] {
      SameNames(L[1..], base + L[0].time);
    }
  }

  /** The deadlines of lists with the same first entry, and those behind a first one that has expired. */
  lemma {:induction false} FirstDeadlines(L: seq<Timeo>, M: seq<Timeo>)
    requires L != [] && M != []
    ensures Deadlines(L, 0)[0] == Entry(L[0].time, L[0].h, L[0].arg)
    ensures M[0].time == 0 ==> Deadlines(M[1..], 0) == Deadlines(M, 0)[1..]
  {
  }

  /** A message ends the loop in this round. */
  ghost predicate Stops(A: seq<Entry>, turn: Turn) {
    !turn.expires && (A == [] || A[0].at > 0)
  }

  /** What is taken off the first deadline in one round: the reported time, or all of it. */
  ghost function Taken(A: seq<Entry>, turn: Turn): nat {
    if A == [] then 0 else if Stops(A, turn) && turn.waited < A[0].at then turn.waited else A[0].at
  }

  /** The handler's actions in one round. */
  ghost function Actions(A: seq<Entry>, turn: Turn): seq<Action> {
    if A == [] || Stops(A, turn) || A[0].h == 0 then [] else turn.actions
  }

  /** The deadlines after one round: a part of the first one is waited for, or all of it, and then the
      first timeout is gone and its handler has acted. */
  ghost function AfterRound(A: seq<Entry>, turn: Turn): seq<Entry> {
    var acts := Actions(A, turn);
    if A == [] then []
    else if Stops(A, turn) then Lowered(A, Taken(A, turn))
    else Acted(Lowered(A, Taken(A, turn))[1..], acts, |acts|)
  }

  /** What a round does to the list, deadline by deadline. When a message comes and nothing has expired, the time
      reported comes off every deadline, but no more than the first one has left. Otherwise the first timeout is
      gone, all of what it had left comes off the others, and its handler acts, unless it is null. */
  lemma {:induction false} RoundMeans(A: seq<Entry>, turn: Turn, i: nat)
    requires i < |A| && Sorted(A)
    ensures var B := AfterRound(A, turn); var d := if turn.waited < A[0].at then turn.waited else A[0].at;
      !turn.expires && A[0].at > 0 ==> |B| == |A| && B[i] == A[i].(at := A[i].at - d)
    ensures var B := AfterRound(A, turn); var C := Lowered(A, A[0].at)[1..];
      turn.expires || A[0].at == 0 ==>
        && |C| == |A| - 1 && (i > 0 ==> C[i - 1] == A[i].(at := A[i].at - A[0].at))
        && B == if A[0].h == 0 then C else Acted(C, turn.actions, |turn.actions|)
  {
    assert A[0].at <= A[i].at;
  }

  /** The time a handler takes with its first `n` actions. */
  ghost function Spent(actions: seq<Action>, n: nat): nat
    requires n <= |actions|
  {
    if n == 0 then 0 else Spent(actions, n - 1) + (if actions[n - 1].Busy? then actions[n - 1].d else 0)
  }

  /** The time spent waiting in one round; nobody waits for a timeout that has expired already. */
  ghost function Waiting(A: seq<Entry>, turn: Turn): nat {
    if (if A == [] then turn.expires else A[0].at == 0) then 0 else turn.elapsed
  }

  /** The time that passes in one round. */
  ghost function Passed(A: seq<Entry>, turn: Turn): nat {
    var acts := Actions(A, turn);
    Waiting(A, turn) + Spent(acts, |acts|)
  }

  ghost function AfterRounds(A: seq<Entry>, script: seq<Turn>, n: nat): seq<Entry>
    requires n <= |script|
  {
    if n == 0 then A else AfterRound(AfterRounds(A, script, n - 1), script[n - 1])
  }

  /** The real time that passes in the first `n` rounds. */
  ghost function PassedIn(A: seq<Entry>, script: seq<Turn>, n: nat): nat
    requires n <= |script|
  {
    if n == 0 then 0 else PassedIn(A, script, n - 1) + Passed(AfterRounds(A, script, n - 1), script[n - 1])
  }

  /** By how much the clock of the list advances in the first `n` rounds. */
  ghost function TakenIn(A: seq<Entry>, script: seq<Turn>, n: nat): nat
    requires n <= |script|
  {
    if n == 0 then 0 else TakenIn(A, script, n - 1) + Taken(AfterRounds(A, script, n - 1), script[n - 1])
  }

  /** How much more is taken off the first deadline in one round than the time that passes. */
  ghost function Loss(A: seq<Entry>, turn: Turn): nat {
    if Taken(A, turn) > turn.elapsed then Taken(A, turn) - turn.elapsed else 0
  }

  ghost function LossIn(A: seq<Entry>, script: seq<Turn>, n: nat): nat
    requires n <= |script|
  {
    if n == 0 then 0 else LossIn(A, script, n - 1) + Loss(AfterRounds(A, script, n - 1), script[n - 1])
  }

  /** The handlers that the first `n` rounds call, none of which is the last. */
  ghost function Called(A: seq<Entry>, script: seq<Turn>, n: nat): seq<(nat, nat)>
    requires n <= |script|
  {
    if n == 0 then []
    else
      var B := AfterRounds(A, script, n - 1);
      Called(A, script, n - 1) + (if B == [] || Stops(B, script[n - 1]) then [] else [(B[0].h, B[0].arg)])
  }

  ghost function Handlers(fired: seq<Firing>): seq<(nat, nat)> {
    seq(|fired|, i requires 0 <= i < |fired| => (fired[i].h, fired[i].arg))
  }

  class TimeoutList {
    var list: seq<Timeo>
    var free: nat
    ghost var due: seq<Promise>
    ghost var now: nat
    ghost var skew: int
    ghost var fired: seq<Firing>

    /** Every pool element is either on the list or free; no deadline exceeds 32 bits; every entry is, and
        every call was, as late as the skew has grown since it was requested, and early if it has shrunk. */
    ghost predicate Valid()
      reads this
    {
      && |list| + free == POOL_SIZE
      && Total(list) < 0x1_0000_0000
      && Tracked(list, due, now, skew)
      && FiredAsTracked(fired, now)
    }

    /** The skew is nowhere less than when a pending timeout was requested, and no call was early. */
    ghost predicate Punctual()
      reads this
    {
      Within(0)
    }

    /** No call was, and with an accurate clock none will be, earlier than requested by more than `early`. */
    ghost predicate Within(early: nat)
      reads this
    {
      InTime(due, skew, fired, early)
    }

    constructor ()
      ensures Valid() && list == [] && due == [] && fired == [] && Punctual() && now == 0 && skew == 0
    {
      list, free := [], POOL_SIZE;
      due, now, skew, fired := [], 0, 0, [];
    }

    /** Time that passes while the thread does not wait for its mailbox. */
    ghost method Elapse(d: nat)
      requires Valid()
      modifies this`now, this`skew
      ensures Valid() && now == old(now) + d && skew == old(skew) + d && (forall e: nat :: old(Within(e)) ==> Within(e))
    {
      TrackedElapse(list, d, due, now, skew);
      FiredLater(fired, now, now + d);
      now := now + d;
      skew := skew + d;
    }

    /** sys_timeout: fails when the pool is empty. Otherwise the new entry is due after `msecs`, every
        other entry keeps its deadline, and entries with equal deadlines stay in registration order. */
    method Timeout(msecs: u32, h: nat, arg: nat) returns (ok: bool)
      requires Valid()
      modifies this`list, this`free, this`due
      ensures Valid() && (ok <==> old(free) > 0)
      ensures ok ==> Deadlines(list, 0) == SortedInsert(Deadlines(old(list), 0), Entry(msecs, h, arg))
      ensures ok ==> Added(old(due), due, list, Promise(now + msecs, skew), h, arg)
      ensures !ok ==> list == old(list) && due == old(due)
      ensures forall e: nat :: old(Within(e)) ==> Within(e)
    {
      if free == 0 {
        return false;
      }
      free := free - 1;
      ok := true;
      var t := Timeo(msecs, h, arg);
      if list == [] {
        InsertedTracked([], 0, t, due, now, skew);
        assert Inserted([], t, []) == [t];
        list := [t];
        due := due[..0] + [Promise(now + msecs, skew)] + due[0..];
        assert AddedAt(old(due), due, list, 0, Promise(now + msecs, skew), h, arg);
      } else if list[0].time > msecs {
        LinkFirst(t);
      } else {
        InsertBehind(t);
      }
    }

    /** The new entry is due before all others. */
    method LinkFirst(t: Timeo)
      requires |list| + free == POOL_SIZE - 1 && Total(list) < 0x1_0000_0000
      requires Tracked(list, due, now, skew) && FiredAsTracked(fired, now)
      requires list != [] && list[0].time > t.time
      modifies this`list, this`due
      ensures Valid()
      ensures Added(old(due), due, list, Promise(now + t.time, skew), t.h, t.arg)
      ensures Deadlines(list, 0) == SortedInsert(Deadlines(old(list), 0), Entry(t.time, t.h, t.arg))
    {
      ghost var L := list;
      InsertedTracked(L, 0, t, due, now, skew);
      assert L[..0] == [] && L[0..] == L;
      list := [t] + list[0 := list[0].(time := list[0].time - t.time)];
      due := due[..0] + [Promise(now + t.time, skew)] + due[0..];
      assert list == Inserted(L[..0], t, L[0..]);
      assert AddedAt(old(due), due, list, 0, Promise(now + t.time, skew), t.h, t.arg);
    }

    /** The loop of sys_timeout: walk along the list, reducing the new delta by each one passed. */
    method InsertBehind(new_: Timeo)
      requires |list| + free == POOL_SIZE - 1 && Total(list) < 0x1_0000_0000
      requires Tracked(list, due, now, skew) && FiredAsTracked(fired, now)
      requires list != [] && list[0].time <= new_.time
      modifies this`list, this`due
      ensures Valid()
      ensures Added(old(due), due, list, Promise(now + new_.time, skew), new_.h, new_.arg)
      ensures Deadlines(list, 0) == SortedInsert(Deadlines(old(list), 0), Entry(new_.time, new_.h, new_.arg))
    {
      var t := new_;
      var i := 0;
      assert Total(list[..0]) == 0;
      while true
        invariant 0 <= i < |list| && list == old(list) && due == old(due)
        invariant t == new_.(time := t.time) && list[i].time <= t.time
        invariant Total(list[..i]) + t.time == new_.time
        decreases |list| - i
      {
        t := t.(time := t.time - list[i].time);
        TotalStep(list, i);
        if i + 1 == |list| || list[i + 1].time > t.time {
          LinkBehind(t, i);
          assert AddedAt(old(due), due, list, i + 1, Promise(now + new_.time, skew), new_.h, new_.arg);
          return;
        }
        i := i + 1;
      }
    }

    /** Link `t`, counted from the expiry of entry `i`, behind that entry. */
    method LinkBehind(t: Timeo, i: nat)
      requires |list| + free == POOL_SIZE - 1 && Total(list) < 0x1_0000_0000
      requires Tracked(list, due, now, skew) && FiredAsTracked(fired, now)
      requires i < |list| && (i + 1 == |list| || list[i + 1].time > t.time)
      requires Total(list[..i + 1]) + t.time < 0x1_0000_0000
      modifies this`list, this`due
      ensures Valid()
      ensures AddedAt(old(due), due, list, i + 1, Promise(now + Total(old(list)[..i + 1]) + t.time, skew), t.h, t.arg)
      ensures Deadlines(list, 0)
        == SortedInsert(Deadlines(old(list), 0), Entry(Total(old(list)[..i + 1]) + t.time, t.h, t.arg))
    {
      ghost var k, L, before := i + 1, list, due;
      ghost var at := Total(L[..k]) + t.time;
      InsertedTracked(L, k, t, due, now, skew);
      Splice(t, i);
      due := before[..k] + [Promise(now + at, skew)] + before[k..];
      assert list[k] == t;
    }

    /** The assignments that put `t` behind entry `i`. */
    method Splice(t: Timeo, i: nat)
      requires i < |list| && (i + 1 == |list| || list[i + 1].time > t.time)
      modifies this`list
      ensures list == Inserted(old(list)[..i + 1], t, old(list)[i + 1..])
    {
      LinkedInPlace(list, i + 1, t);
      if i + 1 < |list| {
        list := list[i + 1 := list[i + 1].(time := list[i + 1].time - t.time)];
      }
      list := list[..i + 1] + ([t] + list[i + 1..]);
    }

    /** Take entry `i` off the list and free its element; its delta goes to its successor. */
    method Unlink(i: nat)
      requires Valid() && i < |list|
      modifies this`list, this`free, this`due
      ensures Valid() && |list| == |old(list)| - 1
      ensures Deadlines(list, 0) == RemoveAt(Deadlines(old(list), 0), i) && due == RemoveAt(old(due), i)
    {
      if i + 1 < |list| {
        TwoDeltas(list, i);
      }
      ghost var L := list;
      TrackedUnlink(L, i, due, now, skew);
      UnlinkDeadlines(L, i);
      TakeOut(i);
      due := RemoveAt(due, i);
      free := free + 1;
    }

    /** The assignments that take entry `i` out. */
    method TakeOut(i: nat)
      requires i < |list| && (i + 1 < |list| ==> list[i + 1].time + list[i].time < 0x1_0000_0000)
      modifies this`list
      ensures list == Unlinked(old(list), i) && |list| == |old(list)| - 1
    {
      var rest := list[i + 1..];
      if rest != [] {
        rest := [rest[0].(time := rest[0].time + list[i].time)] + rest[1..];
      }
      list := list[..i] + rest;
    }

    /** The search of sys_untimeout. */
    method Find(h: nat, arg: nat) returns (i: nat)
      ensures i == FirstMatch(list, h, arg)
    {
      i := 0;
      while i < |list|
        invariant i <= |list| && FirstMatch(list, h, arg) == i + FirstMatch(list[i..], h, arg)
      {
        assert list[i..][1..] == list[i + 1..];
        if list[i].h == h && list[i].arg == arg {
          return;
        }
        i := i + 1;
      }
    }

    /** sys_untimeout: cancel the first timeout for `h` and `arg`; the others keep their deadlines. */
    method Untimeout(h: nat, arg: nat)
      requires Valid()
      modifies this`list, this`free, this`due
      ensures Valid()
      ensures Deadlines(list, 0) == RemoveAt(Deadlines(old(list), 0), FirstMatch(old(list), h, arg))
      ensures due == RemoveAt(old(due), FirstMatch(old(list), h, arg))
      ensures forall e: nat :: old(Within(e)) ==> Within(e)
    {
      var i := Find(h, arg);
      if i < |list| {
        Unlink(i);
      }
    }

    /** A handler runs. The element of the timeout it was called for is free again, so that it can
        register a timeout. */
    method RunHandler(actions: seq<Action>)
      requires Valid() && free > 0
      modifies this`list, this`free, this`due, this`now, this`skew
      ensures Valid() && (forall e: nat :: old(Within(e)) ==> Within(e))
      ensures Deadlines(list, 0) == Acted(Deadlines(old(list), 0), actions, |actions|)
      ensures now == old(now) + Spent(actions, |actions|) && skew == old(skew) + Spent(actions, |actions|)
    {
      ghost var A := Deadlines(list, 0);
      for i := 0 to |actions|
        invariant Valid() && (forall e: nat :: old(Within(e)) ==> Within(e))
        invariant Deadlines(list, 0) == Acted(A, actions, i)
        invariant now == old(now) + Spent(actions, i) && skew == old(skew) + Spent(actions, i)
      {
        match actions[i]
        case Set(msecs, h, arg) => var _ := Timeout(msecs, h, arg);
        case Cancel(h, arg) =>
          FirstMatchDeadlines(list, 0, h, arg);
          Untimeout(h, arg);
        case Busy(d) => Elapse(d);
      }
    }

    /** Waiting with the first delta as the time limit ends with a report of `w` milliseconds, after
        `elapsed`. If every promise could be kept before, and one of them just so, then every promise can
        still be kept if and only if the time taken off the first delta is at most the time elapsed. */
    method Wait(w: u32, ghost elapsed: nat)
      requires Valid() && list != []
      modifies this`list, this`now, this`skew
      ensures Valid() && |list| == |old(list)| && now == old(now) + elapsed
      ensures list[0].time == (if w < old(list)[0].time then old(list)[0].time - w else 0)
      ensures list[0] == old(list)[0].(time := list[0].time) && list[1..] == old(list)[1..]
      ensures skew == old(skew) + elapsed - (old(list)[0].time - list[0].time)
      ensures old(Punctual()) && (exists i :: 0 <= i < |due| && due[i].since == old(skew)) ==>
                (Punctual() <==> old(list)[0].time - list[0].time <= elapsed)
    {
      ghost var d := if w < list[0].time then w else list[0].time;
      TrackedWait(list, d, elapsed, due, now, skew);
      FiredLater(fired, now, now + elapsed);
      assert list[0 := list[0].(time := list[0].time - d)] == [list[0].(time := list[0].time - d)] + list[1..];
      if w < list[0].time {
        list := list[0 := list[0].(time := list[0].time - w)];
      } else {
        list := list[0 := list[0].(time := 0)];
      }
      now := now + elapsed;
      skew := skew + elapsed - d;
    }

    /** The first entry has expired: take it off the list, free its element, then call its handler. */
    method Expire(actions: seq<Action>)
      requires Valid() && list != [] && list[0].time == 0
      modifies this
      ensures Valid() && (forall e: nat :: old(Within(e)) ==> Within(e))
      ensures fired == old(fired) + [Firing(old(list)[0].h, old(list)[0].arg, old(due)[0].due, old(now), old(due)[0].since, old(skew))]
      ensures var acts := if old(list)[0].h != 0 then actions else [];
        && Deadlines(list, 0) == Acted(Deadlines(old(list)[1..], 0), acts, |acts|)
        && now == old(now) + Spent(acts, |acts|) && skew == old(skew) + Spent(acts, |acts|)
    {
      TrackedPop(list, due, now, skew);
      var t := list[0];
      FiredMore(fired, Firing(t.h, t.arg, due[0].due, now, due[0].since, skew));
      fired := fired + [Firing(t.h, t.arg, due[0].due, now, due[0].since, skew)];
      list := list[1..];
      due := due[1..];
      free := free + 1;
      if t.h != 0 {
        RunHandler(actions);
      }
    }

    /** One round of the fetch loop: it ends with a message, or the first timeout expires and its handler
        is called, at the moment the wait is over. The skew grows by the time that passes and shrinks by what
        is taken off the first deadline. */
    method Round(turn: Turn, ghost early: nat) returns (message: bool)
      requires Valid()
      modifies this
      ensures Valid() && old(fired) <= fired && (message ==> due == old(due))
      ensures var A := Deadlines(old(list), 0);
        && (message <==> Stops(A, turn)) && Deadlines(list, 0) == AfterRound(A, turn)
        && now == old(now) + Passed(A, turn) && skew == old(skew) + Passed(A, turn) - Taken(A, turn)
        && fired == old(fired) + (if message || A == [] then [] else
             [Firing(A[0].h, A[0].arg, old(due)[0].due, old(now) + Waiting(A, turn), old(due)[0].since,
                     old(skew) + Waiting(A, turn) - Taken(A, turn))])
        && (old(Within(early)) ==> Within(early + Loss(A, turn)))
    {
      if list == [] {
        if !turn.expires {
          Elapse(turn.elapsed);
          return true;
        }
        return false;
      }
      ghost var L := list;
      var expired := Await(turn, early);
      if !expired {
        return true;
      }
      FirstDeadlines(L, list);
      Expire(turn.actions);
      return false;
    }

    /** The waiting in a round: part of the first deadline, or all of it. */
    method Await(turn: Turn, ghost early: nat) returns (expired: bool)
      requires Valid() && list != []
      modifies this`list, this`now, this`skew
      ensures Valid() && list != [] && list[0].h == old(list)[0].h && list[0].arg == old(list)[0].arg
      ensures var A := Deadlines(old(list), 0);
        && (expired <==> !Stops(A, turn)) && (expired ==> list[0].time == 0)
        && Deadlines(list, 0) == Lowered(A, Taken(A, turn))
        && now == old(now) + Waiting(A, turn) && skew == old(skew) + Waiting(A, turn) - Taken(A, turn)
        && (old(Within(early)) ==> Within(early + Loss(A, turn)))
    {
      expired := list[0].time == 0 || turn.expires;
      ghost var w := if expired || turn.waited >= list[0].time then list[0].time else turn.waited;
      WaitedDeadlines(list, w);
      ghost var waited := [list[0].(time := list[0].time - w)] + list[1..];
      if list[0].time > 0 {
        Wait(if expired then list[0].time else turn.waited, turn.elapsed);
      }
      assert list == waited;
    }

    /** Round number `i` of the fetch loop. */
    method NextRound(script: seq<Turn>, i: nat, ghost A: seq<Entry>, ghost fired0: seq<Firing>, ghost now0: nat, ghost skew0: int,
                     ghost within: bool, ghost early: nat)
      returns (message: bool, ghost bound: nat)
      requires Valid() && i < |script|
      requires FetchState(A, script, i, false, Deadlines(list, 0), fired0, fired, now - now0, skew - skew0)
      requires within ==> Within(early)
      modifies this
      ensures Valid() && FetchState(A, script, i + 1, message, Deadlines(list, 0), fired0, fired, now - now0, skew - skew0)
      ensures bound == early + LossIn(A, script, i + 1) - LossIn(A, script, i) && (within ==> Within(bound))
    {
      ghost var D, f, passed, gained := Deadlines(list, 0), fired, now - now0, skew - skew0;
      message := Round(script[i], early);
      bound := early + Loss(D, script[i]);
      FetchMore(A, script, i, D, fired0, f, fired, passed, gained, now - now0, skew - skew0);
    }

    /** sys_timeouts_mbox_fetch against a script of turns: handles timeouts until a message comes, or
        until the script ends while it is still waiting. `n` is the number of rounds. If no handler has been
        called earlier than requested by more than `early` before, then none is by more than that and what the
        rounds have taken without its having passed. */
    method MboxFetch(script: seq<Turn>, ghost early: nat) returns (message: bool, ghost n: nat)
      requires Valid()
      modifies this
      ensures Valid() && n <= |script| && (message || n == |script|)
      ensures FetchState(Deadlines(old(list), 0), script, n, message, Deadlines(list, 0), old(fired), fired, now - old(now), skew - old(skew))
      ensures old(Within(early)) ==> Within(early + LossIn(Deadlines(old(list), 0), script, n))
    {
      ghost var A, fired0, now0, skew0, within := Deadlines(list, 0), fired, now, skew, Within(early);
      ghost var bound := early;
      message := false;
      var i: nat := 0;
      FetchStarts(A, script, fired);
      while i < |script| && !message
        invariant i <= |script| && Valid()
        invariant FetchState(A, script, i, message, Deadlines(list, 0), fired0, fired, now - now0, skew - skew0)
        invariant bound == early + LossIn(A, script, i) && (within ==> Within(bound))
      {
        message, bound := NextRound(script, i, A, fired0, now0, skew0, within, bound);
        i := i + 1;
      }
      n := i;
    }
  }

  /** A message is given to the thread only when no timeout had expired before the wait for it: in its last round, the
      fetch began to wait with every deadline ahead. */
  lemma {:induction false} MessageMeansNothingDue(A: seq<Entry>, script: seq<Turn>, n: nat, D: seq<Entry>, fired0: seq<Firing>,
                                                  fired: seq<Firing>, passed: int, gained: int, i: nat)
    requires FetchState(A, script, n, true, D, fired0, fired, passed, gained) && Sorted(AfterRounds(A, script, n - 1))
    requires i < |AfterRounds(A, script, n - 1)|
    ensures AfterRounds(A, script, n - 1)[i].at > 0
  {
    assert AfterRounds(A, script, n - 1)[0].at <= AfterRounds(A, script, n - 1)[i].at;
  }

  /** `passed` and `gained` are what the clock and the skew have gained in the first `n` rounds. */
  ghost predicate Clocked(A: seq<Entry>, script: seq<Turn>, n: nat, passed: int, gained: int) {
    n <= |script| && passed == PassedIn(A, script, n) && gained == passed - TakenIn(A, script, n)
  }

  /** In the round from `B`, no more is taken off the first deadline than the time that passes. */
  ghost predicate TruthfulRound(B: seq<Entry>, turn: Turn) {
    Taken(B, turn) <= turn.elapsed
  }

  ghost predicate Truthful(A: seq<Entry>, script: seq<Turn>, n: nat) {
    forall i {:trigger AfterRounds(A, script, i)} :: 0 <= i < n && i < |script| ==> TruthfulRound(AfterRounds(A, script, i), script[i])
  }

  /** Then, and only then, nothing is lost, and nothing can be called early. */
  lemma {:induction false} TruthfulLosesNothing(A: seq<Entry>, script: seq<Turn>, n: nat)
    requires n <= |script|
    ensures LossIn(A, script, n) == 0 <==> Truthful(A, script, n)
  {
    if n > 0 {
      TruthfulLosesNothing(A, script, n - 1);
      assert Truthful(A, script, n) ==> TruthfulRound(AfterRounds(A, script, n - 1), script[n - 1]);
    }
  }

  lemma {:induction false} ClockedMore(A: seq<Entry>, script: seq<Turn>, i: nat, D: seq<Entry>, passed: int, gained: int,
                                       passed': int, gained': int)
    requires i < |script| && Clocked(A, script, i, passed, gained) && D == AfterRounds(A, script, i)
    requires passed' - passed == Passed(D, script[i]) && gained' - gained == passed' - passed - Taken(D, script[i])
    ensures Clocked(A, script, i + 1, passed', gained')
  {
  }

  /** After `n` rounds the deadlines and the handlers called are those of the rounds. */
  ghost predicate Fetched(A: seq<Entry>, script: seq<Turn>, n: nat, D: seq<Entry>, fired0: seq<Firing>, fired: seq<Firing>) {
    && n <= |script| && D == AfterRounds(A, script, n)
    && fired0 <= fired && Handlers(fired) == Handlers(fired0) + Called(A, script, n)
  }

  ghost predicate StopsAt(A: seq<Entry>, script: seq<Turn>, i: nat) {
    i < |script| && Stops(AfterRounds(A, script, i), script[i])
  }

  /** No message has come in the first `n` rounds. */
  ghost predicate Ongoing(A: seq<Entry>, script: seq<Turn>, n: nat) {
    forall i: nat {:trigger StopsAt(A, script, i)} :: i < n ==> !StopsAt(A, script, i)
  }

  lemma {:induction false} FetchedMore(A: seq<Entry>, script: seq<Turn>, i: nat, D: seq<Entry>, fired0: seq<Firing>,
                                       f: seq<Firing>, g: seq<Firing>)
    requires i < |script| && Fetched(A, script, i, D, fired0, f) && f <= g && |g| <= |f| + 1
    requires if D == [] || Stops(D, script[i]) then g == f else |g| == |f| + 1 && g[|f|].h == D[0].h && g[|f|].arg == D[0].arg
    ensures Fetched(A, script, i + 1, AfterRound(D, script[i]), fired0, g)
    ensures Ongoing(A, script, i) && !Stops(D, script[i]) ==> Ongoing(A, script, i + 1)
    ensures Stops(D, script[i]) ==> StopsAt(A, script, i)
  {
    var more := Handlers(g);
    assert more == Handlers(f) + (if |g| == |f| then [] else [(g[|f|].h, g[|f|].arg)]);
    assert more == Handlers(fired0) + Called(A, script, i + 1);
  }

  /** The loop has gone through `n` rounds; only the last of them may have ended with a message. */
  ghost predicate FetchState(A: seq<Entry>, script: seq<Turn>, n: nat, message: bool, D: seq<Entry>, fired0: seq<Firing>,
                             fired: seq<Firing>, passed: int, gained: int) {
    && Fetched(A, script, n, D, fired0, fired) && Clocked(A, script, n, passed, gained)
    && (if message then n > 0 && Ongoing(A, script, n - 1) && StopsAt(A, script, n - 1) else Ongoing(A, script, n))
  }

  lemma {:induction false} FetchStarts(A: seq<Entry>, script: seq<Turn>, fired: seq<Firing>)
    ensures FetchState(A, script, 0, false, A, fired, fired, 0, 0) && LossIn(A, script, 0) == 0
  {
    assert Handlers(fired) + [] == Handlers(fired);
  }

  lemma {:induction false} FetchMore(A: seq<Entry>, script: seq<Turn>, i: nat, D: seq<Entry>, fired0: seq<Firing>,
                                     f: seq<Firing>, g: seq<Firing>, passed: int, gained: int, passed': int, gained': int)
    requires i < |script| && FetchState(A, script, i, false, D, fired0, f, passed, gained) && f <= g && |g| <= |f| + 1
    requires if D == [] || Stops(D, script[i]) then g == f else |g| == |f| + 1 && g[|f|].h == D[0].h && g[|f|].arg == D[0].arg
    requires passed' - passed == Passed(D, script[i]) && gained' - gained == passed' - passed - Taken(D, script[i])
    ensures FetchState(A, script, i + 1, Stops(D, script[i]), AfterRound(D, script[i]), fired0, g, passed', gained')
  {
    FetchedMore(A, script, i, D, fired0, f, g);
    ClockedMore(A, script, i, D, passed, gained, passed', gained');
  }

  lemma {:induction false} TotalStep(L: seq<Timeo>, i: nat)
    requires i < |L|
    ensures Total(L[..i + 1]) == Total(L[..i]) + L[i].time
  {
    assert L[..i + 1] == L[..i] + [L[i]];
    DeadlinesConcat(L[..i], [L[i]], 0);
    assert [L[i]][1..] == [];
  }
}
