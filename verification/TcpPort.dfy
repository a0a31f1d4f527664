/** The search for a free local TCP port. */
module TcpPort {
  import opened Wrappers

  const RANGE_START: nat := 0xc000
  const RANGE_END: nat := 0xffff
  const RANGE_SIZE: nat := RANGE_END - RANGE_START + 1
  const NUM_LISTS := 4

  predicate InRange(p: nat) {
    RANGE_START <= p <= RANGE_END
  }

  /** Some control block on one of the lists has the port. */
  ghost predicate Used(lists: seq<seq<u16>>, p: nat) {
    exists i, k {:trigger lists[i][k]} :: 0 <= i < |lists| && 0 <= k < |lists[i]| && lists[i][k] == p
  }

  /** The `d`-th port after `p`, going round in the range. */
  ghost function Ahead(p: nat, d: nat): (q: nat)
    requires InRange(p)
    ensures InRange(q)
  {
    RANGE_START + (p - RANGE_START + d) % RANGE_SIZE
  }

  lemma {:induction false} AheadStep(p: nat, d: nat)
    requires InRange(p)
    ensures Ahead(p, d + 1) == if Ahead(p, d) == RANGE_END then RANGE_START else Ahead(p, d) + 1
  {
  }

  /** Going once round, every port of the range is passed. */
  lemma {:induction false} GoingRound(p: nat, q: nat) returns (d: nat)
    requires InRange(p) && InRange(q)
    ensures 1 <= d <= RANGE_SIZE && Ahead(p, d) == q
  {
    d := if q > p then q - p else q + RANGE_SIZE - p;
    if q > p {
      assert p - RANGE_START + d == q - RANGE_START;
    } else {
      assert (p - RANGE_START + d) % RANGE_SIZE == (q - RANGE_START + RANGE_SIZE) % RANGE_SIZE;
    }
  }

  /** The two inner loops of tcp_new_port: look for the port on all lists. */
  method OnLists(lists: seq<seq<u16>>, p: nat) returns (used: bool)
    ensures used <==> Used(lists, p)
  {
    var i: nat := 0;
    while i < |lists|
      invariant i <= |lists|
      invariant forall j, k {:trigger lists[j][k]} :: 0 <= j < i && 0 <= k < |lists[j]| ==> lists[j][k] != p
    {
      var k: nat := 0;
      while k < |lists[i]|
        invariant k <= |lists[i]|
        invariant forall h :: 0 <= h < k ==> lists[i][h] != p
      {
        if lists[i][k] == p {
          return true;
        }
        k := k + 1;
      }
      i := i + 1;
    }
    return false;
  }

  class PortAllocator {
    /** The port handed out last. */
    var port: nat

    ghost predicate Valid()
      reads this
    {
      InRange(port)
    }

    /** tcp_init: start anywhere in the range. */
    constructor (random: u16)
      ensures Valid()
    {
      port := random % 0x4000 + RANGE_START;
    }

    /** tcp_new_port: the next port that no control block uses, after at most one probe for each port of the
        range; zero exactly when all of them are in use. */
    method NewPort(lists: seq<seq<u16>>) returns (r: nat, ghost probes: nat)
      requires Valid() && |lists| == NUM_LISTS
      modifies this
      ensures Valid() && 1 <= probes <= RANGE_SIZE && port == Ahead(old(port), probes)
      ensures r == 0 <==> forall p {:trigger InRange(p)} :: InRange(p) ==> Used(lists, p)
      ensures r != 0 ==> r == port && InRange(r) && !Used(lists, r)
      ensures forall d {:trigger Ahead(old(port), d)} :: 1 <= d < probes ==> Used(lists, Ahead(old(port), d))
    {
      ghost var start := port;
      var n: nat := 0;
      assert port == Ahead(start, 0);
      while true
        invariant n < RANGE_SIZE && Valid() && port == Ahead(start, n)
        invariant forall d {:trigger Ahead(start, d)} :: 1 <= d <= n ==> Used(lists, Ahead(start, d))
        decreases RANGE_SIZE - n
      {
        AheadStep(start, n);
        if port == RANGE_END {
          port := RANGE_START;
        } else {
          port := port + 1;
        }
        var used := OnLists(lists, port);
        if !used {
          return port, n + 1;
        }
        n := n + 1;
        if n > RANGE_END - RANGE_START {
          forall p | InRange(p) ensures Used(lists, p) {
            var d := GoingRound(start, p);
          }
          return 0, n;
        }
      }
    }
  }
}
