/** Consequences of the scheduling rules that hold in every state, reachable or not. */
module ArbiterRules {
  import opened ArbiterSpec

  // ---------- Selection is deterministic and total

  /** The least position at or before `found` that satisfies p. */
  lemma Least(found: nat, p: nat -> bool) returns (i: nat)
    requires p(found)
    ensures i <= found && p(i) && forall j: nat :: j < i ==> !p(j)
  {
    i := 0;
    while !p(i)
      invariant i <= found
      invariant forall j: nat :: j < i ==> !p(j)
      decreases found - i
    {
      i := i + 1;
    }
  }

  lemma SelectedIsUnique(s: State, now: nat, i: nat, j: nat)
    requires IsSelected(s, now, i) && IsSelected(s, now, j)
    ensures i == j
  {
    if i < j {
      SelectedIsFirst(s, now, i, j);
    } else if j < i {
      SelectedIsFirst(s, now, j, i);
    }
  }

  lemma SelectedIsFirst(s: State, now: nat, i: nat, j: nat)
    requires IsSelected(s, now, i) && IsSelected(s, now, j)
    ensures j <= i
  {
    if !EligibleAged(s, now, i) {
      assert !EligibleAged(s, now, j);
      if !EligibleAKA(s, i) {
        assert !EligibleAKA(s, j);
      }
    }
  }

  /** Something is selected exactly when some transport is eligible. */
  lemma SelectedExists(s: State, now: nat)
    ensures (exists i: nat :: IsSelected(s, now, i)) <==> (exists i: nat :: Eligible(s, i))
  {
    if a: nat :| EligibleAged(s, now, a) {
      var p := (k: nat) => EligibleAged(s, now, k);
      var i := Least(a, p);
      forall j: nat | j < i ensures !EligibleAged(s, now, j) { assert !p(j); }
      assert IsSelected(s, now, i);
    } else if a: nat :| EligibleAKA(s, a) {
      var p := (k: nat) => EligibleAKA(s, k);
      var i := Least(a, p);
      forall j: nat | j < i ensures !EligibleAKA(s, j) { assert !p(j); }
      assert !EligibleAged(s, now, i);
      assert IsSelected(s, now, i);
    } else if e: nat :| Eligible(s, e) {
      var p := (k: nat) => Eligible(s, k);
      var i := Least(e, p);
      forall j: nat | j < i ensures !Eligible(s, j) { assert !p(j); }
      assert !EligibleAged(s, now, i) && !EligibleAKA(s, i);
      assert IsSelected(s, now, i);
    }
  }

  // ---------- Barriers are never overtaken

  ghost predicate DistinctTickets(q: seq<Ticket>) {
    forall i, j :: 0 <= i < j < |q| ==> q[i].id != q[j].id
  }

  lemma IndexOfTicket(q: seq<Ticket>, i: nat)
    requires DistinctTickets(q) && i < |q|
    ensures TicketIndex(q, q[i].id) == i
  {
  }

  /** A grantable lease has nothing but leases before it, and nothing at all unless it is a transport. */
  lemma NoLeaseOvertakesBarrier(s: State, t: Ticket, now: nat, i: nat)
    requires DistinctTickets(s.queue) && i < |s.queue| && s.queue[i] == t
    requires CanAcquireLease(s, t, now)
    ensures forall j :: 0 <= j < i ==> s.queue[j].leaseType == Transport
    ensures t.leaseType != Transport ==> i == 0
  {
    IndexOfTicket(s.queue, i);
  }

  /** The pending-barrier test never decides: the other conditions already imply it. */
  lemma PendingBarrierTestIsImplied(s: State, t: Ticket, now: nat, i: nat)
    requires DistinctTickets(s.queue) && i < |s.queue| && s.queue[i] == t
    requires t.leaseType == Transport ==> exists k: nat :: IsSelected(s, now, k) && s.queue[k].id == t.id
    requires t.leaseType == Session || t.leaseType == OneShot ==> HeadIs(s, t.id)
    requires t.leaseType != Barrier
    ensures !PendingBarrierAhead(s, t)
  {
    IndexOfTicket(s.queue, i);
    if t.leaseType == Transport {
      var k: nat :| IsSelected(s, now, k) && s.queue[k].id == t.id;
      assert k == i;
      assert forall j :: 0 <= j < i ==> !Stops(s, s.queue[j]);
    } else {
      assert i == 0;
    }
  }

  lemma BarriersEnterInOrder(s: State, t: Ticket, i: nat)
    requires DistinctTickets(s.queue) && i < |s.queue| && s.queue[i] == t
    requires CanAcquireBarrier(s, t)
    ensures NoActiveLease(s)
    ensures forall j :: 0 <= j < i ==> s.queue[j].leaseType != Barrier
  {
    var b: nat :| IsFirstBarrier(s, b) && s.queue[b].id == t.id;
    assert b == i;
  }

  // ---------- Progress

  /** Queue position i holds an unblocked transport with only transports before it. */
  ghost predicate OpenTransport(s: State, i: nat) {
    && i < |s.queue|
    && (forall j :: 0 <= j <= i ==> s.queue[j].leaseType == Transport)
    && !BlockedByActiveBarrier(s, s.queue[i].cls)
  }

  ghost predicate SomeGrantable(s: State, now: nat) {
    exists i: nat :: i < |s.queue| && CanAcquire(s, s.queue[i], now)
  }

  ghost predicate CanMove(s: State) {
    || (exists b: nat :: IsFirstBarrier(s, b))
    || (|s.queue| > 0 && s.queue[0].leaseType in {Session, OneShot} && !BlockedByActiveBarrier(s, s.queue[0].cls))
    || (exists i: nat :: OpenTransport(s, i))
  }

  /** With no active lease, some ticket is grantable exactly when a barrier is queued, or an unblocked
      session or one-shot leads, or the leading run of transports holds an unblocked one. */
  lemma Progress(s: State, now: nat)
    requires ValidOptions(s.opts) && DistinctTickets(s.queue) && NoActiveLease(s)
    ensures SomeGrantable(s, now) <==> CanMove(s)
  {
    if CanMove(s) {
      if b: nat :| IsFirstBarrier(s, b) {
        assert CanAcquireBarrier(s, s.queue[b]);
        assert CanAcquire(s, s.queue[b], now);
      } else if i: nat :| OpenTransport(s, i) {
        OpenTransportMoves(s, now, i);
      } else {
        IndexOfTicket(s.queue, 0);
        assert CanAcquire(s, s.queue[0], now);
      }
    }
    if SomeGrantable(s, now) {
      var i: nat :| i < |s.queue| && CanAcquire(s, s.queue[i], now);
      var t := s.queue[i];
      IndexOfTicket(s.queue, i);
      match t.leaseType {
        case Barrier =>
        case Transport =>
          NoLeaseOvertakesBarrier(s, t, now, i);
          assert OpenTransport(s, i);
        case _ =>
          NoLeaseOvertakesBarrier(s, t, now, i);
      }
    }
  }

  lemma OpenTransportMoves(s: State, now: nat, i: nat)
    requires ValidOptions(s.opts) && DistinctTickets(s.queue) && NoActiveLease(s)
    requires OpenTransport(s, i)
    ensures SomeGrantable(s, now)
  {
    assert forall j :: 0 <= j <= i ==> TransportFits(s, s.queue[j]);
    assert Eligible(s, i);
    SelectedExists(s, now);
    var k: nat :| IsSelected(s, now, k);
    var t := s.queue[k];
    PendingBarrierTestIsImplied(s, t, now, k);
    assert CanAcquireLease(s, t, now);
    assert CanAcquire(s, s.queue[k], now);
  }

  /** The three situations in which the queue cannot be stuck. */
  lemma NeverStuck(s: State, now: nat)
    requires ValidOptions(s.opts) && DistinctTickets(s.queue) && NoActiveLease(s) && s.queue != []
    requires || (exists i :: 0 <= i < |s.queue| && s.queue[i].leaseType == Barrier)
             || s.barriers == []
             || (&& (forall i :: 0 <= i < |s.queue| ==> s.queue[i].leaseType == Transport)
                 && exists i :: 0 <= i < |s.queue| && !BlockedByActiveBarrier(s, s.queue[i].cls))
    ensures SomeGrantable(s, now)
  {
    if i :| 0 <= i < |s.queue| && s.queue[i].leaseType == Barrier {
      var p := (k: nat) => k < |s.queue| && s.queue[k].leaseType == Barrier;
      var b := Least(i, p);
      forall j: nat | j < b ensures s.queue[j].leaseType != Barrier { assert !p(j); }
      assert IsFirstBarrier(s, b);
    } else if s.barriers == [] {
      assert !BlockedByActiveBarrier(s, s.queue[0].cls);
      if s.queue[0].leaseType == Transport {
        assert OpenTransport(s, 0);
      } else {
        assert CanMove(s);
      }
    } else {
      var i :| 0 <= i < |s.queue| && !BlockedByActiveBarrier(s, s.queue[i].cls);
      assert OpenTransport(s, i);
    }
    Progress(s, now);
  }

  // ---------- Aging

  /** While an aged, unblocked, exclusive transport leads the queue, no other lease is grantable. */
  lemma AgedHeadGoesFirst(s: State, t: Ticket, now: nat)
    requires DistinctTickets(s.queue) && s.queue != []
    requires s.queue[0].leaseType == Transport && s.queue[0].scope == Exclusive && Aged(s.queue[0], now)
    requires !BlockedByActiveBarrier(s, s.queue[0].cls)
    requires CanAcquireLease(s, t, now)
    ensures t.id == s.queue[0].id
  {
    if t.leaseType == Transport {
      var k: nat :| IsSelected(s, now, k) && s.queue[k].id == t.id;
      if k > 0 {
        assert !Stops(s, s.queue[0]);
        assert TransportFits(s, s.queue[0]);
        assert EligibleAged(s, now, 0);
        assert false;
      }
    }
  }

  // ---------- What the passing of time alone can change

  /** Queue position i holds an eligible transport that was not aged at time c, is aged at time now, and
      is the first eligible aged one. */
  ghost predicate CameOfAge(s: State, c: nat, now: nat, i: nat) {
    && EligibleAged(s, now, i)
    && !Aged(s.queue[i], c)
    && forall j :: 0 <= j < i ==> !EligibleAged(s, now, j)
  }

  /** With queue and leases unchanged since time c, a ticket refused at time c is grantable now exactly
      when it is the transport that came of age in between. */
  lemma OnlyAgingGrants(s: State, i: nat, c: nat, now: nat)
    requires DistinctTickets(s.queue) && i < |s.queue| && c <= now
    requires !CanAcquire(s, s.queue[i], c)
    ensures CanAcquire(s, s.queue[i], now) <==> s.sessions == [] && s.oneShot == [] && CameOfAge(s, c, now, i)
  {
    var t := s.queue[i];
    if t.leaseType == Transport && CanAcquire(s, t, now) {
      var k: nat :| IsSelected(s, now, k) && s.queue[k].id == t.id;
      assert k == i;
      assert !IsSelected(s, c, i);
      if !CameOfAge(s, c, now, i) {
        assert forall j :: 0 <= j < |s.queue| && EligibleAged(s, c, j) ==> EligibleAged(s, now, j);
        assert false;
      }
    }
    if s.sessions == [] && s.oneShot == [] && CameOfAge(s, c, now, i) {
      assert IsSelected(s, now, i);
      PendingBarrierTestIsImplied(s, t, now, i);
      assert CanAcquireLease(s, t, now);
    }
  }
}
