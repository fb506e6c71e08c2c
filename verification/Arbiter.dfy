/** The arbiter object itself: the code that runs while its mutex is held, proved against ArbiterSpec. */
module ArbiterObject {
  import opened Wrappers
  import opened ArbiterSpec
  import opened ArbiterRules

  class Arbiter {
    const opts: Options
    var queue: seq<Ticket>
    var activeSessions: seq<ActiveLease>
    var activeOneshot: Option<ActiveLease>
    var activeTransports: seq<ActiveLease>
    var activeBarriers: seq<Ticket>
    var generation: nat
    var waitRequests: nat
    var acquires: nat
    var waitTimeouts: nat
    var forcedReleases: nat

    ghost function View(): State
      reads this
    {
      State(opts, queue, activeSessions, if activeOneshot.Some? then [activeOneshot.value] else [],
            activeTransports, activeBarriers, generation, waitRequests, acquires, waitTimeouts, forcedReleases)
    }

    /** Ticket ids count from 1, and no two queued tickets share one. */
    ghost predicate Valid()
      reads this
    {
      ValidOptions(opts) && DistinctTickets(queue) && forall i :: 0 <= i < |queue| ==> queue[i].id > 0
    }

    constructor (o: Options)
      ensures Valid() && View() == New(o)
    {
      opts := NormalizeOptions(o);
      queue, activeSessions, activeOneshot, activeTransports, activeBarriers := [], [], None, [], [];
      generation, waitRequests, acquires, waitTimeouts, forcedReleases := 0, 0, 0, 0, 0;
    }

    // ---------- Queries

    method IsBlockedByActiveBarrier(cls: Class) returns (blocked: bool)
      ensures blocked <==> BlockedByActiveBarrier(View(), cls)
    {
      for i := 0 to |activeBarriers|
        invariant forall b :: 0 <= b < i ==> cls !in activeBarriers[b].blocked
      {
        if cls in activeBarriers[i].blocked {
          return true;
        }
      }
      return false;
    }

    method HasPendingBarrierAhead(t: Ticket) returns (pending: bool)
      ensures pending <==> PendingBarrierAhead(View(), t)
    {
      for i := 0 to |queue|
        invariant forall j :: 0 <= j < i ==> queue[j].id != t.id
        invariant forall j :: 0 <= j < i ==> !(queue[j].leaseType == Barrier && t.cls in queue[j].blocked)
      {
        if queue[i].id == t.id {
          return false;
        }
        if queue[i].leaseType == Barrier && t.cls in queue[i].blocked {
          return true;
        }
      }
      return false;
    }

    method SelectedBarrier() returns (id: nat)
      requires Valid()
      ensures id == 0 ==> forall b: nat :: !IsFirstBarrier(View(), b)
      ensures id != 0 ==> exists b: nat :: IsFirstBarrier(View(), b) && queue[b].id == id
    {
      for i := 0 to |queue|
        invariant forall j :: 0 <= j < i ==> queue[j].leaseType != Barrier
      {
        if queue[i].leaseType == Barrier {
          assert IsFirstBarrier(View(), i);
          return queue[i].id;
        }
      }
      return 0;
    }

    method HasActiveExclusiveTransport() returns (found: bool)
      ensures found <==> HasExclusiveTransport(View())
    {
      for i := 0 to |activeTransports|
        invariant forall j :: 0 <= j < i ==> activeTransports[j].ticket.scope == QMIChannel
      {
        if activeTransports[i].ticket.scope != QMIChannel {
          return true;
        }
      }
      return false;
    }

    method ActiveQMITransportCount() returns (count: nat)
      ensures count == QMICount(View().transports)
    {
      count := 0;
      for i := 0 to |activeTransports|
        invariant count == QMICount(activeTransports[..i])
      {
        assert activeTransports[..i + 1][..i] == activeTransports[..i];
        if activeTransports[i].ticket.scope == QMIChannel {
          count := count + 1;
        }
      }
      assert activeTransports[..|activeTransports|] == activeTransports;
    }

    method HasActiveTransportOnChannel(channel: int) returns (found: bool)
      ensures found <==> ChannelBusy(View(), channel)
    {
      for i := 0 to |activeTransports|
        invariant forall j :: 0 <= j < i ==>
          !(activeTransports[j].ticket.scope == QMIChannel && activeTransports[j].ticket.channel == channel)
      {
        if activeTransports[i].ticket.scope == QMIChannel && activeTransports[i].ticket.channel == channel {
          return true;
        }
      }
      return false;
    }

    method CanAcquireTransportNow(t: Ticket) returns (ok: bool)
      ensures ok <==> TransportFits(View(), t)
    {
      if t.leaseType != Transport {
        return false;
      }
      if t.scope != QMIChannel {
        return |activeTransports| == 0;
      }
      var exclusive := HasActiveExclusiveTransport();
      if exclusive {
        return false;
      }
      var count := ActiveQMITransportCount();
      if count >= opts.maxQMITransports {
        return false;
      }
      var busy := HasActiveTransportOnChannel(t.channel);
      return !busy;
    }

    method TransportWaitGatesQueue(t: Ticket) returns (gates: bool)
      ensures gates <==> Gates(View(), t)
    {
      if t.leaseType != Transport || t.scope != QMIChannel {
        return true;
      }
      var exclusive := HasActiveExclusiveTransport();
      var count := ActiveQMITransportCount();
      return exclusive || count >= opts.maxQMITransports;
    }

    /** What the scan does with one queued ticket: stop, pass over it, or note it as a candidate. */
    method Judge(t: Ticket) returns (verdict: Verdict)
      ensures verdict == Stop <==> Stops(View(), t)
      ensures verdict == Candidate <==> TransportFits(View(), t) && !BlockedByActiveBarrier(View(), t.cls)
    {
      if t.leaseType != Transport {
        return Stop;
      }
      var blocked := IsBlockedByActiveBarrier(t.cls);
      if blocked {
        return Skip;
      }
      var fits := CanAcquireTransportNow(t);
      if !fits {
        var gates := TransportWaitGatesQueue(t);
        return if gates then Stop else Skip;
      }
      return Candidate;
    }

    /** The scan of the queue for the transport to start next; 0 when there is none. */
    method SelectedTransport(now: nat) returns (id: nat)
      requires Valid()
      ensures id == 0 ==> forall i: nat :: !Eligible(View(), i)
      ensures id != 0 ==> exists i: nat :: IsSelected(View(), now, i) && queue[i].id == id
    {
      ghost var s := View();
      var oldestEligible: Option<nat>, oldestAgedNonAKA: Option<nat>, oldestAKA: Option<nat> := None, None, None;
      var i := 0;
      while i < |queue|
        invariant i <= |queue|
        invariant forall j :: 0 <= j < i ==> !Stops(s, queue[j])
        invariant FirstBelow(s, now, AnyTransport, oldestEligible, i)
        invariant FirstBelow(s, now, AgedTransport, oldestAgedNonAKA, i)
        invariant FirstBelow(s, now, AKATransport, oldestAKA, i)
      {
        var ticket := queue[i];
        var verdict := Judge(ticket);
        if verdict == Stop {
          break;
        }
        assert verdict == Candidate <==> Eligible(s, i);
        NextBelow(s, now, AnyTransport, oldestEligible, i);
        NextBelow(s, now, AgedTransport, oldestAgedNonAKA, i);
        NextBelow(s, now, AKATransport, oldestAKA, i);
        if verdict == Candidate {
          if oldestEligible.None? {
            oldestEligible := Some(i);
          }
          if ticket.cls == USIM_AKA {
            if oldestAKA.None? {
              oldestAKA := Some(i);
            }
          } else if oldestAgedNonAKA.None? && now - ticket.enqueued >= TRANSPORT_PRIORITY_AGING {
            oldestAgedNonAKA := Some(i);
          }
        }
        i := i + 1;
      }
      ghost var n := i;
      assert forall k: nat :: k >= n ==> !Eligible(s, k);
      FoundTransport(s, now, oldestEligible, oldestAgedNonAKA, oldestAKA, n);
      if oldestAgedNonAKA.Some? {
        return queue[oldestAgedNonAKA.value].id;
      } else if oldestAKA.Some? {
        return queue[oldestAKA.value].id;
      } else if oldestEligible.Some? {
        return queue[oldestEligible.value].id;
      } else {
        return 0;
      }
    }

    method CanAcquireLeaseLocked(t: Ticket, now: nat) returns (ok: bool)
      requires Valid() && t.id > 0
      ensures ok <==> CanAcquireLease(View(), t, now)
    {
      if t.leaseType == Barrier {
        return false;
      }
      var blocked := IsBlockedByActiveBarrier(t.cls);
      if blocked {
        return false;
      }
      var pending := HasPendingBarrierAhead(t);
      if pending {
        return false;
      }
      match t.leaseType {
        case Session =>
          return |queue| > 0 && queue[0].id == t.id && activeOneshot.None? && |activeTransports| == 0 &&
                 |activeSessions| < opts.maxSessions;
        case OneShot =>
          return |queue| > 0 && queue[0].id == t.id && |activeSessions| == 0 && activeOneshot.None? &&
                 |activeTransports| == 0;
        case _ =>
          if |activeSessions| > 0 || activeOneshot.Some? {
            return false;
          }
          var selected := SelectedTransport(now);
          OneSelection(View(), now);
          return selected == t.id;
      }
    }

    method CanAcquireBarrierLocked(t: Ticket) returns (ok: bool)
      requires Valid() && t.id > 0
      ensures ok <==> CanAcquireBarrier(View(), t)
    {
      if t.leaseType != Barrier {
        return false;
      }
      if |activeTransports| > 0 || |activeSessions| > 0 || activeOneshot.Some? {
        return false;
      }
      var selected := SelectedBarrier();
      return selected == t.id;
    }

    // ---------- Updates

    method Signal()
      modifies this`generation
      ensures generation == old(generation) + 1
    {
      generation := generation + 1;
    }

    method RemoveTicket(id: nat) returns (removed: bool)
      modifies this`queue
      ensures removed <==> TicketIndex(old(queue), id) < |old(queue)|
      ensures queue == WithoutTicket(old(queue), id)
    {
      for i := 0 to |queue|
        invariant queue == old(queue)
        invariant forall j :: 0 <= j < i ==> queue[j].id != id
      {
        if queue[i].id == id {
          assert TicketIndex(queue, id) == i;
          queue := queue[..i] + queue[i + 1..];
          return true;
        }
      }
      return false;
    }

    method FindLease(leases: seq<ActiveLease>, id: nat) returns (i: nat)
      ensures i == LeaseIndex(leases, id)
    {
      i := 0;
      while i < |leases| && leases[i].ticket.id != id
        invariant i <= |leases|
        invariant forall j :: 0 <= j < i ==> leases[j].ticket.id != id
      {
        i := i + 1;
      }
    }

    method AddActive(l: ActiveLease)
      requires l.ticket.leaseType == OneShot ==> activeOneshot.None?
      modifies this`activeSessions, this`activeOneshot, this`activeTransports
      ensures View() == WithLeases(old(View()), l.ticket.leaseType, Leases(old(View()), l.ticket.leaseType) + [l])
    {
      match l.ticket.leaseType
      case Session => activeSessions := activeSessions + [l];
      case OneShot => activeOneshot := Some(l);
      case Transport => activeTransports := activeTransports + [l];
      case Barrier =>
    }

    method DropLease(leases: seq<ActiveLease>, id: nat) returns (removed: bool, rest: seq<ActiveLease>)
      ensures removed <==> LeaseIndex(leases, id) < |leases|
      ensures rest == if removed then WithoutLease(leases, id) else leases
    {
      var i := FindLease(leases, id);
      removed := i < |leases|;
      rest := if removed then leases[..i] + leases[i + 1..] else leases;
    }

    /** Take lease id of type lt out of its list, if it is there. */
    method RemoveActive(lt: LeaseType, id: nat) returns (removed: bool)
      modifies this`activeSessions, this`activeOneshot, this`activeTransports
      ensures removed <==> LeaseIndex(Leases(old(View()), lt), id) < |Leases(old(View()), lt)|
      ensures View() == if removed then WithLeases(old(View()), lt, WithoutLease(Leases(old(View()), lt), id)) else old(View())
    {
      match lt {
        case Session =>
          removed, activeSessions := DropLease(activeSessions, id);
        case OneShot =>
          removed := activeOneshot.Some? && activeOneshot.value.ticket.id == id;
          if removed {
            assert LeaseIndex([activeOneshot.value], id) == 0;
            activeOneshot := None;
          }
        case Transport =>
          removed, activeTransports := DropLease(activeTransports, id);
        case Barrier =>
          removed := false;
      }
    }

    /** Move the ticket from the queue to its active list, start its watchdog and signal. */
    method GrantTo(t: Ticket, now: nat)
      requires Valid() && (t.leaseType == OneShot ==> activeOneshot.None?)
      modifies this
      ensures Valid() && View() == Grant(old(View()), t, now)
    {
      RemovalKeepsTickets(queue, t.id);
      var _ := RemoveTicket(t.id);
      if t.leaseType == Barrier {
        activeBarriers := activeBarriers + [t];
      } else {
        AddActive(NewLease(opts, t, now));
      }
      acquires := acquires + 1;
      Signal();
    }

    /** The critical section of a request that holds the mutex: check, and take the grant if allowed. */
    method Recheck(t: Ticket, now: nat) returns (granted: bool)
      requires Valid() && t.id > 0
      modifies this
      ensures Valid()
      ensures granted <==> CanAcquire(old(View()), t, now)
      ensures View() == if granted then Grant(old(View()), t, now) else old(View())
    {
      if t.leaseType == Barrier {
        granted := CanAcquireBarrierLocked(t);
      } else {
        granted := CanAcquireLeaseLocked(t, now);
      }
      if granted {
        GrantTo(t, now);
      }
    }

    method EnqueueTicket(t: Ticket)
      requires Valid() && t.id > 0 && forall i :: 0 <= i < |queue| ==> queue[i].id != t.id
      modifies this
      ensures Valid() && View() == Enqueue(old(View()), t)
    {
      queue := queue + [t];
      waitRequests := waitRequests + 1;
      Signal();
    }

    /** The first critical section of a request: enqueue, signal and check at once. */
    method Submit(t: Ticket, now: nat) returns (granted: bool)
      requires Valid() && t.id > 0 && forall i :: 0 <= i < |queue| ==> queue[i].id != t.id
      modifies this
      ensures Valid()
      ensures granted <==> CanAcquire(Enqueue(old(View()), t), t, now)
      ensures View() == if granted then Grant(Enqueue(old(View()), t), t, now) else Enqueue(old(View()), t)
    {
      EnqueueTicket(t);
      granted := Recheck(t, now);
    }

    /** A waiting request whose context ended leaves the queue. */
    method Cancel(id: nat)
      requires Valid()
      modifies this
      ensures Valid() && View() == CancelTicket(old(View()), id)
    {
      RemovalKeepsTickets(queue, id);
      var removed := RemoveTicket(id);
      if removed {
        waitTimeouts := waitTimeouts + 1;
        Signal();
      }
    }

    method Release(lt: LeaseType, id: nat)
      requires Valid()
      modifies this
      ensures Valid() && View() == ReleaseLease(old(View()), lt, id)
    {
      var released := RemoveActive(lt, id);
      if released {
        Signal();
      }
    }

    method LeaveBarrier(id: nat)
      requires Valid()
      modifies this
      ensures Valid() && View() == ReleaseBarrier(old(View()), id)
    {
      for i := 0 to |activeBarriers|
        invariant View() == old(View())
        invariant forall j :: 0 <= j < i ==> activeBarriers[j].id != id
      {
        if activeBarriers[i].id == id {
          assert TicketIndex(activeBarriers, id) == i;
          activeBarriers := activeBarriers[..i] + activeBarriers[i + 1..];
          Signal();
          return;
        }
      }
    }

    /** Overwrite the lease at position i of its list. */
    method StoreLease(lt: LeaseType, i: nat, l: ActiveLease)
      requires i < |Leases(View(), lt)|
      modifies this`activeSessions, this`activeOneshot, this`activeTransports
      ensures View() == SetLease(old(View()), lt, i, l)
    {
      match lt
      case Session => activeSessions := activeSessions[i := l];
      case OneShot => activeOneshot := Some(l);
      case Transport => activeTransports := activeTransports[i := l];
      case Barrier =>
    }

    /** The list of active leases of one type. */
    method ActiveList(lt: LeaseType) returns (leases: seq<ActiveLease>)
      ensures leases == Leases(View(), lt)
    {
      match lt
      case Session => return activeSessions;
      case OneShot => return if activeOneshot.Some? then [activeOneshot.value] else [];
      case Transport => return activeTransports;
      case Barrier => return [];
    }

    method Touch(lt: LeaseType, id: nat, now: nat) returns (active: bool)
      requires Valid()
      modifies this
      ensures Valid() && View() == TouchLease(old(View()), lt, id, now)
      ensures active <==> Found(old(View()), lt, id)
    {
      var leases := ActiveList(lt);
      var i := FindLease(leases, id);
      active := i < |leases|;
      if active {
        var expires := now + opts.maxLeaseHold;
        StoreLease(lt, i, leases[i].(expiresAt := expires, armed := Some(expires)));
      }
    }

    method ReleaseExpired(lt: LeaseType, id: nat, now: nat)
      requires Valid()
      modifies this
      ensures Valid() && View() == ExpireLease(old(View()), lt, id, now)
    {
      var leases := ActiveList(lt);
      var i := FindLease(leases, id);
      if i >= |leases| {
        return;
      }
      if leases[i].expiresAt > now {
        StoreLease(lt, i, leases[i].(armed := Some(leases[i].expiresAt)));
        return;
      }
      var _ := RemoveActive(lt, id);
      forcedReleases := forcedReleases + 1;
      Signal();
    }
  }

  datatype Verdict = Stop | Skip | Candidate

  datatype Kind = AnyTransport | AgedTransport | AKATransport

  ghost predicate Qualifies(s: State, now: nat, kind: Kind, i: nat) {
    match kind
    case AnyTransport => Eligible(s, i)
    case AgedTransport => EligibleAged(s, now, i)
    case AKATransport => EligibleAKA(s, i)
  }

  /** The candidate is the first position below n that qualifies, or there is none. */
  ghost predicate FirstBelow(s: State, now: nat, kind: Kind, candidate: Option<nat>, n: nat) {
    match candidate
    case None => forall j: nat :: j < n ==> !Qualifies(s, now, kind, j)
    case Some(k) => k < n && Qualifies(s, now, kind, k) && forall j: nat :: j < k ==> !Qualifies(s, now, kind, j)
  }

  /** The candidate after one more position. */
  lemma NextBelow(s: State, now: nat, kind: Kind, candidate: Option<nat>, n: nat)
    requires FirstBelow(s, now, kind, candidate, n)
    ensures FirstBelow(s, now, kind, if candidate.None? && Qualifies(s, now, kind, n) then Some(n) else candidate, n + 1)
  {}

  lemma FoundTransport(s: State, now: nat, eligible: Option<nat>, aged: Option<nat>, aka: Option<nat>, n: nat)
    requires FirstBelow(s, now, AnyTransport, eligible, n)
    requires FirstBelow(s, now, AgedTransport, aged, n)
    requires FirstBelow(s, now, AKATransport, aka, n)
    requires forall k: nat :: k >= n ==> !Eligible(s, k)
    ensures aged.Some? ==> IsSelected(s, now, aged.value)
    ensures aged.None? && aka.Some? ==> IsSelected(s, now, aka.value)
    ensures aged.None? && aka.None? && eligible.Some? ==> IsSelected(s, now, eligible.value)
    ensures eligible.None? ==> aged.None? && aka.None? && forall k: nat :: !Eligible(s, k)
  {
    assert forall k: nat :: Qualifies(s, now, AnyTransport, k) <==> Eligible(s, k);
    assert forall k: nat :: Qualifies(s, now, AgedTransport, k) <==> EligibleAged(s, now, k);
    assert forall k: nat :: Qualifies(s, now, AKATransport, k) <==> EligibleAKA(s, k);
  }

  lemma OneSelection(s: State, now: nat)
    ensures forall i: nat, j: nat :: IsSelected(s, now, i) && IsSelected(s, now, j) ==> i == j
  {
    forall i: nat, j: nat | IsSelected(s, now, i) && IsSelected(s, now, j) ensures i == j {
      SelectedIsUnique(s, now, i, j);
    }
  }

  lemma RemovalKeepsTickets(q: seq<Ticket>, id: nat)
    requires DistinctTickets(q) && forall i :: 0 <= i < |q| ==> q[i].id > 0
    ensures DistinctTickets(WithoutTicket(q, id))
    ensures forall i :: 0 <= i < |WithoutTicket(q, id)| ==> WithoutTicket(q, id)[i].id > 0
  {
  }
}
