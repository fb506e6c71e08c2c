/** What holds of every run of the arbiter. */
module ArbiterTheorems {
  import opened Wrappers
  import opened ArbiterSpec
  import opened ArbiterRules
  import opened ArbiterSystem

  // ---------- Safety in every state

  /** No two entries of the queue, the active leases and the active barriers share an id. */
  ghost predicate DistinctIds(a: State) {
    && DistinctTickets(a.queue) && DistinctTickets(a.barriers)
    && (forall lt :: DistinctLeases(Leases(a, lt)))
    && (forall lt, l, t :: l in Leases(a, lt) && (t in a.queue || t in a.barriers) ==> l.ticket.id != t.id)
    && (forall lt, other, l, m :: lt != other && l in Leases(a, lt) && m in Leases(a, other) ==> l.ticket.id != m.ticket.id)
    && (forall t, u :: t in a.queue && u in a.barriers ==> t.id != u.id)
  }

  lemma LinkedIdsAreDistinct(s: Sys)
    requires Linked(s)
    ensures DistinctIds(s.arb)
  {
    forall lt ensures DistinctLeases(Leases(s.arb, lt)) {
      assert LeaseListOk(s, lt);
    }
    forall lt, l, t | l in Leases(s.arb, lt) && (t in s.arb.queue || t in s.arb.barriers) ensures l.ticket.id != t.id {
      assert LeaseListOk(s, lt) && Holds(s, l.ticket);
      assert t in s.arb.queue ==> WaitsFor(s, t);
      assert t in s.arb.barriers ==> Holds(s, t);
    }
    forall lt, other, l, m | lt != other && l in Leases(s.arb, lt) && m in Leases(s.arb, other)
      ensures l.ticket.id != m.ticket.id
    {
      assert LeaseListOk(s, lt) && LeaseListOk(s, other);
      assert Holds(s, l.ticket) && Holds(s, m.ticket);
    }
    forall t, u | t in s.arb.queue && u in s.arb.barriers ensures t.id != u.id {
      assert WaitsFor(s, t) && Holds(s, u);
    }
  }

  /** Mutual exclusion, capacity, barrier isolation, distinct ids and the ticket balance hold in every
      state of every run. */
  lemma EveryStateIsSafe(o: Options, run: seq<Sys>, events: seq<Event>, k: nat)
    requires IsRun(o, run, events) && k < |run|
    ensures Excluded(run[k].arb) && Isolated(run[k].arb) && Counted(run[k].arb) && DistinctIds(run[k].arb)
  {
    RunKeepsInv(o, run, events, k);
    LinkedIdsAreDistinct(run[k]);
  }

  /** The step gave the request of ticket t its lease or barrier. */
  ghost predicate Granted(s: Sys, s': Sys, t: Ticket) {
    Holds(s', t) && !(t.id in s.procs && s.procs[t.id].Holding?)
  }

  /** The board a granting step decides on. */
  ghost function Board(s: Sys, e: Event, t: Ticket): State {
    if e.Submit? then Enqueue(s.arb, t) else s.arb
  }

  lemma GrantMeansChecked(s: Sys, e: Event, s': Sys, t: Ticket)
    requires Inv(s) && IsStep(s, e, s') && Granted(s, s', t)
    ensures e == Submit(t.id) || e == Wake(t.id)
    ensures var a := Board(s, e, t);
            && t in a.queue && DistinctTickets(a.queue)
            && CanAcquire(a, t, s.now) && s'.arb == Grant(a, t, s.now)
  {
    assert forall id :: id in s.procs ==> ProcOk(s, id);
    if e == Submit(t.id) {
      SubmittedIsSound(s, t.id, s.(arb := Enqueue(s.arb, t), procs := s.procs[t.id := Waiting(t, s.arb.generation + 1, s.now)]));
    }
  }

  /** A barrier enters only while no lease is active. */
  lemma BarrierEntersAlone(s: Sys, e: Event, s': Sys, t: Ticket)
    requires Inv(s) && IsStep(s, e, s') && Granted(s, s', t) && t.leaseType == Barrier
    ensures NoActiveLease(s.arb) && NoActiveLease(s'.arb)
  {
    GrantMeansChecked(s, e, s', t);
  }

  /** A barrier enters before every barrier behind it in the queue, and after all those ahead of it. */
  lemma BarriersEnterInQueueOrder(s: Sys, e: Event, s': Sys, t: Ticket, b: Ticket)
    requires Inv(s) && IsStep(s, e, s') && Granted(s, s', t) && t.leaseType == Barrier
    requires b in s'.arb.queue && b.leaseType == Barrier
    ensures TicketIndex(Board(s, e, t).queue, t.id) < TicketIndex(Board(s, e, t).queue, b.id)
  {
    GrantMeansChecked(s, e, s', t);
    FirstBarrierLeads(Board(s, e, t), t, b);
  }

  lemma FirstBarrierLeads(a: State, t: Ticket, b: Ticket)
    requires DistinctTickets(a.queue) && t in a.queue && CanAcquireBarrier(a, t)
    requires b in WithoutTicket(a.queue, t.id) && b.leaseType == Barrier
    ensures TicketIndex(a.queue, t.id) < TicketIndex(a.queue, b.id)
  {
    RemovedTicket(a.queue, t.id);
    var i :| 0 <= i < |a.queue| && a.queue[i] == t;
    var j :| 0 <= j < |a.queue| && a.queue[j] == b;
    BarriersEnterInOrder(a, t, i);
    IndexOfTicket(a.queue, i);
    IndexOfTicket(a.queue, j);
  }

  // ---------- No lease overtakes a queued barrier, session or one-shot

  ghost predicate LeaseGranted(s: Sys, s': Sys) {
    exists t :: Granted(s, s', t) && t.leaseType != Barrier
  }

  ghost function LeaseGrants(run: seq<Sys>, first: nat, last: nat): nat
    requires first <= last < |run|
  {
    if first == last then 0
    else LeaseGrants(run, first, last - 1) + (if LeaseGranted(run[last - 1], run[last]) then 1 else 0)
  }

  lemma RemovalMovesUp(q: seq<Ticket>, id: nat, other: nat)
    requires DistinctTickets(q) && TicketIndex(q, id) < |q| && TicketIndex(q, other) < |q| && id != other
    ensures TicketIndex(WithoutTicket(q, id), other) ==
            TicketIndex(q, other) - if TicketIndex(q, id) < TicketIndex(q, other) then 1 else 0
  {
    var r := WithoutTicket(q, id);
    RemovedTicket(q, id);
    var i, j := TicketIndex(q, id), TicketIndex(q, other);
    IndexOfTicket(r, if i < j then j - 1 else j);
  }

  lemma WaiterIsQueued(s: Sys, id: nat)
    requires Inv(s) && id in s.procs && s.procs[id].Waiting?
    ensures s.procs[id].ticket in s.arb.queue && s.procs[id].ticket.id == id
  {
    assert ProcOk(s, id);
  }

  lemma AttemptChangesQueue(s: Sys, a: State, t: Ticket)
    ensures Attempt(s, a, t).arb.queue == a.queue || Attempt(s, a, t).arb.queue == WithoutTicket(a.queue, t.id)
  {}

  ghost predicate Appended(q: seq<Ticket>, q': seq<Ticket>, t: Ticket) {
    q' == q + [t]
  }

  ghost predicate Removed(q: seq<Ticket>, q': seq<Ticket>, t: Ticket) {
    t in q && q' == WithoutTicket(q, t.id)
  }

  lemma WaiterLeavesQueue(s: Sys, e: Event, s': Sys)
    requires Inv(s) && IsStep(s, e, s') && (e.Wake? || e.Cancel?)
    ensures s'.arb.queue == s.arb.queue || Removed(s.arb.queue, s'.arb.queue, s.procs[e.id].ticket)
  {
    WaiterIsQueued(s, e.id);
    AttemptChangesQueue(s, s.arb, s.procs[e.id].ticket);
  }

  lemma OthersLeaveQueue(s: Sys, e: Event, s': Sys)
    requires IsStep(s, e, s') && !e.Submit? && !e.Wake? && !e.Cancel?
    ensures s'.arb.queue == s.arb.queue
  {}

  /** A step appends one ticket to the queue, removes one, or leaves it alone. */
  lemma QueueAfterStep(s: Sys, e: Event, s': Sys)
    requires Inv(s) && IsStep(s, e, s')
    ensures || s'.arb.queue == s.arb.queue
            || (exists t :: Appended(s.arb.queue, s'.arb.queue, t))
            || (exists t :: Removed(s.arb.queue, s'.arb.queue, t))
  {
    if e.Submit? {
      SubmissionAfterStep(s, e.id, s');
    } else if e.Wake? || e.Cancel? {
      WaiterLeavesQueue(s, e, s');
    } else {
      OthersLeaveQueue(s, e, s');
    }
  }

  lemma SubmissionAfterStep(s: Sys, id: nat, s': Sys)
    requires Inv(s) && IsStep(s, Submit(id), s')
    ensures s'.arb.queue == s.arb.queue || Appended(s.arb.queue, s'.arb.queue, s.procs[id].ticket)
  {
    var t := s.procs[id].ticket;
    assert ProcOk(s, id);
    var q := s.arb.queue + [t];
    SubmittedIsSound(s, id, s.(arb := Enqueue(s.arb, t), procs := s.procs[id := Waiting(t, s.arb.generation + 1, s.now)]));
    IndexOfTicket(q, |s.arb.queue|);
    assert WithoutTicket(q, id) == s.arb.queue;
  }

  lemma QueueStepKeepsOrder(s: Sys, e: Event, s': Sys, b: Ticket)
    requires Inv(s) && IsStep(s, e, s') && b in s.arb.queue && b in s'.arb.queue
    ensures TicketIndex(s'.arb.queue, b.id) <= TicketIndex(s.arb.queue, b.id) < |s.arb.queue|
  {
    QueueAfterStep(s, e, s');
    var q, q' := s.arb.queue, s'.arb.queue;
    var j :| 0 <= j < |q| && q[j] == b;
    IndexOfTicket(q, j);
    if t :| Appended(q, q', t) {
      assert q'[j] == b;
    } else if t :| Removed(q, q', t) {
      RemovedTicket(q, t.id);
      var i :| 0 <= i < |q| && q[i] == t;
      IndexOfTicket(q, i);
      RemovalMovesUp(q, t.id, b.id);
    }
  }

  /** While a ticket other than a transport stays queued it never moves back, and every lease grant moves it
      forward. */
  lemma QueuedTicketAdvances(s: Sys, e: Event, s': Sys, b: Ticket)
    requires Inv(s) && IsStep(s, e, s') && b.leaseType != Transport && b in s.arb.queue && b in s'.arb.queue
    ensures TicketIndex(s'.arb.queue, b.id) + (if LeaseGranted(s, s') then 1 else 0) <= TicketIndex(s.arb.queue, b.id)
  {
    QueueStepKeepsOrder(s, e, s', b);
    if t :| Granted(s, s', t) && t.leaseType != Barrier {
      GrantMovesTicket(s, e, s', t, b);
    }
  }

  lemma GrantedStandsAhead(a: State, t: Ticket, now: nat, b: Ticket)
    requires DistinctTickets(a.queue) && t in a.queue && CanAcquireLease(a, t, now)
    requires b in WithoutTicket(a.queue, t.id) && b.leaseType != Transport
    ensures TicketIndex(a.queue, t.id) < TicketIndex(a.queue, b.id) < |a.queue| && t.id != b.id
  {
    RemovedTicket(a.queue, t.id);
    var i :| 0 <= i < |a.queue| && a.queue[i] == t;
    var j :| 0 <= j < |a.queue| && a.queue[j] == b;
    NoLeaseOvertakesBarrier(a, t, now, i);
    IndexOfTicket(a.queue, i);
    IndexOfTicket(a.queue, j);
  }

  lemma GrantMovesTicket(s: Sys, e: Event, s': Sys, t: Ticket, b: Ticket)
    requires Inv(s) && IsStep(s, e, s') && b.leaseType != Transport && b in s.arb.queue && b in s'.arb.queue
    requires Granted(s, s', t) && t.leaseType != Barrier
    ensures TicketIndex(s'.arb.queue, b.id) + 1 <= TicketIndex(s.arb.queue, b.id)
  {
    GrantMeansChecked(s, e, s', t);
    var a := Board(s, e, t);
    GrantedLease(a, t, s.now);
    GrantedStandsAhead(a, t, s.now, b);
    RemovalMovesUp(a.queue, t.id, b.id);
    var j :| 0 <= j < |s.arb.queue| && s.arb.queue[j] == b;
    assert a.queue[j] == b;
    IndexOfTicket(a.queue, j);
    IndexOfTicket(s.arb.queue, j);
  }

  /** From any state in which a barrier, session or one-shot is queued until it leaves the queue, at most as many
      leases are granted as stood ahead of it: no lease that came later gets in first. */
  lemma {:induction false} NoLeaseOvertakes(o: Options, run: seq<Sys>, events: seq<Event>, b: Ticket, first: nat, last: nat)
    requires IsRun(o, run, events) && first <= last < |run| && b.leaseType != Transport
    requires forall k :: first <= k <= last ==> b in run[k].arb.queue
    ensures LeaseGrants(run, first, last) + TicketIndex(run[last].arb.queue, b.id) <= TicketIndex(run[first].arb.queue, b.id)
  {
    if first != last {
      NoLeaseOvertakes(o, run, events, b, first, last - 1);
      StepOfRun(o, run, events, last - 1, run[last - 1], events[last - 1], run[last]);
      QueuedTicketAdvances(run[last - 1], events[last - 1], run[last], b);
    }
  }

  // ---------- Aging

  ghost predicate AgedAtHead(s: Sys, t: Ticket) {
    && s.arb.queue != [] && s.arb.queue[0] == t
    && t.leaseType == Transport && t.scope == Exclusive && Aged(t, s.now)
  }

  lemma AgedHeadStep(s: Sys, e: Event, s': Sys, t: Ticket)
    requires Inv(s) && IsStep(s, e, s') && AgedAtHead(s, t) && !BlockedByActiveBarrier(s.arb, t.cls)
    ensures forall u :: Granted(s, s', u) && u.leaseType != Barrier ==> u == t
    ensures t in s'.arb.queue ==> AgedAtHead(s', t)
  {
    forall u | Granted(s, s', u) && u.leaseType != Barrier ensures u == t {
      GrantMeansChecked(s, e, s', u);
      AgedHeadGoesFirst(Board(s, e, u), u, s.now);
      assert WaitsFor(s, t) && ProcOk(s, t.id);
    }
    if t in s'.arb.queue {
      IndexOfTicket(s.arb.queue, 0);
      QueueStepKeepsOrder(s, e, s', t);
      StepKeepsInv(s, e, s');
      var j :| 0 <= j < |s'.arb.queue| && s'.arb.queue[j] == t;
      IndexOfTicket(s'.arb.queue, j);
    }
  }

  /** Once an exclusive, non-AKA transport leads the queue and is 500 ms old, it is the only lease that
      can be granted until it has left the queue, as long as no active barrier blocks its class. */
  lemma {:induction false} AgedHeadIsServed(o: Options, run: seq<Sys>, events: seq<Event>, t: Ticket, first: nat, last: nat)
    requires IsRun(o, run, events) && first <= last < |events| && AgedAtHead(run[first], t)
    requires forall k :: first <= k <= last ==> t in run[k].arb.queue && !BlockedByActiveBarrier(run[k].arb, t.cls)
    ensures AgedAtHead(run[last], t)
    ensures t in run[last + 1].arb.queue ==> AgedAtHead(run[last + 1], t)
    ensures forall u :: Granted(run[last], run[last + 1], u) && u.leaseType != Barrier ==> u == t
    decreases last
  {
    if first != last {
      AgedHeadIsServed(o, run, events, t, first, last - 1);
    }
    StepOfRun(o, run, events, last, run[last], events[last], run[last + 1]);
    AgedHeadStep(run[last], events[last], run[last + 1], t);
  }

  // ---------- Lost wake-ups

  /** A sleeper is grantable exactly when it is the transport that came of age since its last check:
      queue and leases never change without waking it. */
  lemma SleepersMissOnlyAging(o: Options, run: seq<Sys>, events: seq<Event>, k: nat, id: nat) returns (i: nat)
    requires IsRun(o, run, events) && k < |run| && Asleep(run[k], id)
    ensures i < |run[k].arb.queue| && run[k].arb.queue[i] == run[k].procs[id].ticket
    ensures CanAcquire(run[k].arb, run[k].procs[id].ticket, run[k].now) <==>
            && run[k].arb.sessions == [] && run[k].arb.oneShot == []
            && CameOfAge(run[k].arb, run[k].procs[id].checkedAt, run[k].now, i)
  {
    RunKeepsInv(o, run, events, k);
    var s := run[k];
    assert ProcOk(s, id);
    i :| 0 <= i < |s.arb.queue| && s.arb.queue[i] == s.procs[id].ticket;
    OnlyAgingGrants(s.arb, i, s.procs[id].checkedAt, s.now);
  }

  /** No waiting ticket crossed the aging limit between its last check and now. */
  ghost predicate VerdictsStand(s: Sys) {
    forall id :: id in s.procs && s.procs[id].Waiting? ==>
      (Aged(s.procs[id].ticket, s.procs[id].checkedAt) <==> Aged(s.procs[id].ticket, s.now))
  }

  lemma NoLostWakeup(o: Options, run: seq<Sys>, events: seq<Event>, k: nat, id: nat)
    requires IsRun(o, run, events) && k < |run| && VerdictsStand(run[k]) && Asleep(run[k], id)
    ensures !CanAcquire(run[k].arb, run[k].procs[id].ticket, run[k].now)
  {
    var i := SleepersMissOnlyAging(o, run, events, k, id);
  }

  /** Whenever some ticket is grantable, some waiter is awake and its next check is granted, unless a ticket came of
      age since its last check. */
  lemma GrantableIsAwake(o: Options, run: seq<Sys>, events: seq<Event>, k: nat) returns (id: nat)
    requires IsRun(o, run, events) && k < |run| && VerdictsStand(run[k]) && SomeGrantable(run[k].arb, run[k].now)
    ensures Enabled(run[k], Wake(id)) && Granted(run[k], Next(run[k], Wake(id)), run[k].procs[id].ticket)
  {
    RunKeepsInv(o, run, events, k);
    var s := run[k];
    var i: nat :| i < |s.arb.queue| && CanAcquire(s.arb, s.arb.queue[i], s.now);
    var t := s.arb.queue[i];
    id := t.id;
    assert t in s.arb.queue;
    assert WaitsFor(s, t) && ProcOk(s, id);
    if Asleep(s, id) {
      NoLostWakeup(o, run, events, k, id);
    }
  }

  /** So the queue never stalls while no lease is active and it can move. */
  lemma NoStall(o: Options, run: seq<Sys>, events: seq<Event>, k: nat) returns (id: nat)
    requires IsRun(o, run, events) && k < |run| && VerdictsStand(run[k])
    requires NoActiveLease(run[k].arb) && CanMove(run[k].arb)
    ensures Enabled(run[k], Wake(id))
    ensures Granted(run[k], Next(run[k], Wake(id)), run[k].procs[id].ticket)
  {
    RunKeepsInv(o, run, events, k);
    Progress(run[k].arb, run[k].now);
    id := GrantableIsAwake(o, run, events, k);
  }

  // ---------- The watchdog

  ghost predicate ExpiresFrom(s: Sys, lt: LeaseType, id: nat, x: nat) {
    forall l :: l in Leases(s.arb, lt) && l.ticket.id == id ==> l.expiresAt >= x
  }

  ghost predicate IsHolding(s: Sys, id: nat) {
    id in s.procs && s.procs[id].Holding?
  }

  lemma SameLease(leases: seq<ActiveLease>, l: ActiveLease)
    requires DistinctLeases(leases) && l in leases
    ensures LeaseIndex(leases, l.ticket.id) < |leases| && leases[LeaseIndex(leases, l.ticket.id)] == l
  {
    var j :| 0 <= j < |leases| && leases[j] == l;
    var i := LeaseIndex(leases, l.ticket.id);
    assert i <= j;
  }

  lemma GrantOrigins(s: Sys, a: State, t: Ticket, lt: LeaseType, l: ActiveLease)
    requires ValidOptions(a.opts) && l in Leases(Grant(a, t, s.now), lt) && l !in Leases(a, lt)
    ensures l.ticket == t && l.expiresAt == s.now + a.opts.maxLeaseHold
  {
    if t.leaseType != Barrier {
      GrantedLease(a, t, s.now);
    }
  }

  /** A lease that is new after a release or a watchdog step stands in for one under the same ticket. */
  lemma ReplacedOrigins(s: Sys, e: Event, s': Sys, lt: LeaseType, l: ActiveLease)
    requires Inv(s) && IsStep(s, e, s') && l in Leases(s'.arb, lt) && l !in Leases(s.arb, lt)
    requires e.Release? || e.Callback? || e.Touch? || e.Fire?
    ensures exists o :: o in Leases(s.arb, lt) && o.ticket == l.ticket && o.expiresAt <= l.expiresAt
  {
    match e {
      case Release(id) =>
        assert LeaseListOk(s, s.procs[id].ticket.leaseType);
        RemovedLease(Leases(s.arb, s.procs[id].ticket.leaseType), id);
      case Callback(k, id) =>
        assert LeaseListOk(s, k) && WatchedList(s, k);
        LeaseChangedAt(s, k, id, s'.arb, lt, l);
      case Touch(id) =>
        assert LeaseListOk(s, s.procs[id].ticket.leaseType) && WatchedList(s, s.procs[id].ticket.leaseType);
        LeaseChangedAt(s, s.procs[id].ticket.leaseType, id, s'.arb, lt, l);
      case Fire(id) =>
        assert LeaseListOk(s, s.procs[id].ticket.leaseType) && WatchedList(s, s.procs[id].ticket.leaseType);
        LeaseChangedAt(s, s.procs[id].ticket.leaseType, id, s'.arb, lt, l);
    }
  }

  lemma GrantedOrigins(s: Sys, e: Event, s': Sys, lt: LeaseType, l: ActiveLease)
    requires Inv(s) && IsStep(s, e, s') && l in Leases(s'.arb, lt) && l !in Leases(s.arb, lt)
    requires e.Submit? || e.Wake?
    ensures !IsHolding(s, l.ticket.id) && l.expiresAt == s.now + s.arb.opts.maxLeaseHold
  {
    match e {
      case Submit(id) =>
        assert ProcOk(s, id);
        GrantOrigins(s, Enqueue(s.arb, s.procs[id].ticket), s.procs[id].ticket, lt, l);
      case Wake(id) =>
        assert ProcOk(s, id);
        GrantOrigins(s, s.arb, s.procs[id].ticket, lt, l);
    }
  }

  /** The leases after a step: carried over, re-armed under the same ticket with an expiry no earlier,
      or granted in this very step. */
  lemma LeaseOrigins(s: Sys, e: Event, s': Sys, lt: LeaseType, l: ActiveLease)
    requires Inv(s) && IsStep(s, e, s') && l in Leases(s'.arb, lt)
    ensures || (exists o :: o in Leases(s.arb, lt) && o.ticket == l.ticket && o.expiresAt <= l.expiresAt)
            || (!IsHolding(s, l.ticket.id) && l.expiresAt == s.now + s.arb.opts.maxLeaseHold)
  {
    if l !in Leases(s.arb, lt) {
      if e.Submit? || e.Wake? {
        GrantedOrigins(s, e, s', lt, l);
      } else if e.Release? || e.Callback? || e.Touch? || e.Fire? {
        ReplacedOrigins(s, e, s', lt, l);
      }
    }
  }

  lemma NewAfterReplacement(leases: seq<ActiveLease>, i: nat, x: ActiveLease, l: ActiveLease)
    requires i < |leases| && l in leases[i := x] && l !in leases
    ensures l == x
  {
    var j :| 0 <= j < |leases| && leases[i := x][j] == l;
    assert forall k :: 0 <= k < |leases| ==> leases[k] in leases;
  }

  /** A lease that is new in its list after a watchdog step replaces the one at the step's id. */
  lemma LeaseChangedAt(s: Sys, k: LeaseType, id: nat, a: State, lt: LeaseType, l: ActiveLease)
    requires LeaseListOk(s, k) && WatchedList(s, k) && l in Leases(a, lt) && l !in Leases(s.arb, lt)
    requires a in {TouchLease(s.arb, k, id, s.now), DisarmLease(s.arb, k, id), ExpireLease(s.arb, k, id, s.now)}
    ensures exists o :: o in Leases(s.arb, lt) && o.ticket == l.ticket && o.expiresAt <= l.expiresAt
  {
    var before := Leases(s.arb, k);
    var i := LeaseIndex(before, id);
    RemovedLease(before, id);
    assert k == lt && i < |before|;
    var o := before[i];
    assert o in before && WatchOk(s, k, o);
    assert Leases(a, lt) != WithoutLease(before, id);
    NewAfterReplacement(before, i, Leases(a, lt)[i], l);
  }

  lemma HoldingStays(s: Sys, e: Event, s': Sys, id: nat)
    requires Inv(s) && IsStep(s, e, s') && IsHolding(s, id)
    ensures IsHolding(s', id)
  {
    assert ProcOk(s, id);
    match e {
      case Submit(i) => assert ProcOk(s, i);
      case Wake(i) => assert ProcOk(s, i);
      case _ =>
    }
  }

  lemma ExpiryStep(s: Sys, e: Event, s': Sys, lt: LeaseType, id: nat, x: nat)
    requires Inv(s) && IsStep(s, e, s') && IsHolding(s, id) && ExpiresFrom(s, lt, id, x)
    ensures ExpiresFrom(s', lt, id, x)
  {
    forall l | l in Leases(s'.arb, lt) && l.ticket.id == id ensures l.expiresAt >= x {
      LeaseOrigins(s, e, s', lt, l);
    }
  }

  ghost predicate SafeUntil(s: Sys, lt: LeaseType, id: nat, x: nat) {
    IsHolding(s, id) && ExpiresFrom(s, lt, id, x)
  }

  /** The step between two consecutive states of a run, with the invariant at its start. */
  lemma StepOfRun(o: Options, run: seq<Sys>, events: seq<Event>, k: nat, s: Sys, e: Event, s': Sys)
    requires IsRun(o, run, events) && k < |events|
    requires s == run[k] && e == events[k] && s' == run[k + 1]
    ensures Inv(s) && IsStep(s, e, s')
  {
    RunKeepsInv(o, run, events, k);
    assert StepAt(run, events, k);
  }

  lemma SafeUntilStep(s: Sys, e: Event, s': Sys, lt: LeaseType, id: nat, x: nat)
    requires Inv(s) && IsStep(s, e, s') && SafeUntil(s, lt, id, x)
    ensures SafeUntil(s', lt, id, x)
  {
    HoldingStays(s, e, s', id);
    ExpiryStep(s, e, s', lt, id, x);
  }

  lemma SafeUntilInRun(o: Options, run: seq<Sys>, events: seq<Event>, k: nat, lt: LeaseType, id: nat, x: nat)
    requires IsRun(o, run, events) && k < |events| && SafeUntil(run[k], lt, id, x)
    ensures SafeUntil(run[k + 1], lt, id, x)
  {
    var s, e, s' := run[k], events[k], run[k + 1];
    StepOfRun(o, run, events, k, s, e, s');
    SafeUntilStep(s, e, s', lt, id, x);
  }

  /** Once an active lease expires no earlier than x, it never expires earlier while it is active. */
  lemma {:induction false} ExpiryOnlyGrows(o: Options, run: seq<Sys>, events: seq<Event>, first: nat, last: nat,
                                           lt: LeaseType, id: nat, x: nat)
    requires IsRun(o, run, events) && first <= last < |run|
    requires SafeUntil(run[first], lt, id, x)
    ensures SafeUntil(run[last], lt, id, x)
  {
    if first != last {
      ExpiryOnlyGrows(o, run, events, first, last - 1, lt, id, x);
      SafeUntilInRun(o, run, events, last - 1, lt, id, x);
    }
  }

  /** The step grants lease id of type lt, or is a Touch that finds it active. */
  ghost predicate Refreshes(s: Sys, e: Event, s': Sys, lt: LeaseType, id: nat) {
    || (exists t :: Granted(s, s', t) && t.id == id && t.leaseType == lt)
    || (e == Touch(id) && IsHolding(s, id) && s.procs[id].ticket.leaseType == lt && Found(s.arb, lt, id))
  }

  lemma RefreshSetsExpiry(s: Sys, e: Event, s': Sys, lt: LeaseType, id: nat)
    requires Inv(s) && IsStep(s, e, s') && lt != Barrier
    requires Refreshes(s, e, s', lt, id)
    ensures IsHolding(s', id) && ExpiresFrom(s', lt, id, s.now + s.arb.opts.maxLeaseHold)
  {
    StepKeepsInv(s, e, s');
    assert LeaseListOk(s, lt) && LeaseListOk(s', lt);
    if t :| Granted(s, s', t) && t.id == id && t.leaseType == lt {
      forall l | l in Leases(s'.arb, lt) && l.ticket.id == id
        ensures l.expiresAt >= s.now + s.arb.opts.maxLeaseHold
      {
        LeaseOrigins(s, e, s', lt, l);
        assert forall k :: k in Leases(s.arb, lt) ==> Holds(s, k.ticket);
      }
    } else {
      var i := LeaseIndex(Leases(s.arb, lt), id);
      var touched := Leases(s'.arb, lt)[i];
      assert touched.expiresAt == s.now + s.arb.opts.maxLeaseHold;
      forall l | l in Leases(s'.arb, lt) && l.ticket.id == id ensures l == touched {
        SameLease(Leases(s'.arb, lt), l);
        SameLease(Leases(s'.arb, lt), touched);
      }
    }
  }

  lemma ClockAndOptionsStep(s: Sys, e: Event, s': Sys)
    requires IsStep(s, e, s')
    ensures s.now <= s'.now && s'.arb.opts == s.arb.opts
  {
    match e
    case Submit(id) => AttemptKeepsOptions(s, Enqueue(s.arb, s.procs[id].ticket), s.procs[id].ticket);
    case Wake(id) => AttemptKeepsOptions(s, s.arb, s.procs[id].ticket);
    case _ =>
  }

  lemma AttemptKeepsOptions(s: Sys, a: State, t: Ticket)
    ensures Attempt(s, a, t).now == s.now && Attempt(s, a, t).arb.opts == a.opts
  {}

  lemma {:induction false} OptionsStay(o: Options, run: seq<Sys>, events: seq<Event>, k: nat)
    requires IsRun(o, run, events) && k < |run|
    ensures run[k].arb.opts == NormalizeOptions(o)
  {
    if k > 0 {
      OptionsStay(o, run, events, k - 1);
      assert StepAt(run, events, k - 1);
      ClockAndOptionsStep(run[k - 1], events[k - 1], run[k]);
    }
  }

  ghost predicate ForcedRelease(s: Sys, e: Event, s': Sys, lt: LeaseType, id: nat) {
    e == Callback(lt, id) && Found(s.arb, lt, id) && !Found(s'.arb, lt, id)
  }

  /** A callback that comes before the expiry leaves the lease active. */
  lemma EarlyCallbackKeeps(a: State, lt: LeaseType, id: nat, now: nat)
    requires Found(a, lt, id)
    ensures Found(ExpireLease(a, lt, id, now), lt, id) || Leases(a, lt)[LeaseIndex(Leases(a, lt), id)].expiresAt <= now
  {
    var i := LeaseIndex(Leases(a, lt), id);
    var l := Leases(a, lt)[i];
    var rearmed := Leases(a, lt)[i := l.(armed := Some(l.expiresAt))];
    assert rearmed[i].ticket.id == id;
    assert Leases(WithLeases(a, lt, rearmed), lt) == rearmed;
  }

  lemma ForcedReleaseIsDue(s: Sys, e: Event, s': Sys, lt: LeaseType, id: nat, x: nat)
    requires IsStep(s, e, s') && ForcedRelease(s, e, s', lt, id) && ExpiresFrom(s, lt, id, x)
    ensures s.now >= x
  {
    EarlyCallbackKeeps(s.arb, lt, id, s.now);
    var leases := Leases(s.arb, lt);
    var l := leases[LeaseIndex(leases, id)];
    assert l in leases && l.ticket.id == id;
    assert l.expiresAt >= x;
  }

  /** The watchdog takes a lease away no earlier than a full hold time after the lease was granted and
      after its last effective Touch, in whatever order timers fire and callbacks run. */
  lemma WatchdogIsPatient(o: Options, run: seq<Sys>, events: seq<Event>, j: nat, k: nat, lt: LeaseType, id: nat)
    requires IsRun(o, run, events) && j < k < |events| && lt != Barrier
    requires Refreshes(run[j], events[j], run[j + 1], lt, id)
    requires ForcedRelease(run[k], events[k], run[k + 1], lt, id)
    ensures run[k].now >= run[j].now + NormalizeOptions(o).maxLeaseHold
  {
    StepOfRun(o, run, events, j, run[j], events[j], run[j + 1]);
    StepOfRun(o, run, events, k, run[k], events[k], run[k + 1]);
    OptionsStay(o, run, events, j);
    var x := run[j].now + run[j].arb.opts.maxLeaseHold;
    RefreshSetsExpiry(run[j], events[j], run[j + 1], lt, id);
    ExpiryOnlyGrows(o, run, events, j + 1, k, lt, id, x);
    ForcedReleaseIsDue(run[k], events[k], run[k + 1], lt, id, x);
  }

  lemma GoneAfterRemoval(leases: seq<ActiveLease>, id: nat)
    requires DistinctLeases(leases)
    ensures LeaseIndex(WithoutLease(leases, id), id) == |WithoutLease(leases, id)|
  {
    RemovedLease(leases, id);
    var rest := WithoutLease(leases, id);
    assert forall i :: 0 <= i < |rest| ==> rest[i] in rest;
  }

  lemma OverdueLease(s: Sys, lt: LeaseType, l: ActiveLease)
    requires LeaseListOk(s, lt) && WatchedList(s, lt) && l in Leases(s.arb, lt) && l.expiresAt <= s.now
    ensures Enabled(s, Fire(l.ticket.id)) || Enabled(s, Callback(lt, l.ticket.id))
    ensures !Found(ExpireLease(s.arb, lt, l.ticket.id, s.now), lt, l.ticket.id)
  {
    assert WatchOk(s, lt, l) && Holds(s, l.ticket);
    SameLease(Leases(s.arb, lt), l);
    GoneAfterRemoval(Leases(s.arb, lt), l.ticket.id);
  }

  /** Once timers and callbacks have caught up with the clock, every lease that is still active has time
      left: an overdue lease always has a due timer or a callback on its way, and that callback ends it. */
  lemma WatchdogIsAlert(o: Options, run: seq<Sys>, events: seq<Event>, k: nat, lt: LeaseType, l: ActiveLease)
    requires IsRun(o, run, events) && k < |run| && l in Leases(run[k].arb, lt) && l.expiresAt <= run[k].now
    ensures Enabled(run[k], Fire(l.ticket.id)) || Enabled(run[k], Callback(lt, l.ticket.id))
    ensures !Found(ExpireLease(run[k].arb, lt, l.ticket.id, run[k].now), lt, l.ticket.id)
  {
    RunKeepsInv(o, run, events, k);
    assert LeaseListOk(run[k], lt) && WatchedList(run[k], lt);
    OverdueLease(run[k], lt, l);
  }

  /** The request an event of a lease's life is about. */
  ghost predicate Concerns(s: Sys, e: Event, id: nat) {
    e == Release(id) || e == Touch(id) || e == Fire(id) || exists lt :: e == Callback(lt, id)
  }

  /** Releasing, touching or timing out one lease leaves every other lease as it was; when the lease is
      already gone, nothing at all changes for the others. */
  lemma OtherLeasesUntouched(s: Sys, e: Event, s': Sys, id: nat, lt: LeaseType, l: ActiveLease)
    requires Inv(s) && IsStep(s, e, s') && Concerns(s, e, id) && l.ticket.id != id
    ensures l in Leases(s.arb, lt) <==> l in Leases(s'.arb, lt)
  {
    if e.Release? {
      ReleaseKeepsOthers(s, e, s', lt, l);
    } else {
      var k := if e.Callback? then e.leaseType else s.procs[id].ticket.leaseType;
      assert LeaseListOk(s, k);
      ChangeIsWatchdogs(s, e, s', id, k);
      ChangeAtKeepsOthers(s, k, id, s'.arb, lt, l);
    }
  }

  lemma ReleaseKeepsOthers(s: Sys, e: Event, s': Sys, lt: LeaseType, l: ActiveLease)
    requires Inv(s) && IsStep(s, e, s') && e.Release? && l.ticket.id != e.id
    ensures l in Leases(s.arb, lt) <==> l in Leases(s'.arb, lt)
  {
    var k := s.procs[e.id].ticket.leaseType;
    assert LeaseListOk(s, k);
    RemovedLease(Leases(s.arb, k), e.id);
  }

  lemma ChangeIsWatchdogs(s: Sys, e: Event, s': Sys, id: nat, k: LeaseType)
    requires IsStep(s, e, s') && Concerns(s, e, id) && !e.Release?
    requires k == if e.Callback? then e.leaseType else s.procs[id].ticket.leaseType
    ensures s'.arb in {TouchLease(s.arb, k, id, s.now), DisarmLease(s.arb, k, id), ExpireLease(s.arb, k, id, s.now)}
  {}

  lemma ReplacedLease(leases: seq<ActiveLease>, i: nat, x: ActiveLease, l: ActiveLease)
    requires i < |leases| && x.ticket == leases[i].ticket && l.ticket.id != x.ticket.id
    ensures l in leases <==> l in leases[i := x]
  {
    if l in leases {
      var j :| 0 <= j < |leases| && leases[j] == l;
      assert leases[i := x][j] == l;
    }
  }

  lemma ChangeAtKeepsOthers(s: Sys, k: LeaseType, id: nat, a: State, lt: LeaseType, l: ActiveLease)
    requires LeaseListOk(s, k) && l.ticket.id != id
    requires a in {TouchLease(s.arb, k, id, s.now), DisarmLease(s.arb, k, id), ExpireLease(s.arb, k, id, s.now)}
    ensures l in Leases(s.arb, lt) <==> l in Leases(a, lt)
  {
    var before := Leases(s.arb, k);
    RemovedLease(before, id);
    var i := LeaseIndex(before, id);
    if i < |before| && a != ReleaseLease(s.arb, k, id).(forcedReleases := s.arb.forcedReleases + 1) {
      ReplacedLease(before, i, Leases(a, k)[i], l);
    }
  }
}
