/** All interleavings of the goroutines that share one arbiter. A step is one critical section of the
    mutex, one timer event, or the passing of time. A request is named by its ticket id. */
module ArbiterSystem {
  import opened Wrappers
  import opened ArbiterSpec
  import opened ArbiterRules

  /** Where one request stands. A request takes its id and enqueue time before it locks the mutex
      (Prepared). Waiting remembers the broadcast generation it sleeps on and the time of its last
      refused check; Holding means a lease or barrier handle was returned. */
  datatype Proc =
    | Prepared(ticket: Ticket)
    | Waiting(ticket: Ticket, heard: nat, checkedAt: nat)
    | Holding(ticket: Ticket)
    | Done(ticket: Ticket)

  datatype Sys = Sys(arb: State, seqNo: nat, now: nat, procs: map<nat, Proc>, callbacks: multiset<(LeaseType, nat)>)

  datatype Event =
    | Prepare(ticket: Ticket)
    | Submit(id: nat)
    | Wake(id: nat)
    | Cancel(id: nat)
    | Release(id: nat)
    | Touch(id: nat)
    | Fire(id: nat)
    | Callback(leaseType: LeaseType, id: nat)
    | Tick(d: nat)

  function Init(o: Options): Sys {
    Sys(New(o), 0, 0, map[], multiset{})
  }

  /** Check the ticket inside the critical section: take the grant, or sleep on the current channel. */
  ghost function Attempt(s: Sys, a: State, t: Ticket): Sys {
    if CanAcquire(a, t, s.now)
    then s.(arb := Grant(a, t, s.now), procs := s.procs[t.id := Holding(t)])
    else s.(arb := a, procs := s.procs[t.id := Waiting(t, a.generation, s.now)])
  }

  ghost predicate Enabled(s: Sys, e: Event) {
    match e
    case Prepare(t) => t.id == s.seqNo + 1 && t.enqueued == s.now && WellFormedTicket(t)
    case Submit(id) => id in s.procs && s.procs[id].Prepared?
    case Wake(id) => id in s.procs && s.procs[id].Waiting? && s.procs[id].heard < s.arb.generation
    case Cancel(id) => id in s.procs && s.procs[id].Waiting?
    case Release(id) => id in s.procs && s.procs[id].Holding?
    case Touch(id) => id in s.procs && s.procs[id].Holding? && s.procs[id].ticket.leaseType != Barrier
    case Fire(id) => id in s.procs && s.procs[id].Holding? && TimerDue(s, s.procs[id].ticket.leaseType, id)
    case Callback(lt, id) => (lt, id) in s.callbacks
    case Tick(d) => true
  }

  ghost predicate TimerDue(s: Sys, lt: LeaseType, id: nat) {
    var i := LeaseIndex(Leases(s.arb, lt), id);
    i < |Leases(s.arb, lt)| && Leases(s.arb, lt)[i].armed.Some? && Leases(s.arb, lt)[i].armed.value <= s.now
  }

  ghost function Next(s: Sys, e: Event): Sys
    requires Enabled(s, e)
  {
    match e
    case Prepare(t) => s.(seqNo := s.seqNo + 1, procs := s.procs[t.id := Prepared(t)])
    case Submit(id) => Attempt(s, Enqueue(s.arb, s.procs[id].ticket), s.procs[id].ticket)
    case Wake(id) => Attempt(s, s.arb, s.procs[id].ticket)
    case Cancel(id) => s.(arb := CancelTicket(s.arb, id), procs := s.procs[id := Done(s.procs[id].ticket)])
    case Release(id) =>
      var t := s.procs[id].ticket;
      s.(arb := if t.leaseType == Barrier then ReleaseBarrier(s.arb, id) else ReleaseLease(s.arb, t.leaseType, id))
    case Touch(id) => s.(arb := TouchLease(s.arb, s.procs[id].ticket.leaseType, id, s.now))
    case Fire(id) =>
      var lt := s.procs[id].ticket.leaseType;
      s.(arb := DisarmLease(s.arb, lt, id), callbacks := s.callbacks + multiset{(lt, id)})
    case Callback(lt, id) =>
      s.(arb := ExpireLease(s.arb, lt, id, s.now), callbacks := s.callbacks - multiset{(lt, id)})
    case Tick(d) => s.(now := s.now + d)
  }

  /** `run` lists the states and `events` the steps between them. */
  ghost predicate IsRun(o: Options, run: seq<Sys>, events: seq<Event>) {
    && |run| == |events| + 1
    && run[0] == Init(o)
    && forall k :: 0 <= k < |events| ==> StepAt(run, events, k)
  }

  ghost predicate StepAt(run: seq<Sys>, events: seq<Event>, k: nat)
    requires k < |events| < |run|
  {
    IsStep(run[k], events[k], run[k + 1])
  }

  ghost predicate IsStep(s: Sys, e: Event, s': Sys) {
    Enabled(s, e) && s' == Next(s, e)
  }

  // ---------- The invariant

  ghost predicate DistinctLeases(leases: seq<ActiveLease>) {
    forall i, j :: 0 <= i < j < |leases| ==> leases[i].ticket.id != leases[j].ticket.id
  }

  ghost predicate ProcOk(s: Sys, id: nat)
    requires id in s.procs
  {
    var p := s.procs[id];
    && p.ticket.id == id && 1 <= id <= s.seqNo
    && WellFormedTicket(p.ticket) && p.ticket.enqueued <= s.now
    && (p.Waiting? ==> p.ticket in s.arb.queue && p.heard <= s.arb.generation && p.checkedAt <= s.now)
  }

  ghost predicate WaitsFor(s: Sys, t: Ticket) {
    t.id in s.procs && s.procs[t.id].Waiting? && s.procs[t.id].ticket == t
  }

  ghost predicate Holds(s: Sys, t: Ticket) {
    t.id in s.procs && s.procs[t.id] == Holding(t)
  }

  ghost predicate ProcsOk(s: Sys) {
    forall id :: id in s.procs ==> ProcOk(s, id)
  }

  ghost predicate QueueOk(s: Sys) {
    && DistinctTickets(s.arb.queue)
    && (forall t :: t in s.arb.queue ==> WaitsFor(s, t))
  }

  ghost predicate LeaseListOk(s: Sys, lt: LeaseType) {
    && DistinctLeases(Leases(s.arb, lt))
    && (forall l :: l in Leases(s.arb, lt) ==> Holds(s, l.ticket) && l.ticket.leaseType == lt)
  }

  ghost predicate BarriersOk(s: Sys) {
    && DistinctTickets(s.arb.barriers)
    && (forall t :: t in s.arb.barriers ==> Holds(s, t) && t.leaseType == Barrier)
  }

  /** Queue entries and waiters correspond one to one; every active entry has its own holder. */
  ghost predicate Linked(s: Sys) {
    && ValidOptions(s.arb.opts)
    && ProcsOk(s)
    && QueueOk(s)
    && (forall lt :: LeaseListOk(s, lt))
    && BarriersOk(s)
  }

  /** Sessions, the one-shot and transports exclude each other; an exclusive transport is alone; channel
      transports use distinct positive channels; the capacities are respected. */
  ghost predicate Excluded(a: State) {
    && (a.sessions != [] ==> a.oneShot == [] && a.transports == [])
    && (a.oneShot != [] ==> a.transports == [])
    && |a.sessions| <= a.opts.maxSessions
    && |a.oneShot| <= 1
    && |a.transports| <= a.opts.maxQMITransports
    && (forall l :: l in a.transports ==>
          if l.ticket.scope == QMIChannel then l.ticket.channel > 0 else |a.transports| == 1)
    && (forall i, j :: 0 <= i < j < |a.transports| ==> a.transports[i].ticket.channel != a.transports[j].ticket.channel)
  }

  /** No active lease has a class that an active barrier blocks. */
  ghost predicate Isolated(a: State) {
    forall lt, l, b :: l in Leases(a, lt) && b in a.barriers ==> l.ticket.cls !in b.blocked
  }

  ghost predicate Counted(a: State) {
    a.waitRequests == a.acquires + a.waitTimeouts + |a.queue|
  }

  /** Every active lease has a timer running to its expiry, or a callback on its way. */
  ghost predicate WatchOk(s: Sys, lt: LeaseType, l: ActiveLease) {
    && l.acquiredAt <= s.now
    && l.expiresAt <= s.now + s.arb.opts.maxLeaseHold
    && match l.armed
       case Some(deadline) => deadline == l.expiresAt
       case None => (lt, l.ticket.id) in s.callbacks
  }

  ghost predicate WatchedList(s: Sys, lt: LeaseType) {
    forall l :: l in Leases(s.arb, lt) ==> WatchOk(s, lt, l)
  }

  ghost predicate Watched(s: Sys) {
    forall lt :: WatchedList(s, lt)
  }

  ghost predicate Asleep(s: Sys, id: nat) {
    id in s.procs && s.procs[id].Waiting? && s.procs[id].heard == s.arb.generation
  }

  /** A sleeper's last check, repeated on the present queue and leases, still refuses. */
  ghost predicate Refused(s: Sys) {
    forall id :: Asleep(s, id) ==> !CanAcquire(s.arb, s.procs[id].ticket, s.procs[id].checkedAt)
  }

  ghost predicate Inv(s: Sys) {
    Linked(s) && Excluded(s.arb) && Isolated(s.arb) && Counted(s.arb) && Watched(s) && Refused(s)
  }

  // ---------- Removing one entry

  lemma RemovedTicket(q: seq<Ticket>, id: nat)
    requires DistinctTickets(q)
    ensures DistinctTickets(WithoutTicket(q, id))
    ensures forall t :: t in WithoutTicket(q, id) <==> t in q && t.id != id
    ensures |WithoutTicket(q, id)| == if exists i :: 0 <= i < |q| && q[i].id == id then |q| - 1 else |q|
  {
    var i := TicketIndex(q, id);
    var r := WithoutTicket(q, id);
    forall t | t in q && t.id != id ensures t in r {
      var k :| 0 <= k < |q| && q[k] == t;
      if i < |q| { assert r[if k < i then k else k - 1] == t; }
    }
  }

  lemma RemovedLease(leases: seq<ActiveLease>, id: nat)
    requires DistinctLeases(leases)
    ensures DistinctLeases(WithoutLease(leases, id))
    ensures forall l :: l in WithoutLease(leases, id) ==> l in leases && l.ticket.id != id
    ensures forall l :: l in leases && l.ticket.id != id ==> l in WithoutLease(leases, id)
    ensures |WithoutLease(leases, id)| <= |leases|
  {
    var i := LeaseIndex(leases, id);
    var r := WithoutLease(leases, id);
    forall l | l in leases && l.ticket.id != id ensures l in r {
      var k :| 0 <= k < |leases| && leases[k] == l;
      if i < |leases| { assert r[if k < i then k else k - 1] == l; }
    }
  }

  // ---------- Every step keeps the invariant

  /** All of the invariant that does not speak of sleepers. */
  ghost predicate Sound(s: Sys) {
    Linked(s) && Excluded(s.arb) && Isolated(s.arb) && Counted(s.arb) && Watched(s)
  }

  /** What a grant changes: one list grows by the new lease, the queue loses the ticket. */
  lemma GrantedLease(a: State, t: Ticket, now: nat)
    requires ValidOptions(a.opts) && t.leaseType != Barrier
    ensures var g := GrantLease(a, t, now);
            && g.queue == WithoutTicket(a.queue, t.id) && g.barriers == a.barriers && g.opts == a.opts
            && g.generation == a.generation + 1 && g.acquires == a.acquires + 1
            && g.waitRequests == a.waitRequests && g.waitTimeouts == a.waitTimeouts
            && forall lt :: Leases(g, lt) == if lt == t.leaseType then Leases(a, lt) + [NewLease(a.opts, t, now)] else Leases(a, lt)
  {
  }

  lemma GrantLeaseKeepsExclusion(s: Sys, t: Ticket)
    requires Sound(s) && t in s.arb.queue && CanAcquireLease(s.arb, t, s.now)
    ensures Excluded(GrantLease(s.arb, t, s.now))
  {
    assert WaitsFor(s, t);
    assert ProcOk(s, t.id);
    if t.leaseType == Transport {
      var k :| 0 <= k < |s.arb.queue| && s.arb.queue[k] == t;
      var i: nat :| IsSelected(s.arb, s.now, i) && s.arb.queue[i].id == t.id;
      assert i == k;
      assert TransportFits(s.arb, t);
      forall j | 0 <= j < |s.arb.transports| ensures s.arb.transports[j].ticket.channel != t.channel {
        assert s.arb.transports[j] in s.arb.transports;
      }
    }
  }

  lemma GrantLeaseKeepsIsolation(s: Sys, t: Ticket)
    requires Sound(s) && t.leaseType != Barrier && !BlockedByActiveBarrier(s.arb, t.cls)
    ensures Isolated(GrantLease(s.arb, t, s.now))
  {
    var a := GrantLease(s.arb, t, s.now);
    GrantedLease(s.arb, t, s.now);
    forall lt, l, b | l in Leases(a, lt) && b in a.barriers ensures l.ticket.cls !in b.blocked {
      if l !in Leases(s.arb, lt) {
        assert l == NewLease(s.arb.opts, t, s.now);
      }
    }
  }

  lemma AppendedLease(leases: seq<ActiveLease>, x: ActiveLease)
    requires DistinctLeases(leases) && forall l :: l in leases ==> l.ticket.id != x.ticket.id
    ensures DistinctLeases(leases + [x])
    ensures forall l :: l in leases + [x] <==> l in leases || l == x
  {
    assert forall i :: 0 <= i < |leases| ==> leases[i] in leases;
  }

  lemma GrantLeaseKeepsLists(s: Sys, t: Ticket, n: Sys, lt: LeaseType)
    requires ValidOptions(s.arb.opts) && WaitsFor(s, t) && t.leaseType != Barrier
    requires n == s.(arb := GrantLease(s.arb, t, s.now), procs := s.procs[t.id := Holding(t)])
    requires LeaseListOk(s, lt) && WatchedList(s, lt)
    ensures LeaseListOk(n, lt) && WatchedList(n, lt)
  {
    GrantedLease(s.arb, t, s.now);
    var x := NewLease(s.arb.opts, t, s.now);
    forall l | l in Leases(s.arb, lt) ensures l.ticket.id != t.id && Holds(n, l.ticket) && WatchOk(n, lt, l) {
      assert Holds(s, l.ticket) && WatchOk(s, lt, l);
    }
    AppendedLease(Leases(s.arb, lt), x);
  }

  /** The queue and the processes after ticket t left the queue with a new process state. */
  lemma LeftQueue(s: Sys, t: Ticket, n: Sys)
    requires ProcsOk(s) && QueueOk(s) && t in s.arb.queue
    requires n.arb.queue == WithoutTicket(s.arb.queue, t.id) && n.arb.generation >= s.arb.generation
    requires n.procs == s.procs[t.id := Holding(t)] || n.procs == s.procs[t.id := Done(t)]
    requires n.seqNo == s.seqNo && n.now == s.now
    ensures ProcsOk(n) && QueueOk(n) && |n.arb.queue| == |s.arb.queue| - 1
  {
    RemovedTicket(s.arb.queue, t.id);
    assert WaitsFor(s, t) && ProcOk(s, t.id);
    var k :| 0 <= k < |s.arb.queue| && s.arb.queue[k] == t;
    assert s.arb.queue[k].id == t.id;
    forall id | id in n.procs ensures ProcOk(n, id) {
      assert ProcOk(s, id);
    }
    forall u | u in n.arb.queue ensures WaitsFor(n, u) {
      assert WaitsFor(s, u);
    }
  }

  lemma GrantLeaseKeepsLinks(s: Sys, t: Ticket, n: Sys)
    requires Sound(s) && t in s.arb.queue && t.leaseType != Barrier
    requires n == s.(arb := GrantLease(s.arb, t, s.now), procs := s.procs[t.id := Holding(t)])
    ensures Linked(n) && Watched(n) && Counted(n.arb)
  {
    GrantedLease(s.arb, t, s.now);
    assert WaitsFor(s, t);
    LeftQueue(s, t, n);
    forall lt ensures LeaseListOk(n, lt) && WatchedList(n, lt) {
      assert LeaseListOk(s, lt) && WatchedList(s, lt);
      GrantLeaseKeepsLists(s, t, n, lt);
    }
    forall u | u in n.arb.barriers ensures Holds(n, u) {
      assert Holds(s, u);
    }
  }

  lemma GrantBarrierKeeps(s: Sys, t: Ticket, n: Sys)
    requires Sound(s) && t in s.arb.queue && CanAcquireBarrier(s.arb, t)
    requires n == s.(arb := GrantBarrier(s.arb, t), procs := s.procs[t.id := Holding(t)])
    ensures Sound(n)
  {
    assert WaitsFor(s, t);
    LeftQueue(s, t, n);
    forall u | u in s.arb.barriers ensures u.id != t.id && Holds(n, u) {
      assert Holds(s, u);
    }
    assert forall i :: 0 <= i < |s.arb.barriers| ==> s.arb.barriers[i] in s.arb.barriers;
    assert forall lt :: Leases(n.arb, lt) == [];
    assert forall lt :: LeaseListOk(n, lt) && WatchedList(n, lt);
  }

  /** The checking part of a critical section, from the state in which the ticket already sleeps. */
  lemma AttemptKeeps(s: Sys, t: Ticket)
    requires Sound(s) && t in s.arb.queue && s.procs[t.id] == Waiting(t, s.arb.generation, s.now)
    requires forall id :: Asleep(s, id) && id != t.id ==> !CanAcquire(s.arb, s.procs[id].ticket, s.procs[id].checkedAt)
    ensures Inv(Attempt(s, s.arb, t))
  {
    var n := Attempt(s, s.arb, t);
    if CanAcquire(s.arb, t, s.now) {
      if t.leaseType == Barrier {
        GrantBarrierKeeps(s, t, n);
      } else {
        GrantLeaseKeepsExclusion(s, t);
        GrantLeaseKeepsIsolation(s, t);
        GrantLeaseKeepsLinks(s, t, n);
      }
      assert forall id :: id in s.procs ==> ProcOk(s, id);
      assert forall id :: !Asleep(n, id);
    } else {
      assert n == s;
    }
  }

  lemma SubmittedQueue(s: Sys, id: nat, m: Sys)
    requires QueueOk(s) && id in s.procs && s.procs[id].Prepared? && s.procs[id].ticket.id == id
    requires m.arb.queue == s.arb.queue + [s.procs[id].ticket]
    requires m.procs == s.procs[id := Waiting(s.procs[id].ticket, s.arb.generation + 1, s.now)]
    ensures QueueOk(m)
  {
    forall u | u in s.arb.queue ensures u.id != id && WaitsFor(m, u) {
      assert WaitsFor(s, u);
    }
    assert forall i :: 0 <= i < |s.arb.queue| ==> s.arb.queue[i] in s.arb.queue;
  }

  /** A submitted ticket that already sleeps: the state between enqueueing and the first check. */
  lemma SubmittedIsSound(s: Sys, id: nat, m: Sys)
    requires Inv(s) && Enabled(s, Submit(id))
    requires m == s.(arb := Enqueue(s.arb, s.procs[id].ticket),
                     procs := s.procs[id := Waiting(s.procs[id].ticket, s.arb.generation + 1, s.now)])
    ensures Sound(m)
  {
    assert ProcOk(s, id);
    SubmittedQueue(s, id, m);
    forall k | k in m.procs ensures ProcOk(m, k) {
      assert ProcOk(s, k);
    }
    assert forall lt :: Leases(m.arb, lt) == Leases(s.arb, lt);
    LeasesStay(s, m);
  }

  /** An attempt does not depend on what the ticket's own process state was. */
  lemma AttemptFromSleep(s: Sys, m: Sys, a: State, t: Ticket)
    requires m == s.(arb := a, procs := s.procs[t.id := Waiting(t, a.generation, s.now)])
    ensures Attempt(m, a, t) == Attempt(s, a, t)
  {
    assert m.procs[t.id := Holding(t)] == s.procs[t.id := Holding(t)];
    assert m.procs[t.id := Waiting(t, a.generation, s.now)] == m.procs;
  }

  lemma SubmitKeeps(s: Sys, id: nat)
    requires Inv(s) && Enabled(s, Submit(id))
    ensures Inv(Next(s, Submit(id)))
  {
    var t := s.procs[id].ticket;
    assert ProcOk(s, id);
    var a := Enqueue(s.arb, t);
    var m := s.(arb := a, procs := s.procs[id := Waiting(t, a.generation, s.now)]);
    SubmittedIsSound(s, id, m);
    assert forall k :: Asleep(m, k) ==> k == id by {
      assert forall k :: k in s.procs ==> ProcOk(s, k);
    }
    AttemptKeeps(m, t);
    AttemptFromSleep(s, m, a, t);
  }

  lemma WokenIsSound(s: Sys, id: nat, m: Sys)
    requires Inv(s) && Enabled(s, Wake(id))
    requires m == s.(procs := s.procs[id := Waiting(s.procs[id].ticket, s.arb.generation, s.now)])
    ensures Sound(m)
  {
    assert ProcOk(s, id);
    forall u | u in s.arb.queue ensures WaitsFor(m, u) {
      assert WaitsFor(s, u);
    }
    forall k | k in m.procs ensures ProcOk(m, k) {
      assert ProcOk(s, k);
    }
    LeasesStay(s, m);
  }

  lemma WakeKeeps(s: Sys, id: nat)
    requires Inv(s) && Enabled(s, Wake(id))
    ensures Inv(Next(s, Wake(id)))
  {
    var t := s.procs[id].ticket;
    assert ProcOk(s, id);
    var m := s.(procs := s.procs[id := Waiting(t, s.arb.generation, s.now)]);
    WokenIsSound(s, id, m);
    assert forall k :: Asleep(m, k) && k != id ==> Asleep(s, k);
    AttemptKeeps(m, t);
    AttemptFromSleep(s, m, s.arb, t);
  }

  /** Leases that a step does not touch stay held and watched. */
  lemma LeasesStay(s: Sys, m: Sys)
    requires Linked(s) && Watched(s)
    requires m.arb.opts == s.arb.opts && m.now >= s.now
    requires forall lt :: Leases(m.arb, lt) == Leases(s.arb, lt)
    requires forall id :: id in s.procs && s.procs[id].Holding? ==> id in m.procs && m.procs[id] == s.procs[id]
    requires forall lt, id :: (lt, id) in s.callbacks && Found(s.arb, lt, id) ==> (lt, id) in m.callbacks
    ensures Watched(m) && forall lt :: LeaseListOk(m, lt)
  {
    forall lt ensures LeaseListOk(m, lt) && WatchedList(m, lt) {
      assert LeaseListOk(s, lt) && WatchedList(s, lt);
      forall l | l in Leases(m.arb, lt) ensures Holds(m, l.ticket) && WatchOk(m, lt, l) {
        assert Holds(s, l.ticket) && WatchOk(s, lt, l);
        assert Found(s.arb, lt, l.ticket.id);
      }
    }
  }

  lemma CancelKeeps(s: Sys, id: nat)
    requires Inv(s) && Enabled(s, Cancel(id))
    ensures Inv(Next(s, Cancel(id)))
  {
    var t := s.procs[id].ticket;
    var n := Next(s, Cancel(id));
    assert ProcOk(s, id);
    assert n.arb.queue == WithoutTicket(s.arb.queue, id) && n.arb.waitTimeouts == s.arb.waitTimeouts + 1 by {
      var k :| 0 <= k < |s.arb.queue| && s.arb.queue[k] == t;
      assert TicketIndex(s.arb.queue, id) <= k;
    }
    LeftQueue(s, t, n);
    assert forall lt :: Leases(n.arb, lt) == Leases(s.arb, lt);
    LeasesStay(s, n);
  }

  lemma PrepareKeeps(s: Sys, t: Ticket)
    requires Inv(s) && Enabled(s, Prepare(t))
    ensures Inv(Next(s, Prepare(t)))
  {
    var n := Next(s, Prepare(t));
    assert t.id !in s.procs by {
      assert forall id :: id in s.procs ==> ProcOk(s, id);
    }
    forall u | u in s.arb.queue ensures WaitsFor(n, u) {
      assert WaitsFor(s, u);
    }
    forall k | k in n.procs ensures ProcOk(n, k) {
      assert k in s.procs ==> ProcOk(s, k);
    }
    LeasesStay(s, n);
    assert forall k :: Asleep(n, k) ==> Asleep(s, k);
  }

  lemma TickKeeps(s: Sys, d: nat)
    requires Inv(s)
    ensures Inv(Next(s, Tick(d)))
  {
    var n := Next(s, Tick(d));
    LeasesStay(s, n);
    assert forall k :: Asleep(n, k) ==> Asleep(s, k);
  }

  lemma ReleaseBarrierKeeps(s: Sys, id: nat)
    requires Inv(s) && Enabled(s, Release(id)) && s.procs[id].ticket.leaseType == Barrier
    ensures Inv(Next(s, Release(id)))
  {
    var n := Next(s, Release(id));
    if TicketIndex(s.arb.barriers, id) < |s.arb.barriers| {
      RemovedTicket(s.arb.barriers, id);
      assert forall lt :: Leases(n.arb, lt) == Leases(s.arb, lt);
      LeasesStay(s, n);
      forall t | t in n.arb.barriers ensures Holds(n, t) {
        assert Holds(s, t);
      }
    } else {
      assert n == s;
    }
  }

  /** One list of leases gave way to another whose leases stem from it. */
  ghost predicate Relisted(s: Sys, n: Sys, lt: LeaseType, leases: seq<ActiveLease>) {
    && n.seqNo == s.seqNo && n.now == s.now && n.procs == s.procs
    && n.arb == WithLeases(s.arb, lt, leases).(generation := n.arb.generation, forcedReleases := n.arb.forcedReleases)
    && n.arb.generation >= s.arb.generation
    && DistinctLeases(leases)
    && |leases| <= |Leases(s.arb, lt)|
    && (forall l :: l in leases ==> exists o :: o in Leases(s.arb, lt) && o.ticket == l.ticket)
    && (forall l :: l in leases ==> WatchOk(n, lt, l))
    && (forall other, l :: other != lt && l in Leases(s.arb, other) ==> WatchOk(n, other, l))
  }

  lemma RelistedIsSound(s: Sys, n: Sys, lt: LeaseType, leases: seq<ActiveLease>)
    requires Sound(s) && lt != Barrier && Relisted(s, n, lt, leases)
    requires forall i, j :: 0 <= i < j < |leases| ==> lt == Transport ==> leases[i].ticket.channel != leases[j].ticket.channel
    ensures Sound(n)
  {
    assert forall k :: Leases(n.arb, k) == if k == lt then leases else Leases(s.arb, k);
    forall k ensures LeaseListOk(n, k) && WatchedList(n, k) {
      assert LeaseListOk(s, k);
      forall l | l in Leases(n.arb, k) ensures Holds(n, l.ticket) && l.ticket.leaseType == k {
        if k == lt {
          var o :| o in Leases(s.arb, lt) && o.ticket == l.ticket;
          assert Holds(s, o.ticket);
        } else {
          assert Holds(s, l.ticket);
        }
      }
    }
    forall k, l, b | l in Leases(n.arb, k) && b in n.arb.barriers ensures l.ticket.cls !in b.blocked {
      if k == lt {
        var o :| o in Leases(s.arb, lt) && o.ticket == l.ticket;
        assert o.ticket.cls !in b.blocked;
      }
    }
  }

  /** A removed lease: by Release, or by the watchdog. */
  ghost predicate Removed(s: Sys, n: Sys, lt: LeaseType, id: nat) {
    && lt != Barrier && Found(s.arb, lt, id)
    && n.seqNo == s.seqNo && n.now == s.now && n.procs == s.procs
    && n.arb == ReleaseLease(s.arb, lt, id).(forcedReleases := n.arb.forcedReleases)
    && forall k, j :: (k, j) in s.callbacks && (k, j) != (lt, id) ==> (k, j) in n.callbacks
  }

  lemma RemovalRelists(s: Sys, n: Sys, lt: LeaseType, id: nat)
    requires Inv(s) && Removed(s, n, lt, id)
    ensures Relisted(s, n, lt, WithoutLease(Leases(s.arb, lt), id))
  {
    var leases := WithoutLease(Leases(s.arb, lt), id);
    assert LeaseListOk(s, lt) && WatchedList(s, lt);
    RemovedLease(Leases(s.arb, lt), id);
    forall l | l in leases ensures WatchOk(n, lt, l) {
      assert WatchOk(s, lt, l);
    }
    forall other, l | other != lt && l in Leases(s.arb, other) ensures WatchOk(n, other, l) {
      assert WatchedList(s, other) && WatchOk(s, other, l);
    }
  }

  lemma RemovalKeeps(s: Sys, n: Sys, lt: LeaseType, id: nat)
    requires Inv(s) && Removed(s, n, lt, id)
    ensures Inv(n)
  {
    var leases := WithoutLease(Leases(s.arb, lt), id);
    RemovalRelists(s, n, lt, id);
    if lt == Transport {
      assert Excluded(s.arb);
    }
    RelistedIsSound(s, n, lt, leases);
  }

  lemma QMICountSame(x: seq<ActiveLease>, y: seq<ActiveLease>)
    requires |x| == |y| && forall i :: 0 <= i < |x| ==> x[i].ticket == y[i].ticket
    ensures QMICount(x) == QMICount(y)
  {
    if x != [] {
      QMICountSame(x[..|x| - 1], y[..|y| - 1]);
    }
  }

  /** Grants depend on the tickets of the active leases, not on their watchdogs. */
  ghost predicate SameTickets(a: State, b: State) {
    && a.queue == b.queue && a.barriers == b.barriers && a.opts == b.opts
    && |a.sessions| == |b.sessions| && |a.oneShot| == |b.oneShot| && |a.transports| == |b.transports|
    && forall i :: 0 <= i < |a.transports| ==> a.transports[i].ticket == b.transports[i].ticket
  }

  lemma WatchdogsDoNotGrant(a: State, b: State, t: Ticket, now: nat)
    requires SameTickets(a, b) && CanAcquire(a, t, now)
    ensures CanAcquire(b, t, now)
  {
    QMICountSame(a.transports, b.transports);
    assert HasExclusiveTransport(a) <==> HasExclusiveTransport(b);
    assert forall u :: TransportFits(a, u) <==> TransportFits(b, u) by {
      assert forall ch :: ChannelBusy(a, ch) <==> ChannelBusy(b, ch);
    }
    assert forall c :: BlockedByActiveBarrier(a, c) <==> BlockedByActiveBarrier(b, c);
    assert forall u :: Stops(a, u) <==> Stops(b, u);
    assert forall i: nat :: Eligible(a, i) <==> Eligible(b, i);
    assert forall i: nat :: EligibleAKA(a, i) <==> EligibleAKA(b, i);
    assert forall i: nat :: EligibleAged(a, now, i) <==> EligibleAged(b, now, i);
    assert forall i: nat :: IsSelected(a, now, i) ==> IsSelected(b, now, i);
    assert forall i: nat :: IsFirstBarrier(a, i) ==> IsFirstBarrier(b, i);
  }

  /** A changed watchdog: Touch, a timer that fires, or a callback that re-arms. */
  ghost predicate Rearmed(s: Sys, n: Sys, lt: LeaseType, i: nat, l: ActiveLease) {
    && lt != Barrier && i < |Leases(s.arb, lt)| && Leases(s.arb, lt)[i].ticket == l.ticket
    && n.seqNo == s.seqNo && n.now == s.now && n.procs == s.procs
    && n.arb == SetLease(s.arb, lt, i, l)
    && (forall k, j :: (k, j) in s.callbacks && (k, j) != (lt, l.ticket.id) ==> (k, j) in n.callbacks)
    && WatchOk(n, lt, l)
  }

  lemma RearmedAt(s: Sys, n: Sys, lt: LeaseType, i: nat, l: ActiveLease, k: nat)
    requires Inv(s) && Rearmed(s, n, lt, i, l) && k < |Leases(s.arb, lt)|
    ensures WatchOk(n, lt, Leases(s.arb, lt)[i := l][k])
    ensures Leases(s.arb, lt)[k] in Leases(s.arb, lt) && Leases(s.arb, lt)[k].ticket == Leases(s.arb, lt)[i := l][k].ticket
  {
    var before := Leases(s.arb, lt);
    assert LeaseListOk(s, lt) && WatchedList(s, lt);
    if k != i {
      assert WatchOk(s, lt, before[k]);
      assert before[k].ticket.id != before[i].ticket.id;
    }
  }

  lemma RearmRelists(s: Sys, n: Sys, lt: LeaseType, i: nat, l: ActiveLease)
    requires Inv(s) && Rearmed(s, n, lt, i, l)
    ensures Relisted(s, n, lt, Leases(s.arb, lt)[i := l])
  {
    var before := Leases(s.arb, lt);
    var leases := before[i := l];
    assert LeaseListOk(s, lt);
    forall x | x in leases
      ensures WatchOk(n, lt, x) && exists o :: o in before && o.ticket == x.ticket
    {
      var k :| 0 <= k < |leases| && leases[k] == x;
      RearmedAt(s, n, lt, i, l, k);
    }
    forall other, x | other != lt && x in Leases(s.arb, other) ensures WatchOk(n, other, x) {
      assert WatchedList(s, other) && WatchOk(s, other, x);
    }
  }

  lemma RearmKeeps(s: Sys, n: Sys, lt: LeaseType, i: nat, l: ActiveLease)
    requires Inv(s) && Rearmed(s, n, lt, i, l)
    ensures Inv(n)
  {
    RearmRelists(s, n, lt, i, l);
    if lt == Transport {
      assert Excluded(s.arb);
    }
    RelistedIsSound(s, n, lt, Leases(s.arb, lt)[i := l]);
    RearmKeepsRefusals(s, n, lt, i, l);
  }

  lemma RearmKeepsRefusals(s: Sys, n: Sys, lt: LeaseType, i: nat, l: ActiveLease)
    requires Refused(s) && lt != Barrier && i < |Leases(s.arb, lt)| && Leases(s.arb, lt)[i].ticket == l.ticket
    requires n.procs == s.procs && n.arb == SetLease(s.arb, lt, i, l)
    ensures Refused(n)
  {
    forall id | Asleep(n, id) ensures !CanAcquire(n.arb, n.procs[id].ticket, n.procs[id].checkedAt) {
      assert Asleep(s, id);
      if CanAcquire(n.arb, n.procs[id].ticket, n.procs[id].checkedAt) {
        WatchdogsDoNotGrant(n.arb, s.arb, n.procs[id].ticket, n.procs[id].checkedAt);
      }
    }
  }

  lemma FireKeeps(s: Sys, id: nat)
    requires Inv(s) && Enabled(s, Fire(id))
    ensures Inv(Next(s, Fire(id)))
  {
    var lt := s.procs[id].ticket.leaseType;
    var i := LeaseIndex(Leases(s.arb, lt), id);
    var l := Leases(s.arb, lt)[i];
    assert WatchedList(s, lt) && WatchOk(s, lt, l);
    RearmKeeps(s, Next(s, Fire(id)), lt, i, l.(armed := None));
  }

  lemma TouchKeeps(s: Sys, id: nat)
    requires Inv(s) && Enabled(s, Touch(id))
    ensures Inv(Next(s, Touch(id)))
  {
    var lt := s.procs[id].ticket.leaseType;
    var i := LeaseIndex(Leases(s.arb, lt), id);
    if i < |Leases(s.arb, lt)| {
      var l := Leases(s.arb, lt)[i];
      assert WatchedList(s, lt) && WatchOk(s, lt, l);
      var expires := s.now + s.arb.opts.maxLeaseHold;
      RearmKeeps(s, Next(s, Touch(id)), lt, i, l.(expiresAt := expires, armed := Some(expires)));
    } else {
      assert Next(s, Touch(id)) == s;
    }
  }

  lemma CallbackKeeps(s: Sys, lt: LeaseType, id: nat)
    requires Inv(s) && Enabled(s, Callback(lt, id))
    ensures Inv(Next(s, Callback(lt, id)))
  {
    var n := Next(s, Callback(lt, id));
    var i := LeaseIndex(Leases(s.arb, lt), id);
    if i >= |Leases(s.arb, lt)| {
      StaleCallbackKeeps(s, n, lt, id);
    } else {
      var l := Leases(s.arb, lt)[i];
      assert WatchedList(s, lt) && WatchOk(s, lt, l);
      if l.expiresAt > s.now {
        RearmKeeps(s, n, lt, i, l.(armed := Some(l.expiresAt)));
      } else {
        RemovalKeeps(s, n, lt, id);
      }
    }
  }

  lemma StaleCallbackKeeps(s: Sys, n: Sys, lt: LeaseType, id: nat)
    requires Inv(s) && !Found(s.arb, lt, id)
    requires n == s.(callbacks := s.callbacks - multiset{(lt, id)})
    ensures Inv(n)
  {
    LeasesStay(s, n);
    assert forall k :: Asleep(n, k) ==> Asleep(s, k);
  }

  lemma ReleaseKeeps(s: Sys, id: nat)
    requires Inv(s) && Enabled(s, Release(id))
    ensures Inv(Next(s, Release(id)))
  {
    var lt := s.procs[id].ticket.leaseType;
    if lt == Barrier {
      ReleaseBarrierKeeps(s, id);
    } else if Found(s.arb, lt, id) {
      RemovalKeeps(s, Next(s, Release(id)), lt, id);
    } else {
      assert Next(s, Release(id)) == s;
    }
  }

  lemma StepKeepsInv(s: Sys, e: Event, s': Sys)
    requires Inv(s) && IsStep(s, e, s')
    ensures Inv(s')
  {
    match e
    case Prepare(t) => PrepareKeeps(s, t);
    case Submit(id) => SubmitKeeps(s, id);
    case Wake(id) => WakeKeeps(s, id);
    case Cancel(id) => CancelKeeps(s, id);
    case Release(id) => ReleaseKeeps(s, id);
    case Touch(id) => TouchKeeps(s, id);
    case Fire(id) => FireKeeps(s, id);
    case Callback(lt, id) => CallbackKeeps(s, lt, id);
    case Tick(d) => TickKeeps(s, d);
  }

  /** Every state of every run satisfies the invariant. */
  lemma {:induction false} RunKeepsInv(o: Options, run: seq<Sys>, events: seq<Event>, k: nat)
    requires IsRun(o, run, events) && k < |run|
    ensures Inv(run[k])
  {
    if k > 0 {
      RunKeepsInv(o, run, events, k - 1);
      assert StepAt(run, events, k - 1);
      StepKeepsInv(run[k - 1], events[k - 1], run[k]);
    }
  }
}
