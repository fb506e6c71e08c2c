/** How long what was granted is in force, told from the events of a run and the clock. */
module ArbiterHolds {
  import opened ArbiterSpec
  import opened ArbiterRules
  import opened ArbiterSystem
  import opened ArbiterTheorems
  import opened ArbiterGrants

  // ---------- Checks

  /** A check grants exactly when the board allows it; otherwise the request goes to sleep in the queue. */
  lemma CheckDecides(s: Sys, e: Event, s': Sys)
    requires Inv(s) && IsStep(s, e, s') && (e.Submit? || e.Wake?)
    ensures var t := s.procs[e.id].ticket; var a := Board(s, e, t);
            && t in a.queue && DistinctTickets(a.queue)
            && (Granted(s, s', t) <==> CanAcquire(a, t, s.now))
            && (!Granted(s, s', t) ==> Asleep(s', t.id) && t in s'.arb.queue)
  {
    var t := s.procs[e.id].ticket;
    assert ProcOk(s, e.id);
    if e.Submit? {
      SubmittedIsSound(s, t.id, s.(arb := Enqueue(s.arb, t), procs := s.procs[t.id := Waiting(t, s.arb.generation + 1, s.now)]));
    }
  }

  /** The queue position of the request that a check is about. */
  lemma CheckedPosition(s: Sys, e: Event, s': Sys) returns (i: nat)
    requires Inv(s) && IsStep(s, e, s') && (e.Submit? || e.Wake?)
    ensures var t := s.procs[e.id].ticket; var a := Board(s, e, t);
            i < |a.queue| && a.queue[i] == t && (Granted(s, s', t) <==> Grantable(a, i, s.now))
  {
    CheckDecides(s, e, s');
    var t := s.procs[e.id].ticket;
    var a := Board(s, e, t);
    i :| 0 <= i < |a.queue| && a.queue[i] == t;
    GrantableExactly(a, i, s.now);
  }

  // ---------- Barriers

  /** Barrier b was granted by step j and not left before state k. */
  ghost predicate BarrierInForce(run: seq<Sys>, events: seq<Event>, b: Ticket, j: nat, k: nat) {
    && j < k < |run| == |events| + 1 && b.leaseType == Barrier
    && Granted(run[j], run[j + 1], b)
    && forall i :: j < i < k ==> events[i] != Release(b.id)
  }

  lemma GrantedBarrierEnters(s: Sys, e: Event, s': Sys, b: Ticket)
    requires Inv(s) && IsStep(s, e, s') && Granted(s, s', b) && b.leaseType == Barrier
    ensures b in s'.arb.barriers
  {
    GrantMeansChecked(s, e, s', b);
    assert b in (Board(s, e, b).barriers + [b]);
  }

  lemma ReleaseEndsBarrier(s: Sys, e: Event, s': Sys, b: Ticket)
    requires Inv(s) && IsStep(s, e, s') && e.Release?
    ensures b in s'.arb.barriers <==> b in s.arb.barriers && b.id != e.id
  {
    RemovedTicket(s.arb.barriers, e.id);
    if b in s.arb.barriers {
      assert Holds(s, b);
      var i :| 0 <= i < |s.arb.barriers| && s.arb.barriers[i] == b;
      assert s.arb.barriers[i].id == b.id;
    }
  }

  lemma AttemptChangesBarriers(s: Sys, a: State, t: Ticket)
    ensures var n := Attempt(s, a, t);
            forall b :: b in n.arb.barriers ==> b in a.barriers || (b == t && n.procs[t.id] == Holding(t) && t.leaseType == Barrier)
    ensures forall b :: b in a.barriers ==> b in Attempt(s, a, t).arb.barriers
  {}

  lemma CheckKeepsBarriers(s: Sys, e: Event, s': Sys, b: Ticket)
    requires Inv(s) && IsStep(s, e, s') && (e.Submit? || e.Wake?)
    ensures b in s.arb.barriers ==> b in s'.arb.barriers
    ensures b in s'.arb.barriers ==> b in s.arb.barriers || (Granted(s, s', b) && b.leaseType == Barrier)
  {
    var t := s.procs[e.id].ticket;
    assert ProcOk(s, e.id);
    AttemptChangesBarriers(s, Board(s, e, t), t);
  }

  lemma OthersKeepBarriers(s: Sys, e: Event, s': Sys)
    requires IsStep(s, e, s') && !e.Submit? && !e.Wake? && !e.Release?
    ensures s'.arb.barriers == s.arb.barriers
  {}

  lemma NobodyGranted(s: Sys, e: Event, s': Sys, t: Ticket)
    requires Inv(s) && IsStep(s, e, s') && !e.Submit? && !e.Wake?
    ensures !Granted(s, s', t)
  {
    if Granted(s, s', t) {
      GrantMeansChecked(s, e, s', t);
    }
  }

  /** A step leaves a barrier in force unless it releases it, and puts one in force only by granting it. */
  lemma BarrierStep(s: Sys, e: Event, s': Sys, b: Ticket)
    requires Inv(s) && IsStep(s, e, s')
    ensures b in s'.arb.barriers <==>
            (b in s.arb.barriers && e != Release(b.id)) || (Granted(s, s', b) && b.leaseType == Barrier)
  {
    if Granted(s, s', b) && b.leaseType == Barrier {
      GrantedBarrierEnters(s, e, s', b);
    }
    if e.Submit? || e.Wake? {
      CheckKeepsBarriers(s, e, s', b);
    } else {
      NobodyGranted(s, e, s', b);
      if e.Release? {
        ReleaseEndsBarrier(s, e, s', b);
      } else {
        OthersKeepBarriers(s, e, s');
      }
    }
  }

  lemma BarrierStepOfRun(o: Options, run: seq<Sys>, events: seq<Event>, k: nat, b: Ticket)
    requires IsRun(o, run, events) && k < |events|
    ensures b in run[k + 1].arb.barriers <==>
            (b in run[k].arb.barriers && events[k] != Release(b.id)) || (Granted(run[k], run[k + 1], b) && b.leaseType == Barrier)
  {
    StepOfRun(o, run, events, k, run[k], events[k], run[k + 1]);
    BarrierStep(run[k], events[k], run[k + 1], b);
  }

  lemma {:induction false} ForceIsListed(o: Options, run: seq<Sys>, events: seq<Event>, b: Ticket, j: nat, k: nat)
    requires IsRun(o, run, events) && BarrierInForce(run, events, b, j, k)
    ensures b in run[k].arb.barriers
    decreases k
  {
    BarrierStepOfRun(o, run, events, k - 1, b);
    if j + 1 < k {
      ForceIsListed(o, run, events, b, j, k - 1);
    }
  }

  lemma {:induction false} ListedIsForce(o: Options, run: seq<Sys>, events: seq<Event>, b: Ticket, k: nat) returns (j: nat)
    requires IsRun(o, run, events) && k < |run| && b in run[k].arb.barriers
    ensures BarrierInForce(run, events, b, j, k)
  {
    assert k > 0;
    BarrierStepOfRun(o, run, events, k - 1, b);
    if Granted(run[k - 1], run[k], b) && b.leaseType == Barrier {
      j := k - 1;
    } else {
      j := ListedIsForce(o, run, events, b, k - 1);
    }
  }

  /** A barrier is in force from the step that grants it to the one that releases it, and at no other time. */
  lemma BarriersInForce(o: Options, run: seq<Sys>, events: seq<Event>, k: nat, b: Ticket)
    requires IsRun(o, run, events) && k < |run|
    ensures b in run[k].arb.barriers <==> exists j: nat :: BarrierInForce(run, events, b, j, k)
  {
    if b in run[k].arb.barriers {
      var j := ListedIsForce(o, run, events, b, k);
    }
    if j: nat :| BarrierInForce(run, events, b, j, k) {
      ForceIsListed(o, run, events, b, j, k);
    }
  }

  /** While it is, no lease of a class it blocks is active, and none is granted. */
  lemma BarrierBlocks(o: Options, run: seq<Sys>, events: seq<Event>, b: Ticket, j: nat, k: nat)
    requires IsRun(o, run, events) && BarrierInForce(run, events, b, j, k)
    ensures forall lt, l :: l in Leases(run[k].arb, lt) ==> l.ticket.cls !in b.blocked
    ensures k < |events| ==> forall t :: Granted(run[k], run[k + 1], t) && t.leaseType != Barrier ==> t.cls !in b.blocked
  {
    ForceIsListed(o, run, events, b, j, k);
    EveryStateIsSafe(o, run, events, k);
    if k < |events| {
      forall t | Granted(run[k], run[k + 1], t) && t.leaseType != Barrier ensures t.cls !in b.blocked {
        StepOfRun(o, run, events, k, run[k], events[k], run[k + 1]);
        GrantMeansChecked(run[k], events[k], run[k + 1], t);
        BlocksAre(Board(run[k], events[k], t), t.cls);
      }
    }
  }

  /** A class is blocked exactly by the barriers in force that name it. */
  lemma BlockedClasses(o: Options, run: seq<Sys>, events: seq<Event>, k: nat, cls: Class)
    requires IsRun(o, run, events) && k < |run|
    ensures Unblocked(run[k].arb, cls) <==>
            forall b: Ticket, j: nat :: BarrierInForce(run, events, b, j, k) ==> cls !in b.blocked
  {
    forall b: Ticket ensures b in run[k].arb.barriers <==> exists j: nat :: BarrierInForce(run, events, b, j, k) {
      BarriersInForce(o, run, events, k, b);
    }
  }

  // ---------- Leases

  /** Until when lease t, granted by step j, may be held: a hold time from the grant or its last Touch. */
  ghost function Deadline(o: Options, run: seq<Sys>, events: seq<Event>, id: nat, j: nat, k: nat): nat
    requires j < k < |run| == |events| + 1
    decreases k
  {
    if k == j + 1 then run[j].now + NormalizeOptions(o).maxLeaseHold
    else if events[k - 1] == Touch(id) then run[k - 1].now + NormalizeOptions(o).maxLeaseHold
    else Deadline(o, run, events, id, j, k - 1)
  }

  /** Step k ends the lease: it is released, or a watchdog callback comes at its deadline or later. */
  ghost predicate Ends(o: Options, run: seq<Sys>, events: seq<Event>, t: Ticket, j: nat, k: nat)
    requires j < k < |events| && |run| == |events| + 1
  {
    || events[k] == Release(t.id)
    || (events[k] == Callback(t.leaseType, t.id) && Deadline(o, run, events, t.id, j, k) <= run[k].now)
  }

  ghost predicate LeaseInForce(o: Options, run: seq<Sys>, events: seq<Event>, t: Ticket, j: nat, k: nat) {
    && j < k < |run| == |events| + 1 && t.leaseType != Barrier
    && Granted(run[j], run[j + 1], t)
    && forall i :: j < i < k ==> !Ends(o, run, events, t, j, i)
  }

  ghost predicate Active(s: Sys, t: Ticket) {
    exists l :: l in Leases(s.arb, t.leaseType) && l.ticket == t
  }

  ghost predicate ActiveUntil(s: Sys, t: Ticket, x: nat) {
    exists l :: l in Leases(s.arb, t.leaseType) && l.ticket == t && l.expiresAt == x
  }

  lemma Stored(leases: seq<ActiveLease>, l: ActiveLease, x: ActiveLease)
    requires DistinctLeases(leases) && l in leases
    ensures var i := LeaseIndex(leases, l.ticket.id); i < |leases| && leases[i] == l && x in leases[i := x]
  {
    SameLease(leases, l);
    var i := LeaseIndex(leases, l.ticket.id);
    assert leases[i := x][i] == x;
  }

  lemma TouchMovesDeadline(s: Sys, t: Ticket, x: nat)
    requires Inv(s) && ActiveUntil(s, t, x)
    ensures ActiveUntil(s.(arb := TouchLease(s.arb, t.leaseType, t.id, s.now)), t, s.now + s.arb.opts.maxLeaseHold)
  {
    var lt := t.leaseType;
    assert LeaseListOk(s, lt);
    var l :| l in Leases(s.arb, lt) && l.ticket == t && l.expiresAt == x;
    var a := TouchLease(s.arb, lt, t.id, s.now);
    var i := LeaseIndex(Leases(s.arb, lt), t.id);
    Stored(Leases(s.arb, lt), l, Leases(a, lt)[i]);
  }

  lemma FireKeepsDeadline(s: Sys, t: Ticket, x: nat)
    requires Inv(s) && ActiveUntil(s, t, x)
    ensures ActiveUntil(s.(arb := DisarmLease(s.arb, t.leaseType, t.id)), t, x)
  {
    var lt := t.leaseType;
    assert LeaseListOk(s, lt);
    var l :| l in Leases(s.arb, lt) && l.ticket == t && l.expiresAt == x;
    var a := DisarmLease(s.arb, lt, t.id);
    var i := LeaseIndex(Leases(s.arb, lt), t.id);
    Stored(Leases(s.arb, lt), l, Leases(a, lt)[i]);
  }

  lemma CallbackDecides(s: Sys, t: Ticket, x: nat)
    requires Inv(s) && ActiveUntil(s, t, x)
    ensures var n := s.(arb := ExpireLease(s.arb, t.leaseType, t.id, s.now));
            if x <= s.now then !Active(n, t) else ActiveUntil(n, t, x)
  {
    var lt := t.leaseType;
    assert LeaseListOk(s, lt);
    var leases := Leases(s.arb, lt);
    var l :| l in leases && l.ticket == t && l.expiresAt == x;
    var a := ExpireLease(s.arb, lt, t.id, s.now);
    var i := LeaseIndex(leases, t.id);
    Stored(leases, l, leases[i]);
    if x <= s.now {
      RemovedLease(leases, t.id);
      assert Leases(a, lt) == WithoutLease(leases, t.id);
    } else {
      Stored(leases, l, Leases(a, lt)[i]);
    }
  }

  lemma ReleaseEndsLease(s: Sys, t: Ticket)
    requires Inv(s) && t.leaseType != Barrier
    ensures !Active(s.(arb := ReleaseLease(s.arb, t.leaseType, t.id)), t)
  {
    assert LeaseListOk(s, t.leaseType);
    RemovedLease(Leases(s.arb, t.leaseType), t.id);
    var a := ReleaseLease(s.arb, t.leaseType, t.id);
    assert Leases(a, t.leaseType) == WithoutLease(Leases(s.arb, t.leaseType), t.id);
  }

  lemma ActiveIsHeld(s: Sys, t: Ticket)
    requires Inv(s) && Active(s, t)
    ensures Holds(s, t) && t.leaseType != Barrier
  {
    assert LeaseListOk(s, t.leaseType);
  }

  /** The steps about a lease itself. */
  lemma OwnStep(s: Sys, e: Event, s': Sys, t: Ticket, x: nat)
    requires Inv(s) && IsStep(s, e, s') && ActiveUntil(s, t, x)
    requires e == Release(t.id) || e == Touch(t.id) || e == Fire(t.id) || e == Callback(t.leaseType, t.id)
    ensures e == Release(t.id) ==> !Active(s', t)
    ensures e == Touch(t.id) ==> ActiveUntil(s', t, s.now + s.arb.opts.maxLeaseHold)
    ensures e == Fire(t.id) ==> ActiveUntil(s', t, x)
    ensures e == Callback(t.leaseType, t.id) ==> if x <= s.now then !Active(s', t) else ActiveUntil(s', t, x)
  {
    ActiveIsHeld(s, t);
    match e
    case Release(_) => ReleaseEndsLease(s, t);
    case Touch(_) => TouchMovesDeadline(s, t, x);
    case Fire(_) => FireKeepsDeadline(s, t, x);
    case Callback(_, _) => CallbackDecides(s, t, x);
  }

  lemma ForeignCallback(s: Sys, e: Event, s': Sys, t: Ticket)
    requires IsStep(s, e, s') && e.Callback? && e.leaseType != t.leaseType
    ensures Leases(s'.arb, t.leaseType) == Leases(s.arb, t.leaseType)
  {}

  lemma AttemptKeepsLeases(s: Sys, a: State, t: Ticket, lt: LeaseType)
    ensures Leases(a, lt) <= Leases(Attempt(s, a, t).arb, lt)
  {}

  lemma QuietStep(s: Sys, e: Event, s': Sys, lt: LeaseType)
    requires IsStep(s, e, s') && (e.Prepare? || e.Submit? || e.Wake? || e.Cancel? || e.Tick?)
    ensures Leases(s.arb, lt) <= Leases(s'.arb, lt)
  {
    match e
    case Submit(id) => AttemptKeepsLeases(s, Enqueue(s.arb, s.procs[id].ticket), s.procs[id].ticket, lt);
    case Wake(id) => AttemptKeepsLeases(s, s.arb, s.procs[id].ticket, lt);
    case _ =>
  }

  /** The steps about anything else. */
  lemma OtherStep(s: Sys, e: Event, s': Sys, t: Ticket, x: nat)
    requires Inv(s) && IsStep(s, e, s') && ActiveUntil(s, t, x)
    requires e != Release(t.id) && e != Touch(t.id) && e != Fire(t.id) && e != Callback(t.leaseType, t.id)
    ensures ActiveUntil(s', t, x)
  {
    var l :| l in Leases(s.arb, t.leaseType) && l.ticket == t && l.expiresAt == x;
    if e.Callback? && e.leaseType != t.leaseType {
      ForeignCallback(s, e, s', t);
    } else if e.Release? || e.Touch? || e.Fire? || e.Callback? {
      OtherLeasesUntouched(s, e, s', e.id, t.leaseType, l);
    } else {
      QuietStep(s, e, s', t.leaseType);
    }
  }

  lemma GrantActivates(s: Sys, e: Event, s': Sys, t: Ticket)
    requires Inv(s) && IsStep(s, e, s') && Granted(s, s', t) && t.leaseType != Barrier
    ensures ActiveUntil(s', t, s.now + s.arb.opts.maxLeaseHold)
  {
    GrantMeansChecked(s, e, s', t);
    var a := Board(s, e, t);
    GrantedLease(a, t, s.now);
    assert NewLease(a.opts, t, s.now) in Leases(s'.arb, t.leaseType);
  }

  /** A lease that is active after a step but not before was granted by it. */
  lemma NewIsGranted(s: Sys, e: Event, s': Sys, t: Ticket)
    requires Inv(s) && IsStep(s, e, s') && !Active(s, t) && Active(s', t)
    ensures Granted(s, s', t)
  {
    StepKeepsInv(s, e, s');
    ActiveIsHeld(s', t);
    var l :| l in Leases(s'.arb, t.leaseType) && l.ticket == t;
    LeaseOrigins(s, e, s', t.leaseType, l);
  }

  // ---------- Runs

  lemma ForceStep(o: Options, run: seq<Sys>, events: seq<Event>, t: Ticket, j: nat, k: nat)
    requires IsRun(o, run, events) && j < k < |events| && t.leaseType != Barrier
    requires ActiveUntil(run[k], t, Deadline(o, run, events, t.id, j, k))
    ensures if Ends(o, run, events, t, j, k) then !Active(run[k + 1], t)
            else ActiveUntil(run[k + 1], t, Deadline(o, run, events, t.id, j, k + 1))
  {
    var s, e, s', x := run[k], events[k], run[k + 1], Deadline(o, run, events, t.id, j, k);
    StepOfRun(o, run, events, k, s, e, s');
    OptionsStay(o, run, events, k);
    if e == Release(t.id) || e == Touch(t.id) || e == Fire(t.id) || e == Callback(t.leaseType, t.id) {
      OwnStep(s, e, s', t, x);
    } else {
      OtherStep(s, e, s', t, x);
    }
  }

  lemma GrantOfRun(o: Options, run: seq<Sys>, events: seq<Event>, t: Ticket, j: nat)
    requires IsRun(o, run, events) && j < |events| && Granted(run[j], run[j + 1], t) && t.leaseType != Barrier
    ensures ActiveUntil(run[j + 1], t, run[j].now + NormalizeOptions(o).maxLeaseHold)
  {
    var s, e, s' := run[j], events[j], run[j + 1];
    StepOfRun(o, run, events, j, s, e, s');
    OptionsStay(o, run, events, j);
    GrantActivates(s, e, s', t);
  }

  lemma {:induction false} ForceIsActive(o: Options, run: seq<Sys>, events: seq<Event>, t: Ticket, j: nat, k: nat)
    requires IsRun(o, run, events) && LeaseInForce(o, run, events, t, j, k)
    ensures ActiveUntil(run[k], t, Deadline(o, run, events, t.id, j, k))
    decreases k
  {
    if k == j + 1 {
      GrantOfRun(o, run, events, t, j);
    } else {
      ForceIsActive(o, run, events, t, j, k - 1);
      ForceStep(o, run, events, t, j, k - 1);
    }
  }

  lemma NewOfRun(o: Options, run: seq<Sys>, events: seq<Event>, t: Ticket, k: nat)
    requires IsRun(o, run, events) && k < |events| && !Active(run[k], t) && Active(run[k + 1], t)
    ensures Granted(run[k], run[k + 1], t) && t.leaseType != Barrier
  {
    StepOfRun(o, run, events, k, run[k], events[k], run[k + 1]);
    NewIsGranted(run[k], events[k], run[k + 1], t);
    RunKeepsInv(o, run, events, k + 1);
    ActiveIsHeld(run[k + 1], t);
  }

  lemma {:induction false} ActiveIsForce(o: Options, run: seq<Sys>, events: seq<Event>, t: Ticket, k: nat) returns (j: nat)
    requires IsRun(o, run, events) && k < |run| && Active(run[k], t)
    ensures LeaseInForce(o, run, events, t, j, k)
  {
    assert k > 0;
    if Active(run[k - 1], t) {
      j := ActiveIsForce(o, run, events, t, k - 1);
      ForceIsActive(o, run, events, t, j, k - 1);
      ForceStep(o, run, events, t, j, k - 1);
    } else {
      NewOfRun(o, run, events, t, k - 1);
      j := k - 1;
    }
  }

  /** A lease is active from the step that grants it until it is released or a callback comes at its deadline or
      later, and at no other time; it expires at its deadline. */
  lemma LeasesInForce(o: Options, run: seq<Sys>, events: seq<Event>, k: nat, t: Ticket)
    requires IsRun(o, run, events) && k < |run| && t.leaseType != Barrier
    ensures Active(run[k], t) <==> exists j: nat :: LeaseInForce(o, run, events, t, j, k)
    ensures forall j: nat :: LeaseInForce(o, run, events, t, j, k) ==> ActiveUntil(run[k], t, Deadline(o, run, events, t.id, j, k))
  {
    if Active(run[k], t) {
      var j := ActiveIsForce(o, run, events, t, k);
    }
    forall j: nat | LeaseInForce(o, run, events, t, j, k) ensures ActiveUntil(run[k], t, Deadline(o, run, events, t.id, j, k)) {
      ForceIsActive(o, run, events, t, j, k);
    }
  }

  // ---------- Counters

  ghost predicate SomeGrant(s: Sys, s': Sys) {
    exists t :: Granted(s, s', t)
  }

  ghost function Requests(events: seq<Event>, k: nat): nat
    requires k <= |events|
  {
    if k == 0 then 0 else Requests(events, k - 1) + if events[k - 1].Submit? then 1 else 0
  }

  ghost function Timeouts(events: seq<Event>, k: nat): nat
    requires k <= |events|
  {
    if k == 0 then 0 else Timeouts(events, k - 1) + if events[k - 1].Cancel? then 1 else 0
  }

  ghost function Grants(run: seq<Sys>, k: nat): nat
    requires k < |run|
  {
    if k == 0 then 0 else Grants(run, k - 1) + if SomeGrant(run[k - 1], run[k]) then 1 else 0
  }

  ghost function Expiries(run: seq<Sys>, events: seq<Event>, k: nat): nat
    requires k < |run| == |events| + 1
  {
    if k == 0 then 0
    else Expiries(run, events, k - 1)
         + if events[k - 1].Callback? && ForcedRelease(run[k - 1], events[k - 1], run[k], events[k - 1].leaseType, events[k - 1].id) then 1 else 0
  }

  lemma CheckCounts(s: Sys, e: Event, s': Sys)
    requires Inv(s) && IsStep(s, e, s') && (e.Submit? || e.Wake?)
    ensures s'.arb.waitRequests == s.arb.waitRequests + if e.Submit? then 1 else 0
    ensures s'.arb.acquires == s.arb.acquires + if SomeGrant(s, s') then 1 else 0
    ensures s'.arb.waitTimeouts == s.arb.waitTimeouts && s'.arb.forcedReleases == s.arb.forcedReleases
  {
    var t := s.procs[e.id].ticket;
    CheckDecides(s, e, s');
    assert ProcOk(s, e.id);
    AttemptCounts(s, Board(s, e, t), t);
    if u :| Granted(s, s', u) {
      GrantMeansChecked(s, e, s', u);
    }
  }

  lemma AttemptCounts(s: Sys, a: State, t: Ticket)
    ensures var n := Attempt(s, a, t).arb;
            && n.waitRequests == a.waitRequests && n.waitTimeouts == a.waitTimeouts && n.forcedReleases == a.forcedReleases
            && n.acquires == a.acquires + if CanAcquire(a, t, s.now) then 1 else 0
  {}

  lemma CancelCounts(s: Sys, e: Event, s': Sys)
    requires Inv(s) && IsStep(s, e, s') && e.Cancel?
    ensures s'.arb.waitTimeouts == s.arb.waitTimeouts + 1
    ensures s'.arb.waitRequests == s.arb.waitRequests && s'.arb.acquires == s.arb.acquires
    ensures s'.arb.forcedReleases == s.arb.forcedReleases
  {
    assert ProcOk(s, e.id);
    var t := s.procs[e.id].ticket;
    var k :| 0 <= k < |s.arb.queue| && s.arb.queue[k] == t;
    assert TicketIndex(s.arb.queue, e.id) <= k;
  }

  lemma OtherCounts(s: Sys, e: Event, s': Sys)
    requires Inv(s) && IsStep(s, e, s') && !e.Submit? && !e.Wake?
    ensures s'.arb.waitRequests == s.arb.waitRequests && s'.arb.acquires == s.arb.acquires
    ensures s'.arb.waitTimeouts == s.arb.waitTimeouts + if e.Cancel? then 1 else 0
    ensures s'.arb.forcedReleases
         == s.arb.forcedReleases + if e.Callback? && ForcedRelease(s, e, s', e.leaseType, e.id) then 1 else 0
  {
    if e.Cancel? {
      CancelCounts(s, e, s');
    }
    if e.Callback? && Found(s.arb, e.leaseType, e.id) {
      CallbackCounts(s, e.leaseType, e.id);
    }
  }

  lemma CallbackCounts(s: Sys, lt: LeaseType, id: nat)
    requires Inv(s) && Found(s.arb, lt, id)
    ensures var a := ExpireLease(s.arb, lt, id, s.now);
            a.forcedReleases == s.arb.forcedReleases + if Found(a, lt, id) then 0 else 1
  {
    assert LeaseListOk(s, lt);
    GoneAfterRemoval(Leases(s.arb, lt), id);
    EarlyCallbackKeeps(s.arb, lt, id, s.now);
  }

  /** What one step of a run adds to the counters. */
  lemma CountsOfRun(o: Options, run: seq<Sys>, events: seq<Event>, k: nat)
    requires IsRun(o, run, events) && k < |events|
    ensures run[k + 1].arb.waitRequests == run[k].arb.waitRequests + if events[k].Submit? then 1 else 0
    ensures run[k + 1].arb.waitTimeouts == run[k].arb.waitTimeouts + if events[k].Cancel? then 1 else 0
    ensures run[k + 1].arb.acquires == run[k].arb.acquires + if SomeGrant(run[k], run[k + 1]) then 1 else 0
    ensures run[k + 1].arb.forcedReleases == run[k].arb.forcedReleases
              + if events[k].Callback? && ForcedRelease(run[k], events[k], run[k + 1], events[k].leaseType, events[k].id) then 1 else 0
  {
    var s, e, s' := run[k], events[k], run[k + 1];
    StepOfRun(o, run, events, k, s, e, s');
    if e.Submit? || e.Wake? {
      CheckCounts(s, e, s');
    } else {
      OtherCounts(s, e, s');
      NoGrant(s, e, s');
    }
  }

  lemma NoGrant(s: Sys, e: Event, s': Sys)
    requires Inv(s) && IsStep(s, e, s') && !e.Submit? && !e.Wake?
    ensures !SomeGrant(s, s')
  {
    if t :| Granted(s, s', t) {
      NobodyGranted(s, e, s', t);
    }
  }

  /** The counters tell how many requests were queued, granted, given up and taken away by force. */
  lemma {:induction false} CountersTell(o: Options, run: seq<Sys>, events: seq<Event>, k: nat)
    requires IsRun(o, run, events) && k < |run|
    ensures run[k].arb.waitRequests == Requests(events, k) && run[k].arb.waitTimeouts == Timeouts(events, k)
    ensures run[k].arb.acquires == Grants(run, k) && run[k].arb.forcedReleases == Expiries(run, events, k)
  {
    if k > 0 {
      CountersTell(o, run, events, k - 1);
      CountsOfRun(o, run, events, k - 1);
    }
  }
}
