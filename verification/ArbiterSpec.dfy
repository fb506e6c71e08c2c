/** The scheduling rules of one SIM card's APDU channel (internal/apduarbiter/arbiter.go),
    as predicates and functions over a snapshot of the arbiter. Times are in nanoseconds. */
module ArbiterSpec {
  import opened Wrappers

  datatype LeaseType = Session | OneShot | Transport | Barrier

  datatype Scope = Exclusive | QMIChannel

  type Class = string

  const USIM_AKA: Class := "USIMAKA"
  const EUICC_WRITE: Class := "EUICCWrite"
  const SMSC: Class := "SMSC"

  /** 500 ms. */
  const TRANSPORT_PRIORITY_AGING: nat := 500_000_000

  /** 2 minutes. */
  const DEFAULT_LEASE_HOLD: nat := 120_000_000_000

  /** A queued request. A ticket waits for a barrier exactly when its lease type is Barrier. */
  datatype Ticket = Ticket(id: nat, cls: Class, channel: int, scope: Scope, leaseType: LeaseType,
                           blocked: set<Class>, enqueued: nat)

  /** A granted lease with its watchdog: `armed` is the deadline of the running timer, if any. */
  datatype ActiveLease = ActiveLease(ticket: Ticket, acquiredAt: nat, expiresAt: nat, armed: Option<nat>)

  datatype Options = Options(maxLeaseHold: int, maxSessions: int, maxQMITransports: int)

  /** Everything the mutex protects. `generation` numbers the broadcast channel: closing it and making
      a new one is one increment. `oneShot` holds at most one lease. */
  datatype State = State(opts: Options, queue: seq<Ticket>, sessions: seq<ActiveLease>, oneShot: seq<ActiveLease>,
                         transports: seq<ActiveLease>, barriers: seq<Ticket>, generation: nat,
                         waitRequests: nat, acquires: nat, waitTimeouts: nat, forcedReleases: nat)

  /** The option defaults the constructor fills in. */
  function NormalizeOptions(o: Options): (r: Options)
    ensures r.maxLeaseHold > 0 && r.maxSessions > 0 && r.maxQMITransports > 0
    ensures r.maxLeaseHold == o.maxLeaseHold || (o.maxLeaseHold <= 0 && r.maxLeaseHold == DEFAULT_LEASE_HOLD)
    ensures r.maxSessions == o.maxSessions || (o.maxSessions <= 0 && r.maxSessions == 1)
    ensures r.maxQMITransports == o.maxQMITransports || (o.maxQMITransports <= 0 && r.maxQMITransports == 1)
  {
    Options(if o.maxLeaseHold <= 0 then DEFAULT_LEASE_HOLD else o.maxLeaseHold,
            if o.maxSessions <= 0 then 1 else o.maxSessions,
            if o.maxQMITransports <= 0 then 1 else o.maxQMITransports)
  }

  function New(o: Options): State {
    State(NormalizeOptions(o), [], [], [], [], [], 0, 0, 0, 0, 0)
  }

  ghost predicate ValidOptions(o: Options) {
    o.maxLeaseHold > 0 && o.maxSessions > 0 && o.maxQMITransports > 0
  }

  // ---------- Building tickets

  /** The request fields that matter for scheduling; `mode` is already trimmed and upper-cased. */
  datatype Request = Request(mode: string, cls: Class, channel: int, scope: Scope)

  function NormalizeClass(cls: Class, leaseType: LeaseType): Class {
    if cls != "" then cls else if leaseType == OneShot then USIM_AKA else EUICC_WRITE
  }

  function NormalizeScope(req: Request, leaseType: LeaseType): Scope {
    if leaseType != Transport then Exclusive
    else if req.scope == QMIChannel && req.mode == "QMI" && req.channel > 0 then QMIChannel
    else Exclusive
  }

  function LeaseTicket(id: nat, req: Request, leaseType: LeaseType, now: nat): Ticket
    requires leaseType != Barrier
  {
    Ticket(id, NormalizeClass(req.cls, leaseType), req.channel, NormalizeScope(req, leaseType), leaseType, {}, now)
  }

  function BarrierTicket(id: nat, cls: Class, channel: int, blockedClasses: seq<Class>, now: nat): Ticket {
    var named := set i | 0 <= i < |blockedClasses| :: NormalizeClass(blockedClasses[i], OneShot);
    Ticket(id, if cls == "" then "SwitchBarrier" else cls, channel, Exclusive, Barrier,
           if named == {} then {USIM_AKA, SMSC} else named, now)
  }

  /** What every ticket that reaches the queue satisfies. */
  ghost predicate WellFormedTicket(t: Ticket) {
    && t.cls != ""
    && (t.scope == QMIChannel ==> t.leaseType == Transport && t.channel > 0)
    && (t.leaseType == Barrier <==> t.blocked != {})
    && "" !in t.blocked
  }

  lemma TicketsAreWellFormed(id: nat, req: Request, leaseType: LeaseType, blockedClasses: seq<Class>, now: nat)
    ensures leaseType != Barrier ==> WellFormedTicket(LeaseTicket(id, req, leaseType, now))
    ensures WellFormedTicket(BarrierTicket(id, req.cls, req.channel, blockedClasses, now))
  {
    if |blockedClasses| > 0 {
      var named := set i | 0 <= i < |blockedClasses| :: NormalizeClass(blockedClasses[i], OneShot);
      assert NormalizeClass(blockedClasses[0], OneShot) in named;
    }
  }

  /** A lease ticket keeps what the request says; a missing class is authentication for a one-shot and a card write
      otherwise, and only a transport on a positive channel in QMI mode shares the card. */
  lemma LeaseTicketsKeepTheRequest(id: nat, req: Request, leaseType: LeaseType, now: nat)
    requires leaseType != Barrier
    ensures var t := LeaseTicket(id, req, leaseType, now);
            && t.id == id && t.channel == req.channel && t.leaseType == leaseType && t.enqueued == now && t.blocked == {}
            && (req.cls != "" ==> t.cls == req.cls)
            && (req.cls == "" ==> t.cls == if leaseType == OneShot then "USIMAKA" else "EUICCWrite")
            && (t.scope == QMIChannel <==> leaseType == Transport && req.scope == QMIChannel && req.mode == "QMI" && req.channel > 0)
  {}

  /** A barrier blocks the classes it was asked to block, where an empty name stands for authentication, and
      authentication and message centre when it was asked for none. */
  lemma BarrierTicketsBlock(id: nat, cls: Class, channel: int, blockedClasses: seq<Class>, now: nat, c: Class)
    ensures var t := BarrierTicket(id, cls, channel, blockedClasses, now);
            && t.id == id && t.channel == channel && t.leaseType == Barrier && t.scope == Exclusive && t.enqueued == now
            && t.cls == (if cls == "" then "SwitchBarrier" else cls)
            && (c in t.blocked <==>
                || (c in blockedClasses && c != "")
                || (c == "USIMAKA" && ("" in blockedClasses || blockedClasses == []))
                || (c == "SMSC" && blockedClasses == []))
  {
    var named := set i | 0 <= i < |blockedClasses| :: NormalizeClass(blockedClasses[i], OneShot);
    if blockedClasses != [] {
      assert NormalizeClass(blockedClasses[0], OneShot) in named;
    }
    if c in blockedClasses && c != "" {
      var i :| 0 <= i < |blockedClasses| && blockedClasses[i] == c;
      assert NormalizeClass(blockedClasses[i], OneShot) == c;
    }
    if "" in blockedClasses {
      var i :| 0 <= i < |blockedClasses| && blockedClasses[i] == "";
      assert NormalizeClass(blockedClasses[i], OneShot) == USIM_AKA;
    }
    if c in named {
      var i :| 0 <= i < |blockedClasses| && NormalizeClass(blockedClasses[i], OneShot) == c;
      assert blockedClasses[i] in blockedClasses;
    }
  }

  // ---------- The lists of active leases

  function Leases(s: State, lt: LeaseType): seq<ActiveLease> {
    match lt
    case Session => s.sessions
    case OneShot => s.oneShot
    case Transport => s.transports
    case Barrier => []
  }

  function WithLeases(s: State, lt: LeaseType, leases: seq<ActiveLease>): State {
    match lt
    case Session => s.(sessions := leases)
    case OneShot => s.(oneShot := leases)
    case Transport => s.(transports := leases)
    case Barrier => s
  }

  function TicketIndex(q: seq<Ticket>, id: nat): (i: nat)
    ensures i <= |q|
    ensures i < |q| ==> q[i].id == id
    ensures forall j :: 0 <= j < i ==> q[j].id != id
  {
    if q == [] || q[0].id == id then 0 else 1 + TicketIndex(q[1..], id)
  }

  function LeaseIndex(leases: seq<ActiveLease>, id: nat): (i: nat)
    ensures i <= |leases|
    ensures i < |leases| ==> leases[i].ticket.id == id
    ensures forall j :: 0 <= j < i ==> leases[j].ticket.id != id
  {
    if leases == [] || leases[0].ticket.id == id then 0 else 1 + LeaseIndex(leases[1..], id)
  }

  function RemoveAt<T>(xs: seq<T>, i: nat): (r: seq<T>)
    requires i < |xs|
    ensures |r| == |xs| - 1
    ensures forall k :: 0 <= k < i ==> r[k] == xs[k]
    ensures forall k :: i <= k < |r| ==> r[k] == xs[k + 1]
  {
    xs[..i] + xs[i + 1..]
  }

  function WithoutTicket(q: seq<Ticket>, id: nat): seq<Ticket> {
    var i := TicketIndex(q, id);
    if i < |q| then RemoveAt(q, i) else q
  }

  function WithoutLease(leases: seq<ActiveLease>, id: nat): seq<ActiveLease> {
    var i := LeaseIndex(leases, id);
    if i < |leases| then RemoveAt(leases, i) else leases
  }

  ghost predicate Found(s: State, lt: LeaseType, id: nat) {
    LeaseIndex(Leases(s, lt), id) < |Leases(s, lt)|
  }

  ghost predicate NoActiveLease(s: State) {
    s.sessions == [] && s.oneShot == [] && s.transports == []
  }

  // ---------- When a ticket may be granted

  ghost predicate BlockedByActiveBarrier(s: State, cls: Class) {
    exists b :: 0 <= b < |s.barriers| && cls in s.barriers[b].blocked
  }

  /** A queued barrier that blocks the ticket's class stands before the ticket (or before the end of the
      queue, when the ticket is not queued). */
  ghost predicate PendingBarrierAhead(s: State, t: Ticket) {
    exists b :: && 0 <= b < TicketIndex(s.queue, t.id)
                && s.queue[b].leaseType == Barrier
                && t.cls in s.queue[b].blocked
  }

  ghost predicate HeadIs(s: State, id: nat) {
    |s.queue| > 0 && s.queue[0].id == id
  }

  ghost predicate HasExclusiveTransport(s: State) {
    exists i :: 0 <= i < |s.transports| && s.transports[i].ticket.scope != QMIChannel
  }

  function QMICount(leases: seq<ActiveLease>): (n: nat)
    ensures n <= |leases|
    ensures n < |leases| <==> exists i :: 0 <= i < |leases| && leases[i].ticket.scope != QMIChannel
  {
    if leases == [] then 0
    else
      var last := leases[|leases| - 1];
      assert forall i :: 0 <= i < |leases| - 1 ==> leases[i] == leases[..|leases| - 1][i];
      QMICount(leases[..|leases| - 1]) + (if last.ticket.scope == QMIChannel then 1 else 0)
  }

  ghost predicate ChannelBusy(s: State, channel: int) {
    exists i :: && 0 <= i < |s.transports|
                && s.transports[i].ticket.scope == QMIChannel
                && s.transports[i].ticket.channel == channel
  }

  /** The transport could start right now, judged by the active transports alone. */
  ghost predicate TransportFits(s: State, t: Ticket) {
    && t.leaseType == Transport
    && if t.scope != QMIChannel then s.transports == []
       else !HasExclusiveTransport(s) && QMICount(s.transports) < s.opts.maxQMITransports && !ChannelBusy(s, t.channel)
  }

  /** A waiting transport that also holds back everything behind it. */
  ghost predicate Gates(s: State, t: Ticket) {
    t.leaseType == Transport && t.scope == QMIChannel ==>
      HasExclusiveTransport(s) || QMICount(s.transports) >= s.opts.maxQMITransports
  }

  /** The ticket stops the selection scan: it is no transport, or an unblocked one that waits and gates. */
  ghost predicate Stops(s: State, t: Ticket) {
    || t.leaseType != Transport
    || (!BlockedByActiveBarrier(s, t.cls) && !TransportFits(s, t) && Gates(s, t))
  }

  /** Queue position i is reached by the selection scan and could start now. */
  ghost predicate Eligible(s: State, i: nat) {
    && i < |s.queue|
    && (forall j :: 0 <= j < i ==> !Stops(s, s.queue[j]))
    && TransportFits(s, s.queue[i])
    && !BlockedByActiveBarrier(s, s.queue[i].cls)
  }

  ghost predicate Aged(t: Ticket, now: nat) {
    t.cls != USIM_AKA && now - t.enqueued >= TRANSPORT_PRIORITY_AGING
  }

  ghost predicate EligibleAged(s: State, now: nat, i: nat) {
    Eligible(s, i) && Aged(s.queue[i], now)
  }

  ghost predicate EligibleAKA(s: State, i: nat) {
    Eligible(s, i) && s.queue[i].cls == USIM_AKA
  }

  /** Queue position i holds the transport to start next: the oldest eligible one that is aged and not
      AKA; failing that the oldest eligible AKA one; failing that the oldest eligible one. */
  ghost predicate IsSelected(s: State, now: nat, i: nat) {
    && Eligible(s, i)
    && if Aged(s.queue[i], now) then forall j :: 0 <= j < i ==> !EligibleAged(s, now, j)
       else
         && (forall j :: 0 <= j < |s.queue| ==> !EligibleAged(s, now, j))
         && if s.queue[i].cls == USIM_AKA then forall j :: 0 <= j < i ==> !EligibleAKA(s, j)
            else
              && (forall j :: 0 <= j < |s.queue| ==> !EligibleAKA(s, j))
              && (forall j :: 0 <= j < i ==> !Eligible(s, j))
  }

  ghost predicate CanAcquireLease(s: State, t: Ticket, now: nat) {
    && t.leaseType != Barrier
    && !BlockedByActiveBarrier(s, t.cls)
    && !PendingBarrierAhead(s, t)
    && match t.leaseType
       case Session => HeadIs(s, t.id) && s.oneShot == [] && s.transports == [] && |s.sessions| < s.opts.maxSessions
       case OneShot => HeadIs(s, t.id) && NoActiveLease(s)
       case Transport =>
         s.sessions == [] && s.oneShot == [] && exists i: nat :: IsSelected(s, now, i) && s.queue[i].id == t.id
       case Barrier => false
  }

  /** Queue position b holds the first queued barrier. */
  ghost predicate IsFirstBarrier(s: State, b: nat) {
    && b < |s.queue|
    && s.queue[b].leaseType == Barrier
    && forall j :: 0 <= j < b ==> s.queue[j].leaseType != Barrier
  }

  ghost predicate CanAcquireBarrier(s: State, t: Ticket) {
    t.leaseType == Barrier && NoActiveLease(s) && exists b: nat :: IsFirstBarrier(s, b) && s.queue[b].id == t.id
  }

  ghost predicate CanAcquire(s: State, t: Ticket, now: nat) {
    if t.leaseType == Barrier then CanAcquireBarrier(s, t) else CanAcquireLease(s, t, now)
  }

  // ---------- What the critical sections do

  function Enqueue(s: State, t: Ticket): State {
    s.(queue := s.queue + [t], waitRequests := s.waitRequests + 1, generation := s.generation + 1)
  }

  function NewLease(opts: Options, t: Ticket, now: nat): ActiveLease {
    var expires := (if opts.maxLeaseHold > 0 then opts.maxLeaseHold else 0) + now;
    ActiveLease(t, now, expires, Some(expires))
  }

  function GrantLease(s: State, t: Ticket, now: nat): State {
    WithLeases(s, t.leaseType, Leases(s, t.leaseType) + [NewLease(s.opts, t, now)])
    .(queue := WithoutTicket(s.queue, t.id), acquires := s.acquires + 1, generation := s.generation + 1)
  }

  function GrantBarrier(s: State, t: Ticket): State {
    s.(queue := WithoutTicket(s.queue, t.id), barriers := s.barriers + [t],
       acquires := s.acquires + 1, generation := s.generation + 1)
  }

  function Grant(s: State, t: Ticket, now: nat): State {
    if t.leaseType == Barrier then GrantBarrier(s, t) else GrantLease(s, t, now)
  }

  function CancelTicket(s: State, id: nat): State {
    if TicketIndex(s.queue, id) < |s.queue|
    then s.(queue := WithoutTicket(s.queue, id), waitTimeouts := s.waitTimeouts + 1, generation := s.generation + 1)
    else s
  }

  function ReleaseLease(s: State, lt: LeaseType, id: nat): State {
    if LeaseIndex(Leases(s, lt), id) < |Leases(s, lt)|
    then WithLeases(s, lt, WithoutLease(Leases(s, lt), id)).(generation := s.generation + 1)
    else s
  }

  function ReleaseBarrier(s: State, id: nat): State {
    if TicketIndex(s.barriers, id) < |s.barriers|
    then s.(barriers := WithoutTicket(s.barriers, id), generation := s.generation + 1)
    else s
  }

  function SetLease(s: State, lt: LeaseType, i: nat, l: ActiveLease): State
    requires i < |Leases(s, lt)|
  {
    WithLeases(s, lt, Leases(s, lt)[i := l])
  }

  function TouchLease(s: State, lt: LeaseType, id: nat, now: nat): State {
    var i := LeaseIndex(Leases(s, lt), id);
    if i < |Leases(s, lt)| then
      var expires := (if s.opts.maxLeaseHold > 0 then s.opts.maxLeaseHold else 0) + now;
      SetLease(s, lt, i, Leases(s, lt)[i].(expiresAt := expires, armed := Some(expires)))
    else s
  }

  /** The runtime fires a due timer; its callback then runs on a goroutine of its own. */
  function DisarmLease(s: State, lt: LeaseType, id: nat): State {
    var i := LeaseIndex(Leases(s, lt), id);
    if i < |Leases(s, lt)| then SetLease(s, lt, i, Leases(s, lt)[i].(armed := None)) else s
  }

  /** The timer callback: re-arm when the lease was touched meanwhile, force the release otherwise. */
  function ExpireLease(s: State, lt: LeaseType, id: nat, now: nat): State {
    var i := LeaseIndex(Leases(s, lt), id);
    if i >= |Leases(s, lt)| then s
    else if Leases(s, lt)[i].expiresAt > now then
      SetLease(s, lt, i, Leases(s, lt)[i].(armed := Some(Leases(s, lt)[i].expiresAt)))
    else ReleaseLease(s, lt, id).(forcedReleases := s.forcedReleases + 1)
  }
}
