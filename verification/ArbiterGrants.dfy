/** Exactly when the board grants a queued ticket, in numbers, channels, classes and times. */
module ArbiterGrants {
  import opened ArbiterSpec
  import opened ArbiterRules

  ghost predicate Unblocked(s: State, cls: Class) {
    forall b :: b in s.barriers ==> cls !in b.blocked
  }

  /** One more channel transport may run beside the active ones. */
  ghost predicate HasRoom(s: State) {
    |s.transports| < s.opts.maxQMITransports && forall l :: l in s.transports ==> l.ticket.scope == QMIChannel
  }

  ghost predicate FitsIn(s: State, t: Ticket) {
    if t.scope == QMIChannel then HasRoom(s) && forall l :: l in s.transports ==> l.ticket.channel != t.channel
    else |s.transports| == 0
  }

  /** A waiting ticket that does not hold back those behind it: a transport that is blocked, could start itself, or
      waits for its channel alone. */
  ghost predicate LetsPass(s: State, t: Ticket) {
    t.leaseType == Transport && (!Unblocked(s, t.cls) || FitsIn(s, t) || (t.scope == QMIChannel && HasRoom(s)))
  }

  ghost predicate MayStart(s: State, i: nat) {
    && i < |s.queue| && s.queue[i].leaseType == Transport
    && Unblocked(s, s.queue[i].cls) && FitsIn(s, s.queue[i])
    && forall j :: 0 <= j < i ==> LetsPass(s, s.queue[j])
  }

  /** Aged requests go before authentication, and authentication before the rest. */
  function Rank(t: Ticket, now: nat): (rank: nat) {
    if t.cls == "USIMAKA" then 1 else if now - t.enqueued >= 500_000_000 then 2 else 0
  }

  /** The ticket at i may start, and every other that may start has a lower rank, or the same and came later. */
  ghost predicate GoesFirst(s: State, i: nat, now: nat) {
    && MayStart(s, i)
    && forall j: nat :: j != i && MayStart(s, j) ==>
         Rank(s.queue[j], now) < Rank(s.queue[i], now) || (Rank(s.queue[j], now) == Rank(s.queue[i], now) && i < j)
  }

  /** What a queued ticket has to wait for. */
  ghost predicate Grantable(s: State, i: nat, now: nat)
    requires i < |s.queue|
  {
    var t := s.queue[i];
    match t.leaseType
    case Barrier =>
      && |s.sessions| == 0 && |s.oneShot| == 0 && |s.transports| == 0
      && forall j :: 0 <= j < i ==> s.queue[j].leaseType != Barrier
    case Session => i == 0 && Unblocked(s, t.cls) && |s.oneShot| == 0 && |s.transports| == 0 && |s.sessions| < s.opts.maxSessions
    case OneShot => i == 0 && Unblocked(s, t.cls) && |s.sessions| == 0 && |s.oneShot| == 0 && |s.transports| == 0
    case Transport => |s.sessions| == 0 && |s.oneShot| == 0 && GoesFirst(s, i, now)
  }

  // ---------- The check decides it

  lemma BlocksAre(s: State, cls: Class)
    ensures BlockedByActiveBarrier(s, cls) <==> !Unblocked(s, cls)
  {
    if !Unblocked(s, cls) {
      var b :| b in s.barriers && cls in b.blocked;
      var i :| 0 <= i < |s.barriers| && s.barriers[i] == b;
    }
  }

  lemma RoomIs(s: State)
    ensures HasRoom(s) <==> !HasExclusiveTransport(s) && QMICount(s.transports) < s.opts.maxQMITransports
  {
    if l :| l in s.transports && l.ticket.scope != QMIChannel {
      var i :| 0 <= i < |s.transports| && s.transports[i] == l;
    }
    if i :| 0 <= i < |s.transports| && s.transports[i].ticket.scope != QMIChannel {
      assert s.transports[i] in s.transports;
    }
  }

  lemma FitIs(s: State, t: Ticket)
    requires t.leaseType == Transport
    ensures TransportFits(s, t) <==> FitsIn(s, t)
  {
    RoomIs(s);
    if HasRoom(s) {
      ChannelIs(s, t.channel);
    }
  }

  lemma ChannelIs(s: State, channel: int)
    requires HasRoom(s)
    ensures ChannelBusy(s, channel) <==> exists l :: l in s.transports && l.ticket.channel == channel
  {
    if l :| l in s.transports && l.ticket.channel == channel {
      var i :| 0 <= i < |s.transports| && s.transports[i] == l;
    }
  }

  lemma PassIs(s: State, t: Ticket)
    ensures Stops(s, t) <==> !LetsPass(s, t)
  {
    BlocksAre(s, t.cls);
    RoomIs(s);
    if t.leaseType == Transport {
      FitIs(s, t);
    }
  }

  lemma StartIs(s: State, i: nat)
    ensures Eligible(s, i) <==> MayStart(s, i)
  {
    if i < |s.queue| {
      var t := s.queue[i];
      BlocksAre(s, t.cls);
      if t.leaseType == Transport {
        FitIs(s, t);
      }
      forall j | 0 <= j < i ensures Stops(s, s.queue[j]) <==> !LetsPass(s, s.queue[j]) {
        PassIs(s, s.queue[j]);
      }
    }
  }

  lemma RankIs(t: Ticket, now: nat)
    ensures Aged(t, now) <==> Rank(t, now) == 2
    ensures t.cls == USIM_AKA <==> Rank(t, now) == 1
  {}

  /** The three tiers of the selection are one order. */
  lemma SelectionIs(s: State, now: nat, i: nat)
    ensures IsSelected(s, now, i) <==> GoesFirst(s, i, now)
  {
    forall j: nat ensures Eligible(s, j) <==> MayStart(s, j) {
      StartIs(s, j);
    }
    forall j: nat | j < |s.queue|
      ensures EligibleAged(s, now, j) <==> MayStart(s, j) && Rank(s.queue[j], now) == 2
      ensures EligibleAKA(s, j) <==> MayStart(s, j) && Rank(s.queue[j], now) == 1
    {
      RankIs(s.queue[j], now);
    }
    if MayStart(s, i) {
      RankIs(s.queue[i], now);
      TiersAreOrder(s, now, i);
    }
  }

  lemma TiersAreOrder(s: State, now: nat, i: nat)
    requires MayStart(s, i) && forall j: nat :: Eligible(s, j) <==> MayStart(s, j)
    requires forall j: nat :: j < |s.queue| ==> (EligibleAged(s, now, j) <==> MayStart(s, j) && Rank(s.queue[j], now) == 2)
    requires forall j: nat :: j < |s.queue| ==> (EligibleAKA(s, j) <==> MayStart(s, j) && Rank(s.queue[j], now) == 1)
    ensures IsSelected(s, now, i) <==> GoesFirst(s, i, now)
  {
    RankIs(s.queue[i], now);
    if IsSelected(s, now, i) {
      forall j: nat | j != i && MayStart(s, j)
        ensures Rank(s.queue[j], now) < Rank(s.queue[i], now) || (Rank(s.queue[j], now) == Rank(s.queue[i], now) && i < j)
      {
        RankIs(s.queue[j], now);
        assert Eligible(s, j);
        assert EligibleAged(s, now, j) <==> Rank(s.queue[j], now) == 2;
        assert EligibleAKA(s, j) <==> Rank(s.queue[j], now) == 1;
      }
    }
    if GoesFirst(s, i, now) {
      forall j: nat | j != i && Eligible(s, j)
        ensures Rank(s.queue[j], now) < Rank(s.queue[i], now) || (Rank(s.queue[j], now) == Rank(s.queue[i], now) && i < j)
      {
        assert MayStart(s, j);
      }
      assert Eligible(s, i);
    }
  }

  /** A queued ticket is granted exactly when nothing is left that it has to wait for. */
  lemma GrantableExactly(s: State, i: nat, now: nat)
    requires DistinctTickets(s.queue) && i < |s.queue|
    ensures CanAcquire(s, s.queue[i], now) <==> Grantable(s, i, now)
  {
    var t := s.queue[i];
    IndexOfTicket(s.queue, i);
    BlocksAre(s, t.cls);
    match t.leaseType
    case Barrier =>
      if Grantable(s, i, now) {
        assert IsFirstBarrier(s, i);
      }
    case Transport => TransportExactly(s, i, now);
    case _ =>
      if i == 0 {
        PendingBarrierTestIsImplied(s, t, now, i);
      } else {
        assert !HeadIs(s, t.id);
      }
  }

  lemma TransportExactly(s: State, i: nat, now: nat)
    requires DistinctTickets(s.queue) && i < |s.queue| && s.queue[i].leaseType == Transport
    ensures CanAcquireLease(s, s.queue[i], now) <==> |s.sessions| == 0 && |s.oneShot| == 0 && GoesFirst(s, i, now)
  {
    var t := s.queue[i];
    SelectionIs(s, now, i);
    BlocksAre(s, t.cls);
    if GoesFirst(s, i, now) {
      PendingBarrierTestIsImplied(s, t, now, i);
    }
    if k: nat :| IsSelected(s, now, k) && s.queue[k].id == t.id {
      assert k == i;
    }
  }

  // ---------- Sharing the card

  /** Nobody behind the head of the queue ranks higher. */
  ghost predicate HeadLeads(s: State, now: nat) {
    s.queue != [] && forall j :: 0 < j < |s.queue| ==> Rank(s.queue[j], now) <= Rank(s.queue[0], now)
  }

  /** Channel transports run side by side up to the bound: one that leads the queue beside other channel transports
      is granted if and only if fewer than the bound are active and none of them is on its channel. */
  lemma ChannelsShare(s: State, now: nat)
    requires DistinctTickets(s.queue) && HeadLeads(s, now)
    requires s.queue[0].leaseType == Transport && s.queue[0].scope == QMIChannel && Unblocked(s, s.queue[0].cls)
    requires |s.sessions| == 0 && |s.oneShot| == 0 && forall l :: l in s.transports ==> l.ticket.scope == QMIChannel
    ensures CanAcquire(s, s.queue[0], now) <==>
            |s.transports| < s.opts.maxQMITransports && forall l :: l in s.transports ==> l.ticket.channel != s.queue[0].channel
  {
    GrantableExactly(s, 0, now);
  }

  /** A head session or one-shot, and a head transport that wants the card for itself. */
  lemma HeadsWaitForOthers(s: State, now: nat)
    requires DistinctTickets(s.queue) && HeadLeads(s, now) && Unblocked(s, s.queue[0].cls)
    ensures s.queue[0].leaseType == Session ==>
              (CanAcquire(s, s.queue[0], now) <==> |s.oneShot| == 0 && |s.transports| == 0 && |s.sessions| < s.opts.maxSessions)
    ensures s.queue[0].leaseType == OneShot || (s.queue[0].leaseType == Transport && s.queue[0].scope == Exclusive) ==>
              (CanAcquire(s, s.queue[0], now) <==> |s.sessions| == 0 && |s.oneShot| == 0 && |s.transports| == 0)
  {
    GrantableExactly(s, 0, now);
  }

  /** A channel transport whose channel is in use does not hold back the next one, on a free channel; when the bound
      is reached it does. */
  lemma BusyChannelLetsPass(s: State, now: nat)
    requires DistinctTickets(s.queue) && |s.queue| == 2 && |s.sessions| == 0 && |s.oneShot| == 0
    requires forall i :: 0 <= i < 2 ==> s.queue[i].leaseType == Transport && s.queue[i].scope == QMIChannel && Unblocked(s, s.queue[i].cls)
    requires forall l :: l in s.transports ==> l.ticket.scope == QMIChannel && l.ticket.channel != s.queue[1].channel
    requires exists l :: l in s.transports && l.ticket.channel == s.queue[0].channel
    ensures !CanAcquire(s, s.queue[0], now)
    ensures CanAcquire(s, s.queue[1], now) <==> |s.transports| < s.opts.maxQMITransports
  {
    GrantableExactly(s, 0, now);
    GrantableExactly(s, 1, now);
    assert !MayStart(s, 0);
    assert HasRoom(s) ==> LetsPass(s, s.queue[0]);
  }
}
