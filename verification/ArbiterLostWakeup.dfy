/** A run in which a wake-up is lost: the code signals no waiter when a ticket reaches the aging limit. */
module ArbiterLostWakeup {
  import opened Wrappers
  import opened ArbiterSpec
  import opened ArbiterRules
  import opened ArbiterSystem

  const DEFAULTS := Options(0, 0, 0)
  const HOLDER := Ticket(1, EUICC_WRITE, 0, Exclusive, Transport, {}, 0)
  const WRITER := Ticket(2, EUICC_WRITE, 0, Exclusive, Transport, {}, 0)
  const AKA := Ticket(3, USIM_AKA, 0, Exclusive, Transport, {}, 0)

  /** One nanosecond before the writer comes of age, and the moment it does. */
  const EARLY: nat := 499_999_999
  const LATE: nat := 500_000_000

  function Base(): State {
    New(DEFAULTS)
  }

  function Held(): ActiveLease {
    ActiveLease(HOLDER, 0, DEFAULT_LEASE_HOLD, Some(DEFAULT_LEASE_HOLD))
  }

  function Busy(): State {
    Base().(transports := [Held()], generation := 2, waitRequests := 1, acquires := 1)
  }

  function BusyOne(): State {
    Busy().(queue := [WRITER], generation := 3, waitRequests := 2)
  }

  function BusyTwo(): State {
    Busy().(queue := [WRITER, AKA], generation := 4, waitRequests := 3)
  }

  function Free(): State {
    BusyTwo().(transports := [], generation := 5)
  }

  function Events(): seq<Event> {
    [Prepare(HOLDER), Submit(1), Prepare(WRITER), Submit(2), Prepare(AKA), Submit(3),
     Tick(EARLY), Release(1), Wake(2), Tick(1), Wake(3)]
  }

  function Held1(): map<nat, Proc> {
    map[1 := Holding(HOLDER)]
  }

  function Waits2(): map<nat, Proc> {
    Held1()[2 := Waiting(WRITER, 3, 0)]
  }

  function Waits3(): map<nat, Proc> {
    Waits2()[3 := Waiting(AKA, 4, 0)]
  }

  function Again2(): map<nat, Proc> {
    Waits3()[2 := Waiting(WRITER, 5, EARLY)]
  }

  function Arrived(): Sys {
    Sys(Base(), 1, 0, map[1 := Prepared(HOLDER)], multiset{})
  }

  function Started(): Sys {
    Sys(Busy(), 1, 0, Held1(), multiset{})
  }

  function WriterArrived(): Sys {
    Sys(Busy(), 2, 0, Held1()[2 := Prepared(WRITER)], multiset{})
  }

  function WriterWaits(): Sys {
    Sys(BusyOne(), 2, 0, Waits2(), multiset{})
  }

  function AKAArrived(): Sys {
    Sys(BusyOne(), 3, 0, Waits2()[3 := Prepared(AKA)], multiset{})
  }

  function BothWait(now: nat): Sys {
    Sys(BusyTwo(), 3, now, Waits3(), multiset{})
  }

  function Freed(): Sys {
    Sys(Free(), 3, EARLY, Waits3(), multiset{})
  }

  function WriterRefused(now: nat): Sys {
    Sys(Free(), 3, now, Again2(), multiset{})
  }

  function Stalled(): Sys {
    Sys(Free(), 3, LATE, Again2()[3 := Waiting(AKA, 5, LATE)], multiset{})
  }

  function Run(): seq<Sys> {
    [Init(DEFAULTS), Arrived(), Started(), WriterArrived(), WriterWaits(), AKAArrived(), BothWait(0), BothWait(EARLY),
     Freed(), WriterRefused(EARLY), WriterRefused(LATE), Stalled()]
  }

  lemma FirstIsGranted()
    ensures CanAcquire(Enqueue(Base(), HOLDER), HOLDER, 0)
  {
    var a := Enqueue(Base(), HOLDER);
    assert a.queue == [HOLDER];
    assert Eligible(a, 0);
    assert IsSelected(a, 0, 0);
  }

  lemma BusyRefuses()
    ensures !CanAcquire(BusyOne(), WRITER, 0) && !CanAcquire(BusyTwo(), AKA, 0)
  {
    assert forall u :: u == WRITER || u == AKA ==> !TransportFits(BusyOne(), u) && !TransportFits(BusyTwo(), u);
    assert forall i: nat :: !Eligible(BusyOne(), i) && !Eligible(BusyTwo(), i);
  }

  /** With the card free, the AKA request is chosen before the writer is aged, the writer afterwards. */
  lemma FreeBoard()
    ensures !CanAcquire(Free(), WRITER, EARLY)
    ensures !CanAcquire(Free(), AKA, LATE)
    ensures CanAcquire(Free(), WRITER, LATE)
  {
    assert Eligible(Free(), 0);
    assert Eligible(Free(), 1);
    assert EligibleAKA(Free(), 1);
    assert EligibleAged(Free(), LATE, 0);
    assert IsSelected(Free(), LATE, 0);
    assert !IsSelected(Free(), EARLY, 0) && !IsSelected(Free(), LATE, 1);
  }

  lemma HolderStarts()
    ensures IsStep(Arrived(), Submit(1), Started())
  {
    FirstIsGranted();
    assert map[1 := Prepared(HOLDER)][1 := Holding(HOLDER)] == Held1();
  }

  lemma WriterSleeps()
    ensures IsStep(WriterArrived(), Submit(2), WriterWaits())
  {
    BusyRefuses();
    assert Enqueue(Busy(), WRITER) == BusyOne();
    assert Held1()[2 := Prepared(WRITER)][2 := Waiting(WRITER, 3, 0)] == Waits2();
  }

  lemma AKASleeps()
    ensures IsStep(AKAArrived(), Submit(3), BothWait(0))
  {
    BusyRefuses();
    assert Enqueue(BusyOne(), AKA) == BusyTwo();
    assert Waits2()[3 := Prepared(AKA)][3 := Waiting(AKA, 4, 0)] == Waits3();
  }

  lemma WriterSleepsAgain()
    ensures IsStep(Freed(), Wake(2), WriterRefused(EARLY))
  {
    FreeBoard();
  }

  lemma AKASleepsAgain()
    ensures IsStep(WriterRefused(LATE), Wake(3), Stalled())
  {
    FreeBoard();
  }

  /** All waiting requests sleep on the current channel, no lease is active, and yet one of them is
      grantable: nobody looks until some other event happens. */
  lemma WakeupIsLost()
    ensures IsRun(DEFAULTS, Run(), Events()) && Run()[11] == Stalled()
    ensures NoActiveLease(Stalled().arb) && Stalled().arb.queue == [WRITER, AKA]
    ensures Asleep(Stalled(), 2) && Asleep(Stalled(), 3) && CanAcquire(Stalled().arb, WRITER, Stalled().now)
    ensures forall id :: !Enabled(Stalled(), Wake(id))
  {
    FreeBoard();
    QueueFills();
    HolderLeaves();
    QueueStalls();
    forall k | 0 <= k < 11 ensures StepAt(Run(), Events(), k) {
      assert IsStep(Run()[k], Events()[k], Run()[k + 1]);
    }
  }

  lemma QueueFills()
    ensures forall k :: 0 <= k < 6 ==> IsStep(Run()[k], Events()[k], Run()[k + 1])
  {
    assert IsStep(Init(DEFAULTS), Prepare(HOLDER), Arrived());
    HolderStarts();
    assert IsStep(Started(), Prepare(WRITER), WriterArrived());
    WriterSleeps();
    assert IsStep(WriterWaits(), Prepare(AKA), AKAArrived());
    AKASleeps();
  }

  lemma HolderLeaves()
    ensures forall k :: 6 <= k < 8 ==> IsStep(Run()[k], Events()[k], Run()[k + 1])
  {
    assert IsStep(BothWait(0), Tick(EARLY), BothWait(EARLY));
  }

  lemma QueueStalls()
    ensures forall k :: 8 <= k < 11 ==> IsStep(Run()[k], Events()[k], Run()[k + 1])
  {
    WriterSleepsAgain();
    assert IsStep(WriterRefused(EARLY), Tick(1), WriterRefused(LATE));
    AKASleepsAgain();
  }
}
