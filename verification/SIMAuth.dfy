/** The single-flight readiness gate in front of SIM authentication (internal/apduarbiter/simauth_ready.go). */
module SIMAuthSpec {
  import opened Wrappers

  /** The gate under its mutex. Channels are numbered; `closed` holds those already closed. */
  datatype Gate = Gate(generation: nat, ready: bool, probing: bool, waitC: Option<nat>, nextChannel: nat, closed: set<nat>)

  /** What a caller does after the critical section that follows its context check. */
  datatype Turn = ReturnReady | WaitOn(channel: nat) | RunProbe(generation: nat, channel: nat)

  function NewGate(): Gate {
    Gate(0, false, false, None, 0, {})
  }

  function EnterGate(g: Gate): (Gate, Turn) {
    if g.ready then (g, ReturnReady)
    else if g.probing then
      match g.waitC
      case Some(ch) => (g, WaitOn(ch))
      case None => (g.(waitC := Some(g.nextChannel), nextChannel := g.nextChannel + 1), WaitOn(g.nextChannel))
    else
      (g.(probing := true, waitC := Some(g.nextChannel), nextChannel := g.nextChannel + 1),
       RunProbe(g.generation, g.nextChannel))
  }

  /** The critical section after a probe that started at `generation` with wait channel `channel`. */
  function FinishProbe(g: Gate, generation: nat, channel: nat, ok: bool): Gate {
    var g1 := if g.generation == generation then g.(ready := ok) else g;
    var g2 := if g1.waitC == Some(channel) then g1.(waitC := None, closed := g1.closed + {channel}) else g1;
    g2.(probing := false)
  }

  function InvalidateGate(g: Gate): Gate {
    g.(generation := g.generation + 1, ready := false)
  }
}

/** The gate's fields and the critical sections that change them. */
module SIMAuthObject {
  import opened Wrappers
  import opened SIMAuthSpec

  class SIMAuthGate {
    var generation: nat
    var ready: bool
    var probing: bool
    var waitC: Option<nat>
    var nextChannel: nat
    var closed: set<nat>

    ghost function View(): Gate
      reads this
    {
      Gate(generation, ready, probing, waitC, nextChannel, closed)
    }

    constructor ()
      ensures View() == NewGate()
    {
      generation, ready, probing, waitC, nextChannel, closed := 0, false, false, None, 0, {};
    }

    method Enter() returns (turn: Turn)
      modifies this
      ensures (View(), turn) == EnterGate(old(View()))
    {
      if ready {
        return ReturnReady;
      }
      if probing {
        var channel: nat;
        if waitC.None? {
          channel := nextChannel;
          nextChannel := nextChannel + 1;
          waitC := Some(channel);
        } else {
          channel := waitC.value;
        }
        return WaitOn(channel);
      }
      var channel := nextChannel;
      nextChannel := nextChannel + 1;
      probing := true;
      waitC := Some(channel);
      return RunProbe(generation, channel);
    }

    method Finish(startedAt: nat, channel: nat, ok: bool) returns (stale: bool)
      modifies this
      ensures View() == FinishProbe(old(View()), startedAt, channel, ok)
      ensures stale <==> old(generation) != startedAt
    {
      stale := generation != startedAt;
      if !stale {
        ready := ok;
      }
      if waitC == Some(channel) {
        closed := closed + {channel};
        waitC := None;
      }
      probing := false;
    }

    method Invalidate()
      modifies this
      ensures View() == InvalidateGate(old(View()))
    {
      generation := generation + 1;
      ready := false;
    }
  }
}

/** All interleavings of callers of the gate and of invalidations. */
module SIMAuthSystem {
  import opened Wrappers
  import opened SIMAuthSpec

  /** One call: at the loop head, asleep on a channel, running its probe, or finished (nil error or not). */
  datatype Caller =
    | AtHead
    | Asleep(channel: nat)
    | Probing(generation: nat, channel: nat)
    | Returned(ok: bool)

  datatype Sys = Sys(gate: Gate, callers: map<nat, Caller>)

  datatype Event =
    | Call(p: nat)
    | ContextEnds(p: nat)
    | Enter(p: nat)
    | Wake(p: nat)
    | ProbeEnds(p: nat, ok: bool)
    | Invalidate

  ghost predicate Enabled(s: Sys, e: Event) {
    match e
    case Call(p) => p !in s.callers
    case ContextEnds(p) => p in s.callers && (s.callers[p].AtHead? || s.callers[p].Asleep?)
    case Enter(p) => p in s.callers && s.callers[p].AtHead?
    case Wake(p) => p in s.callers && s.callers[p].Asleep? && s.callers[p].channel in s.gate.closed
    case ProbeEnds(p, ok) => p in s.callers && s.callers[p].Probing?
    case Invalidate => true
  }

  function AfterTurn(turn: Turn): Caller {
    match turn
    case ReturnReady => Returned(true)
    case WaitOn(ch) => Asleep(ch)
    case RunProbe(gen, ch) => Probing(gen, ch)
  }

  ghost function Next(s: Sys, e: Event): Sys
    requires Enabled(s, e)
  {
    match e
    case Call(p) => s.(callers := s.callers[p := AtHead])
    case ContextEnds(p) => s.(callers := s.callers[p := Returned(false)])
    case Enter(p) => var (g, turn) := EnterGate(s.gate); Sys(g, s.callers[p := AfterTurn(turn)])
    case Wake(p) => s.(callers := s.callers[p := AtHead])
    case ProbeEnds(p, ok) =>
      var c := s.callers[p];
      Sys(FinishProbe(s.gate, c.generation, c.channel, ok),
          s.callers[p := if !ok then Returned(false)
                         else if s.gate.generation != c.generation then AtHead
                         else Returned(true)])
    case Invalidate => s.(gate := InvalidateGate(s.gate))
  }

  ghost predicate IsStep(s: Sys, e: Event, s': Sys) {
    Enabled(s, e) && s' == Next(s, e)
  }

  ghost predicate IsRun(run: seq<Sys>, events: seq<Event>) {
    && |run| == |events| + 1
    && run[0] == Sys(NewGate(), map[])
    && forall k :: 0 <= k < |events| ==> StepAt(run, events, k)
  }

  ghost predicate StepAt(run: seq<Sys>, events: seq<Event>, k: nat)
    requires k < |events| < |run|
  {
    IsStep(run[k], events[k], run[k + 1])
  }

  ghost predicate Probes(s: Sys, p: nat) {
    p in s.callers && s.callers[p].Probing?
  }

  ghost predicate Inv(s: Sys) {
    && (s.gate.probing ==> !s.gate.ready)
    && (s.gate.probing <==> s.gate.waitC.Some?)
    && (s.gate.probing <==> exists p :: Probes(s, p))
    && (forall p, q :: Probes(s, p) && Probes(s, q) ==> p == q)
    && (forall p :: Probes(s, p) ==> s.gate.waitC == Some(s.callers[p].channel) && s.callers[p].generation <= s.gate.generation)
    && (forall p :: p in s.callers && s.callers[p].Asleep? ==>
          s.callers[p].channel in s.gate.closed || s.gate.waitC == Some(s.callers[p].channel))
    && (s.gate.waitC.Some? ==> s.gate.waitC.value < s.gate.nextChannel && s.gate.waitC.value !in s.gate.closed)
    && (forall ch :: ch in s.gate.closed ==> ch < s.gate.nextChannel)
  }

  lemma StepKeepsInv(s: Sys, e: Event, s': Sys)
    requires Inv(s) && IsStep(s, e, s')
    ensures Inv(s')
  {
    match e {
      case Enter(p) =>
        if !s.gate.ready && !s.gate.probing {
          assert Probes(s', p);
          assert forall q :: q != p ==> (Probes(s', q) <==> Probes(s, q));
        } else {
          SameProbes(s, s');
        }
      case ProbeEnds(p, ok) =>
        assert Probes(s, p);
        forall q ensures !Probes(s', q) {
          assert Probes(s, q) ==> q == p;
        }
      case _ =>
        SameProbes(s, s');
    }
  }

  lemma SameProbes(s: Sys, s': Sys)
    requires forall q :: Probes(s', q) <==> Probes(s, q)
    ensures (exists q :: Probes(s', q)) <==> (exists q :: Probes(s, q))
  {
  }

  lemma {:induction false} RunKeepsInv(run: seq<Sys>, events: seq<Event>, k: nat)
    requires IsRun(run, events) && k < |run|
    ensures Inv(run[k])
  {
    if k > 0 {
      RunKeepsInv(run, events, k - 1);
      assert StepAt(run, events, k - 1);
      StepKeepsInv(run[k - 1], events[k - 1], run[k]);
    }
  }

  /** At most one probe runs at any time, and a wait channel exists exactly while it does. */
  lemma SingleFlight(run: seq<Sys>, events: seq<Event>, k: nat)
    requires IsRun(run, events) && k < |run|
    ensures forall p, q :: Probes(run[k], p) && Probes(run[k], q) ==> p == q
    ensures run[k].gate.probing <==> run[k].gate.waitC.Some?
    ensures run[k].gate.probing <==> exists p :: Probes(run[k], p)
  {
    RunKeepsInv(run, events, k);
  }

  /** When a probe ends, whatever its outcome, every sleeping caller can wake. */
  lemma ProbeEndWakesAll(run: seq<Sys>, events: seq<Event>, k: nat, q: nat)
    requires IsRun(run, events) && k < |events| && events[k].ProbeEnds?
    requires q in run[k + 1].callers && run[k + 1].callers[q].Asleep?
    ensures Enabled(run[k + 1], Wake(q))
  {
    RunKeepsInv(run, events, k);
    RunKeepsInv(run, events, k + 1);
    assert StepAt(run, events, k);
    assert Probes(run[k], events[k].p);
  }

  /** A sleeping caller can wake, or the probe it sleeps on is still running. */
  lemma SleeperHasAWaker(run: seq<Sys>, events: seq<Event>, k: nat, q: nat)
    requires IsRun(run, events) && k < |run| && q in run[k].callers && run[k].callers[q].Asleep?
    ensures Enabled(run[k], Wake(q)) || exists p :: Probes(run[k], p) && run[k].callers[p].channel == run[k].callers[q].channel
  {
    RunKeepsInv(run, events, k);
  }

  // ---------- Readiness is earned after the last invalidation

  lemma {:induction false} GenerationGrows(run: seq<Sys>, events: seq<Event>, i: nat, j: nat)
    requires IsRun(run, events) && i <= j < |run|
    ensures run[i].gate.generation <= run[j].gate.generation
    ensures run[i].gate.generation == run[j].gate.generation ==> forall k :: i <= k < j ==> events[k] != Invalidate
  {
    if i < j {
      GenerationGrows(run, events, i, j - 1);
      assert StepAt(run, events, j - 1);
    }
  }

  /** Step j starts the probe of caller p, which then runs at least until state k. */
  ghost predicate ProbesSince(run: seq<Sys>, events: seq<Event>, p: nat, j: nat, k: nat)
    requires |run| == |events| + 1
  {
    && j < k < |run| && events[j] == Enter(p) && !Probes(run[j], p) && Probes(run[k], p)
    && run[k].callers[p].generation == run[j].gate.generation
    && forall i :: j < i <= k ==> p in run[i].callers && run[i].callers[p] == run[k].callers[p]
  }

  lemma {:induction false} ProbeHasStart(run: seq<Sys>, events: seq<Event>, p: nat, k: nat) returns (j: nat)
    requires IsRun(run, events) && k < |run| && Probes(run[k], p)
    ensures ProbesSince(run, events, p, j, k)
  {
    assert k > 0;
    var s, e, s' := run[k - 1], events[k - 1], run[k];
    assert StepAt(run, events, k - 1);
    if Probes(s, p) {
      j := ProbeHasStart(run, events, p, k - 1);
      assert s'.callers[p] == s.callers[p];
    } else {
      j := k - 1;
    }
  }

  /** A ready gate was opened by a successful probe, at step k, that caller p started at step j; no
      invalidation happened since step j. */
  ghost predicate Earned(run: seq<Sys>, events: seq<Event>, n: nat, p: nat, j: nat, k: nat)
    requires |run| == |events| + 1 && n < |run|
  {
    && j < k < n && events[k] == ProbeEnds(p, true)
    && ProbesSince(run, events, p, j, k)
    && forall i :: j <= i < n ==> events[i] != Invalidate
  }

  lemma {:induction false} ReadyIsEarned(run: seq<Sys>, events: seq<Event>, n: nat) returns (p: nat, j: nat, k: nat)
    requires IsRun(run, events) && n < |run| && run[n].gate.ready
    ensures Earned(run, events, n, p, j, k)
  {
    assert n > 0;
    var s, e, s' := run[n - 1], events[n - 1], run[n];
    assert StepAt(run, events, n - 1);
    if e.ProbeEnds? && s.callers[e.p].generation == s.gate.generation {
      p, k := e.p, n - 1;
      assert Probes(s, p);
      j := ProbeHasStart(run, events, p, k);
      GenerationGrows(run, events, j, k);
    } else {
      p, j, k := ReadyIsEarned(run, events, n - 1);
    }
  }

  lemma {:induction false} GenerationStays(run: seq<Sys>, events: seq<Event>, i: nat, j: nat)
    requires IsRun(run, events) && i <= j < |run| && forall k :: i <= k < j ==> events[k] != Invalidate
    ensures run[i].gate.generation == run[j].gate.generation
  {
    if i < j {
      GenerationStays(run, events, i, j - 1);
      assert StepAt(run, events, j - 1);
    }
  }

  ghost predicate NobodySleepsOn(s: Sys, channel: nat) {
    forall q :: q in s.callers ==> s.callers[q] != Asleep(channel)
  }

  /** What a call finds at the gate: an open gate lets it return without a probe; a running probe makes it wait for
      that probe; otherwise it becomes the prober, on a channel nobody waits on yet. */
  lemma EnterMeets(run: seq<Sys>, events: seq<Event>, k: nat, p: nat)
    requires IsRun(run, events) && k < |events| && events[k] == Enter(p)
    ensures p in run[k + 1].callers && forall q :: q != p ==>
              (q in run[k + 1].callers <==> q in run[k].callers) && (q in run[k].callers ==> run[k + 1].callers[q] == run[k].callers[q])
    ensures run[k].gate.ready ==> run[k + 1].callers[p] == Returned(true) && run[k + 1].gate == run[k].gate
    ensures !run[k].gate.ready ==> forall q :: Probes(run[k], q) ==> run[k + 1].callers[p] == Asleep(run[k].callers[q].channel)
    ensures !run[k].gate.ready && (forall q :: !Probes(run[k], q)) ==>
              && Probes(run[k + 1], p) && run[k + 1].callers[p].generation == run[k].gate.generation
              && NobodySleepsOn(run[k + 1], run[k + 1].callers[p].channel)
  {
    RunKeepsInv(run, events, k);
    assert StepAt(run, events, k);
  }

  lemma ProbingStep(run: seq<Sys>, events: seq<Event>, k: nat, p: nat, ok: bool)
    requires IsRun(run, events) && k < |events| && events[k] == ProbeEnds(p, ok)
    ensures Probes(run[k], p) && !run[k].gate.ready && p in run[k + 1].callers
    ensures var current := run[k].callers[p].generation == run[k].gate.generation;
            && run[k + 1].callers[p] == (if !ok then Returned(false) else if current then Returned(true) else AtHead)
            && (run[k + 1].gate.ready <==> ok && current)
  {
    RunKeepsInv(run, events, k);
    assert StepAt(run, events, k);
    assert Probes(run[k], p);
  }

  /** What a probe brings about: it opens the gate if and only if it succeeded and the gate was not invalidated since it
      started; its caller fails with it, returns with it, or tries again. */
  lemma ProbeDecides(run: seq<Sys>, events: seq<Event>, k: nat, p: nat, ok: bool) returns (j: nat)
    requires IsRun(run, events) && k < |events| && events[k] == ProbeEnds(p, ok)
    ensures ProbesSince(run, events, p, j, k) && p in run[k + 1].callers
    ensures var current := forall i :: j <= i < k ==> events[i] != Invalidate;
            && (run[k + 1].gate.ready <==> ok && current)
            && run[k + 1].callers[p] == if !ok then Returned(false) else if current then Returned(true) else AtHead
  {
    ProbingStep(run, events, k, p, ok);
    j := ProbeHasStart(run, events, p, k);
    GenerationGrows(run, events, j, k);
    if forall i :: j <= i < k ==> events[i] != Invalidate {
      GenerationStays(run, events, j, k);
    }
  }

  lemma {:induction false} ReadyStays(run: seq<Sys>, events: seq<Event>, i: nat, n: nat)
    requires IsRun(run, events) && i <= n < |run| && run[i].gate.ready && forall k :: i <= k < n ==> events[k] != Invalidate
    ensures run[n].gate.ready
  {
    if i < n {
      ReadyStays(run, events, i, n - 1);
      RunKeepsInv(run, events, n - 1);
      assert StepAt(run, events, n - 1);
      if events[n - 1].ProbeEnds? {
        ProbingStep(run, events, n - 1, events[n - 1].p, events[n - 1].ok);
      }
    }
  }

  lemma EarnedOpens(run: seq<Sys>, events: seq<Event>, n: nat, p: nat, j: nat, k: nat)
    requires IsRun(run, events) && n < |run| && Earned(run, events, n, p, j, k)
    ensures run[n].gate.ready
  {
    ProbingStep(run, events, k, p, true);
    GenerationStays(run, events, j, k);
    ReadyStays(run, events, k + 1, n);
  }

  /** The gate is ready if and only if a probe succeeded that started after the last invalidation. */
  lemma ReadyExactly(run: seq<Sys>, events: seq<Event>, n: nat)
    requires IsRun(run, events) && n < |run|
    ensures run[n].gate.ready <==> exists p: nat, j: nat, k: nat :: Earned(run, events, n, p, j, k)
  {
    if run[n].gate.ready {
      var p, j, k := ReadyIsEarned(run, events, n);
    }
    if p: nat, j: nat, k: nat :| Earned(run, events, n, p, j, k) {
      EarnedOpens(run, events, n, p, j, k);
    }
  }

  /** A call that returns nil saw the gate ready under the lock in its last step, and so rests on a
      successful probe that started after the last invalidation. */
  lemma NilMeansReady(run: seq<Sys>, events: seq<Event>, n: nat, q: nat) returns (p: nat, j: nat, k: nat)
    requires IsRun(run, events) && n < |events|
    requires q in run[n].callers && !run[n].callers[q].Returned?
    requires q in run[n + 1].callers && run[n + 1].callers[q] == Returned(true)
    ensures run[n + 1].gate.ready && Earned(run, events, n + 1, p, j, k)
  {
    assert StepAt(run, events, n);
    p, j, k := ReadyIsEarned(run, events, n + 1);
  }
}
