/** The MBIM network registration driver (internal/device/mbim_registration.go), run against an
    arbitrary controller: every reply is a free function of the number of calls made before it. */
module MBIMRegistration {
  import opened Wrappers

  /** Calls in the order they are made. Sleep fails when the context ends. */
  datatype Call =
    | ReadMode
    | ReadSIM
    | ReadServing
    | SetOnline
    | SetRFOff
    | Select(manual: bool)
    | Attach
    | AskSuppressed
    | Sleep

  datatype Serving = Serving(regStatus: int, psAttached: bool)

  datatype Config = Config(selectionMode: string, plmn: string)

  /** The device's configuration, and what call number n replies. `serving` may be empty although the call
      succeeded. */
  datatype Trace = Trace(cfg: Config, ok: nat -> bool, flightMode: nat -> bool, simInserted: nat -> bool,
                         serving: nat -> Option<Serving>, suppressed: nat -> bool)

  datatype Options = Options(maxAttempts: int, radioCycleAfter: int, asksSuppression: bool)

  datatype Outcome = Registered | Denied | SIMNotReady | TimedOut | Failed

  function NormalizeOptions(o: Options): (r: Options)
    ensures r.maxAttempts > 0 && r.radioCycleAfter > 0 && r.asksSuppression == o.asksSuppression
    ensures r.maxAttempts == o.maxAttempts || (o.maxAttempts <= 0 && r.maxAttempts == 45)
    ensures r.radioCycleAfter == o.radioCycleAfter || (o.radioCycleAfter <= 0 && r.radioCycleAfter == 30)
  {
    Options(if o.maxAttempts <= 0 then 45 else o.maxAttempts,
            if o.radioCycleAfter <= 0 then 30 else o.radioCycleAfter,
            o.asksSuppression)
  }

  ghost function Count(log: seq<Call>, c: Call): nat {
    if log == [] then 0
    else Count(log[..|log| - 1], c) + if log[|log| - 1] == c then 1 else 0
  }

  ghost function Selections(log: seq<Call>): nat {
    Count(log, Select(false)) + Count(log, Select(true))
  }

  /** The last serving-system read said that the modem is searching, and nothing was done since but to submit a
      selection and to ask about the operator scan. */
  ghost predicate Searching(env: Trace, log: seq<Call>) {
    exists r: nat :: SearchingSince(env, log, r)
  }

  ghost predicate SearchingSince(env: Trace, log: seq<Call>, r: nat) {
    && r < |log| && log[r] == ReadServing && env.ok(r) && env.serving(r).Some? && env.serving(r).value.regStatus == 2
    && forall i :: r < i < |log| ==> log[i].Select? || log[i] == AskSuppressed
  }

  /** The radio may be switched off at log position p: the modem is searching, a registration was submitted
      before, enough serving-system reads were made, and the operator scan was just asked about and is not
      running. */
  ghost predicate CycleAllowed(env: Trace, o: Options, log: seq<Call>, p: nat)
    requires p < |log|
  {
    && Searching(env, log[..p])
    && (exists q: nat :: q < p && log[q].Select? && env.ok(q))
    && Count(log[..p], ReadServing) >= o.radioCycleAfter
    && (o.asksSuppression ==> p > 0 && log[p - 1] == AskSuppressed && !env.suppressed(p - 1))
  }

  /** Having switched the radio off at p, the driver waits and switches it on again, unless switching it
      off failed or the context ended during the wait. */
  ghost predicate CycleCompleted(env: Trace, log: seq<Call>, p: nat)
    requires p < |log|
  {
    env.ok(p) ==>
      && p + 1 < |log| && log[p + 1] == Sleep
      && (env.ok(p + 1) ==> p + 2 < |log| && log[p + 2] == SetOnline)
  }

  ghost predicate CyclesSound(env: Trace, o: Options, log: seq<Call>) {
    forall p: nat :: p < |log| ==> CycleSoundAt(env, o, log, p)
  }

  ghost predicate CycleSoundAt(env: Trace, o: Options, log: seq<Call>, p: nat)
    requires p < |log|
  {
    log[p] == SetRFOff ==> CycleAllowed(env, o, log, p) && CycleCompleted(env, log, p)
  }

  /** The last call was a serving-system read that said registered and attached. */
  ghost predicate EndsAttached(env: Trace, log: seq<Call>) {
    && |log| > 0 && log[|log| - 1] == ReadServing && env.ok(|log| - 1)
    && env.serving(|log| - 1).Some?
    && env.serving(|log| - 1).value.psAttached
    && env.serving(|log| - 1).value.regStatus in {1, 5}
  }

  /** A selection was submitted, and the radio was not switched off since. */
  ghost predicate Selected(log: seq<Call>) {
    log != [] && log[|log| - 1] != SetRFOff && (log[|log| - 1].Select? || Selected(log[..|log| - 1]))
  }

  /** So was an attach. */
  ghost predicate AskedToAttach(log: seq<Call>) {
    log != [] && log[|log| - 1] != SetRFOff && (log[|log| - 1] == Attach || AskedToAttach(log[..|log| - 1]))
  }

  /** The log grew without another serving-system read. */
  ghost predicate NoReads(log0: seq<Call>, log: seq<Call>) {
    log0 <= log && forall p: nat :: |log0| <= p < |log| ==> log[p] != ReadServing
  }

  /** The radio cycle begins right after log position p, unless a running operator scan forbids it. */
  ghost predicate CycleFollows(env: Trace, o: Options, log: seq<Call>, p: nat) {
    && p + 1 < |log|
    && if !o.asksSuppression then log[p + 1] == SetRFOff
       else log[p + 1] == AskSuppressed && (!env.suppressed(p + 1) ==> p + 2 < |log| && log[p + 2] == SetRFOff)
  }

  /** No radio cycle yet, and enough reads were made. */
  ghost predicate CycleDue(o: Options, log: seq<Call>, p: nat)
    requires p < |log|
  {
    SetRFOff !in log[..p] && Count(log[..p + 1], ReadServing) >= o.radioCycleAfter
  }

  /** The driver reacts to the serving-system reply at p: the first registered but detached reply, at the start and
      again after the radio cycle, is followed by an attach, the first unregistered one by a selection, and, once
      enough reads were made, the first searching one by the radio cycle, after its selection if it has one that
      succeeds. */
  ghost predicate Answered(env: Trace, o: Options, log: seq<Call>, p: nat)
    requires p < |log|
  {
    log[p] == ReadServing && env.ok(p) && env.serving(p).Some? ==>
      var ss := env.serving(p).value;
      && (ss.regStatus in {1, 5} && !ss.psAttached && !AskedToAttach(log[..p]) ==> p + 1 < |log| && log[p + 1] == Attach)
      && (ss.regStatus !in {1, 3, 5} && !Selected(log[..p]) ==> p + 1 < |log| && log[p + 1].Select?)
      && (ss.regStatus == 2 && CycleDue(o, log, p) ==>
            if Selected(log[..p]) then CycleFollows(env, o, log, p) else env.ok(p + 1) ==> CycleFollows(env, o, log, p + 1))
  }

  ghost predicate AllAnswered(env: Trace, o: Options, log: seq<Call>) {
    forall p: nat :: p < |log| ==> Answered(env, o, log, p)
  }

  /** Earlier answers stay answers, and calls other than reads need none. */
  lemma AnswersStay(env: Trace, o: Options, log: seq<Call>, longer: seq<Call>)
    requires log <= longer && AllAnswered(env, o, log)
    requires forall p: nat :: |log| <= p < |longer| ==> longer[p] != ReadServing
    ensures AllAnswered(env, o, longer)
  {
    forall p: nat | p < |longer| ensures Answered(env, o, longer, p) {
      if p < |log| {
        assert Answered(env, o, log, p);
        assert log[..p] == longer[..p] && log[..p + 1] == longer[..p + 1];
      }
    }
  }

  lemma {:induction false} CountedCalls(log: seq<Call>, c: Call)
    ensures Count(log, c) > 0 <==> c in log
  {
    if log != [] {
      CountedCalls(log[..|log| - 1], c);
      assert log == log[..|log| - 1] + [log[|log| - 1]];
    }
  }

  /** The log ends with a serving-system reply of that kind. */
  ghost predicate EndsDetached(env: Trace, log: seq<Call>) {
    && |log| > 0 && log[|log| - 1] == ReadServing && env.serving(|log| - 1).Some?
    && var ss := env.serving(|log| - 1).value; ss.regStatus in {1, 5} && !ss.psAttached
  }

  ghost predicate EndsUnregistered(env: Trace, log: seq<Call>) {
    && |log| > 0 && log[|log| - 1] == ReadServing && env.serving(|log| - 1).Some?
    && env.serving(|log| - 1).value.regStatus !in {1, 3, 5}
  }

  /** Manual selection needs both the manual mode and an operator code. */
  predicate WantsManual(cfg: Config) {
    cfg.selectionMode == "manual" && cfg.plmn != ""
  }

  /** Attaches and selections are only ever prompted by the reply just read, selections are the configured ones,
      and there are never more of them before than there were radio cycles. */
  ghost predicate Prompted(env: Trace, log: seq<Call>) {
    forall p: nat :: p < |log| ==> PromptedAt(env, log, p)
  }

  ghost predicate PromptedAt(env: Trace, log: seq<Call>, p: nat)
    requires p < |log|
  {
    PromptedCall(env, log[..p], log[p])
  }

  ghost predicate PromptedCall(env: Trace, log: seq<Call>, c: Call) {
    && (c == Attach ==> EndsDetached(env, log) && Count(log, Attach) <= Count(log, SetRFOff))
    && (c.Select? ==> c == Select(WantsManual(env.cfg)) && EndsUnregistered(env, log) && Selections(log) <= Count(log, SetRFOff))
  }

  /** At every moment at most one selection and one attach more than radio cycles were made: a second one comes
      only after the cycle. */
  ghost predicate InTurn(log: seq<Call>) {
    forall n: nat :: n <= |log| ==> TurnKept(log[..n])
  }

  ghost predicate TurnKept(log: seq<Call>) {
    Selections(log) <= 1 + Count(log, SetRFOff) && Count(log, Attach) <= 1 + Count(log, SetRFOff)
  }

  lemma {:induction false} PromptedTurns(env: Trace, log: seq<Call>, n: nat)
    requires Prompted(env, log) && n <= |log|
    ensures TurnKept(log[..n])
  {
    if n > 0 {
      PromptedTurns(env, log, n - 1);
      assert PromptedAt(env, log, n - 1);
      assert log[..n][..n - 1] == log[..n - 1];
    }
  }

  /** Every selection that was submitted is the configured one. */
  ghost predicate AsConfigured(cfg: Config, log: seq<Call>) {
    forall q: nat :: q < |log| && log[q].Select? ==> log[q] == Select(WantsManual(cfg))
  }

  lemma PromptedAsConfigured(env: Trace, log: seq<Call>)
    requires Prompted(env, log)
    ensures AsConfigured(env.cfg, log)
  {
    forall q: nat | q < |log| && log[q].Select? ensures log[q] == Select(WantsManual(env.cfg)) {
      assert PromptedAt(env, log, q);
    }
  }

  lemma PromptedGrows(env: Trace, log: seq<Call>, c: Call)
    requires Prompted(env, log) && PromptedCall(env, log, c)
    ensures Prompted(env, log + [c])
  {
    var l := log + [c];
    assert log[..|log|] == log;
    forall p: nat | p < |l| ensures PromptedAt(env, l, p) {
      assert p <= |log| && l[..p] == log[..p];
      assert p < |log| ==> PromptedAt(env, log, p);
    }
  }

  lemma {:induction false} PromptedGrowsBy(env: Trace, log: seq<Call>, more: seq<Call>)
    requires Prompted(env, log) && forall i :: 0 <= i < |more| ==> more[i] != Attach && !more[i].Select?
    ensures Prompted(env, log + more)
  {
    if more == [] {
      assert log + more == log;
    } else {
      var shorter := more[..|more| - 1];
      PromptedGrowsBy(env, log, shorter);
      PromptedGrows(env, log + shorter, more[|more| - 1]);
      assert log + more == log + shorter + [more[|more| - 1]];
    }
  }

  lemma LogGrows(env: Trace, o: Options, log: seq<Call>, more: seq<Call>)
    requires CyclesSound(env, o, log) && SetRFOff !in more
    ensures CyclesSound(env, o, log + more)
  {
    var l := log + more;
    assert forall i :: |log| <= i < |l| ==> l[i] == more[i - |log|] && l[i] in more;
    forall p: nat | p < |l| ensures CycleSoundAt(env, o, l, p) {
      if l[p] == SetRFOff {
        assert CycleSoundAt(env, o, log, p);
        CycleBefore(env, o, log, l, p);
      }
    }
  }

  function PollCall(i: nat): Call {
    if i % 2 == 0 then ReadSIM else Sleep
  }

  /** The log grew by at most `attempts` rounds of reading the SIM and sleeping. */
  ghost predicate IsPolling(log: seq<Call>, log0: seq<Call>, attempts: nat) {
    && log0 <= log && |log| <= |log0| + 2 * attempts
    && forall i :: |log0| <= i < |log| ==> log[i] == PollCall(i - |log0|)
  }

  lemma {:induction false} Concatenated(log: seq<Call>, more: seq<Call>, c: Call)
    ensures Count(log + more, c) == Count(log, c) + Count(more, c)
  {
    if more == [] {
      assert log + more == log;
    } else {
      var shorter := more[..|more| - 1];
      Concatenated(log, shorter, c);
      assert (log + more)[..|log + more| - 1] == log + shorter;
    }
  }

  lemma {:induction false} PollingCounts(log: seq<Call>, log0: seq<Call>, attempts: nat)
    requires IsPolling(log, log0, attempts)
    ensures Count(log, ReadSIM) == Count(log0, ReadSIM) + (|log| - |log0| + 1) / 2
    ensures forall c :: c != ReadSIM && c != Sleep ==> Count(log, c) == Count(log0, c)
    decreases |log|
  {
    if |log| > |log0| {
      var shorter := log[..|log| - 1];
      PollingCounts(shorter, log0, attempts);
      assert log == shorter + [log[|log| - 1]];
    } else {
      assert log == log0;
    }
  }

  /** The last call failed, or it read an empty serving-system reply. */
  ghost predicate EndsFailed(env: Trace, log: seq<Call>) {
    && |log| > 0
    && (!env.ok(|log| - 1) || (log[|log| - 1] == ReadServing && env.serving(|log| - 1).None?))
  }

  /** The SIM reads from position n on that were followed by a call said that it is not inserted. */
  ghost predicate NotInsertedSoFar(env: Trace, log: seq<Call>, n: nat) {
    forall p: nat :: n <= p && p + 1 < |log| && log[p] == ReadSIM ==> env.ok(p) && !env.simInserted(p)
  }

  /** Read the SIM until it is inserted, at most maxAttempts times. */
  method WaitSIMReady(env: Trace, o: Options, log0: seq<Call>) returns (outcome: Option<Outcome>, log: seq<Call>)
    requires o.maxAttempts > 0
    ensures IsPolling(log, log0, o.maxAttempts) && |log| > |log0| && NotInsertedSoFar(env, log, |log0|)
    ensures outcome.None? <==> env.ok(|log| - 1) && log[|log| - 1] == ReadSIM && env.simInserted(|log| - 1)
    ensures outcome == Some(Failed) <==> !env.ok(|log| - 1)
    ensures outcome == Some(SIMNotReady) <==> env.ok(|log| - 1) && |log| == |log0| + 2 * o.maxAttempts
    ensures outcome.Some? ==> outcome.value in {Failed, SIMNotReady}
  {
    log := log0;
    for attempt := 1 to o.maxAttempts + 1
      invariant log0 <= log && |log| == |log0| + 2 * (attempt - 1)
      invariant forall i :: |log0| <= i < |log| ==> log[i] == PollCall(i - |log0|)
      invariant NotInsertedSoFar(env, log, |log0|)
      invariant attempt > 1 ==> env.ok(|log| - 1)
    {
      log := log + [ReadSIM];
      if !env.ok(|log| - 1) {
        return Some(Failed), log;
      }
      if env.simInserted(|log| - 1) {
        return None, log;
      }
      log := log + [Sleep];
      if !env.ok(|log| - 1) {
        return Some(Failed), log;
      }
    }
    return Some(SIMNotReady), log;
  }

  method InitiateRegistration(env: Trace, log0: seq<Call>) returns (ok: bool, log: seq<Call>)
    ensures log == log0 + [Select(WantsManual(env.cfg))]
    ensures ok <==> env.ok(|log0|)
  {
    if env.cfg.selectionMode == "manual" && env.cfg.plmn != "" {
      log := log0 + [Select(true)];
    } else {
      log := log0 + [Select(false)];
    }
    ok := env.ok(|log| - 1);
  }

  const CYCLE: seq<Call> := [SetRFOff, Sleep, SetOnline, Sleep]

  /** The log grew by the first n calls of a radio cycle; all but the last of them succeeded. */
  ghost predicate CycleRan(env: Trace, log0: seq<Call>, log: seq<Call>, n: nat) {
    && 1 <= n <= 4 && log == log0 + CYCLE[..n]
    && (forall p: nat :: |log0| <= p < |log0| + n - 1 ==> env.ok(p))
    && (n < 4 ==> !env.ok(|log0| + n - 1))
  }

  /** Off, wait, on, wait; the caller only logs a failure. */
  method RadioCycle(env: Trace, log0: seq<Call>) returns (ok: bool, log: seq<Call>)
    ensures log0 < log && CycleRan(env, log0, log, |log| - |log0|)
    ensures ok <==> log == log0 + CYCLE && env.ok(|log| - 1)
  {
    log := log0 + [SetRFOff];
    if !env.ok(|log| - 1) {
      return false, log;
    }
    log := log + [Sleep];
    if !env.ok(|log| - 1) {
      return false, log;
    }
    log := log + [SetOnline];
    if !env.ok(|log| - 1) {
      return false, log;
    }
    log := log + [Sleep];
    return env.ok(|log| - 1), log;
  }

  lemma CycleCalls(env: Trace, log0: seq<Call>, log: seq<Call>, n: nat)
    requires CycleRan(env, log0, log, n)
    ensures log0 < log && log[|log0|] == SetRFOff
    ensures forall p: nat :: |log0| <= p < |log| ==> log[p] != ReadServing
  {}

  lemma CycleAt(env: Trace, log0: seq<Call>, l: seq<Call>, n: nat)
    requires CycleRan(env, log0, l, n)
    ensures |l| == |log0| + n && l[..|log0|] == log0 && l[|log0|] == SetRFOff
    ensures n > 1 ==> l[|log0| + 1] == Sleep
    ensures n > 2 ==> l[|log0| + 2] == SetOnline
    ensures forall p :: |log0| < p < |l| ==> l[p] != SetRFOff
  {
    assert forall p :: |log0| <= p < |l| ==> l[p] == CYCLE[p - |log0|];
  }

  lemma CycleBefore(env: Trace, o: Options, log0: seq<Call>, l: seq<Call>, p: nat)
    requires log0 <= l && p < |log0| && CycleAllowed(env, o, log0, p) && CycleCompleted(env, log0, p)
    ensures CycleAllowed(env, o, l, p) && CycleCompleted(env, l, p)
  {
    assert l[..p] == log0[..p];
    var q: nat :| q < p && log0[q].Select? && env.ok(q);
    assert l[q].Select?;
  }

  lemma CycleHere(env: Trace, o: Options, log0: seq<Call>, l: seq<Call>, n: nat)
    requires CycleAllowed(env, o, log0 + [SetRFOff], |log0|) && CycleRan(env, log0, l, n)
    ensures |log0| < |l| && CycleAllowed(env, o, l, |log0|) && CycleCompleted(env, l, |log0|)
  {
    CycleAt(env, log0, l, n);
    var m := log0 + [SetRFOff];
    assert m[..|log0|] == log0;
    var q: nat :| q < |log0| && m[q].Select? && env.ok(q);
    assert l[q] == log0[q] == m[q];
  }

  lemma CycleIsSound(env: Trace, o: Options, log0: seq<Call>, l: seq<Call>, n: nat)
    requires CyclesSound(env, o, log0) && CycleAllowed(env, o, log0 + [SetRFOff], |log0|) && CycleRan(env, log0, l, n)
    ensures CyclesSound(env, o, l)
  {
    CycleAt(env, log0, l, n);
    CycleHere(env, o, log0, l, n);
    forall p: nat | p < |l| ensures CycleSoundAt(env, o, l, p) {
      if l[p] == SetRFOff && p < |log0| {
        assert log0[p] == l[p] && CycleSoundAt(env, o, log0, p);
        CycleBefore(env, o, log0, l, p);
      }
    }
  }

  lemma CycleCounts(log0: seq<Call>, n: nat, c: Call)
    requires 1 <= n <= 4
    ensures c == SetRFOff ==> Count(log0 + CYCLE[..n], c) == Count(log0, c) + 1
    ensures c !in CYCLE ==> Count(log0 + CYCLE[..n], c) == Count(log0, c)
  {
    Concatenated(log0, CYCLE[..n], c);
    CountInCycle(n, c);
  }

  lemma {:induction false} CountInCycle(n: nat, c: Call)
    requires 1 <= n <= 4
    ensures c == SetRFOff ==> Count(CYCLE[..n], c) == 1
    ensures c !in CYCLE ==> Count(CYCLE[..n], c) == 0
  {
    assert CYCLE[..n][..n - 1] == CYCLE[..n - 1];
    if n == 1 {
      assert Count([], c) == 0;
    } else {
      CountInCycle(n - 1, c);
    }
  }

  /** What has been issued since the start, or since the radio cycle. */
  datatype Flags = Flags(registerIssued: bool, attachIssued: bool, cycled: bool)

  const NO_FLAGS := Flags(false, false, false)

  /** The polling loop's knowledge between two rounds. */
  ghost predicate Progressed(env: Trace, o: Options, log: seq<Call>, rounds: nat, f: Flags) {
    && CyclesSound(env, o, log)
    && Prompted(env, log)
    && Count(log, ReadServing) == rounds
    && Count(log, ReadSIM) <= o.maxAttempts
    && Count(log, SetRFOff) == (if f.cycled then 1 else 0)
    && Selections(log) <= (if f.registerIssued then 1 else 0) + (if f.cycled then 1 else 0)
    && Count(log, Attach) <= (if f.attachIssued then 1 else 0) + (if f.cycled then 1 else 0)
    && (f.attachIssued <==> AskedToAttach(log))
    && (f.registerIssued <==> Selected(log))
    && (f.registerIssued ==> exists q: nat :: q < |log| && log[q].Select? && env.ok(q))
  }

  lemma CountOneMore(log: seq<Call>, c: Call)
    ensures forall x :: Count(log + [c], x) == Count(log, x) + if x == c then 1 else 0
  {
    assert (log + [c])[..|log|] == log;
  }

  lemma SelectedOneMore(log: seq<Call>, c: Call)
    requires c != SetRFOff
    ensures Selected(log + [c]) <==> Selected(log) || c.Select?
    ensures AskedToAttach(log + [c]) <==> AskedToAttach(log) || c == Attach
  {
    assert (log + [c])[..|log|] == log;
  }

  lemma Stepped(env: Trace, o: Options, log: seq<Call>, c: Call)
    requires CyclesSound(env, o, log) && Prompted(env, log) && c != SetRFOff
    requires PromptedCall(env, log, c)
    ensures Prompted(env, log + [c])
    ensures CyclesSound(env, o, log + [c])
    ensures forall x :: Count(log + [c], x) == Count(log, x) + if x == c then 1 else 0
    ensures forall q: nat :: q < |log| ==> (log + [c])[q] == log[q]
    ensures Selected(log + [c]) <==> Selected(log) || c.Select?
    ensures AskedToAttach(log + [c]) <==> AskedToAttach(log) || c == Attach
  {
    LogGrows(env, o, log, [c]);
    PromptedGrows(env, log, c);
    CountOneMore(log, c);
    SelectedOneMore(log, c);
  }

  /** What holds of the calls made however the driver ends. */
  ghost predicate Bounded(env: Trace, o: Options, log: seq<Call>) {
    && CyclesSound(env, o, log)
    && Prompted(env, log)
    && Count(log, SetRFOff) <= 1
    && Selections(log) <= 1 + Count(log, SetRFOff)
    && Count(log, Attach) <= 1 + Count(log, SetRFOff)
    && Count(log, ReadServing) <= o.maxAttempts
    && Count(log, ReadSIM) <= o.maxAttempts
  }

  ghost predicate EndsDenied(env: Trace, log: seq<Call>) {
    && |log| > 0 && log[|log| - 1] == ReadServing && env.ok(|log| - 1)
    && env.serving(|log| - 1).Some? && env.serving(|log| - 1).value.regStatus == 3
  }

  lemma NothingYet(env: Trace, o: Options, log: seq<Call>)
    requires o.maxAttempts > 0 && forall i :: 0 <= i < |log| ==> log[i] in {ReadMode, SetOnline, Sleep}
    ensures Progressed(env, o, log, 0, NO_FLAGS) && Count(log, ReadSIM) == 0
  {
    if log != [] {
      NothingYet(env, o, log[..|log| - 1]);
    }
  }

  lemma PollingProgress(env: Trace, o: Options, log0: seq<Call>, log: seq<Call>)
    requires o.maxAttempts > 0 && Progressed(env, o, log0, 0, NO_FLAGS) && Count(log0, ReadSIM) == 0
    requires IsPolling(log, log0, o.maxAttempts)
    ensures Progressed(env, o, log, 0, NO_FLAGS)
  {
    PollingCounts(log, log0, o.maxAttempts);
    var more := log[|log0|..];
    assert log == log0 + more;
    assert forall i :: 0 <= i < |more| ==> more[i] == log[i + |log0|];
    LogGrows(env, o, log0, more);
    PromptedGrowsBy(env, log0, more);
    NothingAsked(log0, more);
  }

  lemma {:induction false} NothingAsked(log: seq<Call>, more: seq<Call>)
    requires !Selected(log) && !AskedToAttach(log) && forall i :: 0 <= i < |more| ==> more[i] != Attach && !more[i].Select?
    ensures !Selected(log + more) && !AskedToAttach(log + more)
  {
    if more == [] {
      assert log + more == log;
    } else {
      var shorter := more[..|more| - 1];
      NothingAsked(log, shorter);
      assert (log + more)[..|log + more| - 1] == log + shorter;
    }
  }

  /** A radio cycle starts over. */
  lemma {:induction false} CycleForgets(log: seq<Call>, n: nat)
    requires 1 <= n <= 4
    ensures !Selected(log + CYCLE[..n]) && !AskedToAttach(log + CYCLE[..n])
  {
    var l := log + CYCLE[..n];
    assert l[|l| - 1] == CYCLE[n - 1];
    if n > 1 {
      CycleForgets(log, n - 1);
      assert l[..|l| - 1] == log + CYCLE[..n - 1];
    }
  }

  /** The radio mode is read first, and a radio in flight mode is switched on and given time next. */
  ghost predicate RadioFirst(env: Trace, log: seq<Call>) {
    && |log| > 0 && log[0] == ReadMode
    && (env.ok(0) && env.flightMode(0) ==>
          |log| > 1 && log[1] == SetOnline && (env.ok(1) ==> |log| > 2 && log[2] == Sleep))
  }

  /** A SIM read said inserted before the first serving-system read. */
  ghost predicate SIMSeen(env: Trace, log: seq<Call>) {
    exists q: nat :: q < |log| && log[q] == ReadSIM && env.ok(q) && env.simInserted(q) && ReadServing !in log[..q]
  }

  lemma SIMStaysSeen(env: Trace, log: seq<Call>, longer: seq<Call>)
    requires SIMSeen(env, log) && log <= longer
    ensures SIMSeen(env, longer)
  {
    var q: nat :| q < |log| && log[q] == ReadSIM && env.ok(q) && env.simInserted(q) && ReadServing !in log[..q];
    assert longer[q] == log[q] && longer[..q] == log[..q];
  }

  /** All SIM reads that are allowed were made, and each said that it is not inserted. */
  ghost predicate NeverInserted(env: Trace, o: Options, log: seq<Call>) {
    && Count(log, ReadSIM) == o.maxAttempts && |log| > 0 && env.ok(|log| - 1)
    && forall p: nat :: p < |log| && log[p] == ReadSIM ==> env.ok(p) && !env.simInserted(p)
  }

  /** How the waiting for the SIM ended shows in the whole log. */
  lemma WaitedUntilSeen(env: Trace, o: Options, log0: seq<Call>, log: seq<Call>)
    requires forall i :: 0 <= i < |log0| ==> log0[i] in {ReadMode, SetOnline, Sleep}
    requires o.maxAttempts > 0 && IsPolling(log, log0, o.maxAttempts) && |log| > |log0| && NotInsertedSoFar(env, log, |log0|)
    ensures ReadServing !in log
    ensures env.ok(|log| - 1) && log[|log| - 1] == ReadSIM && env.simInserted(|log| - 1) ==> SIMSeen(env, log)
  {
    forall p | 0 <= p < |log| ensures log[p] != ReadServing {
      assert p < |log0| ==> log[p] == log0[p];
    }
    assert ReadServing !in log[..|log| - 1];
  }

  lemma WaitedInVain(env: Trace, o: Options, log0: seq<Call>, log: seq<Call>)
    requires forall i :: 0 <= i < |log0| ==> log0[i] in {ReadMode, SetOnline, Sleep}
    requires o.maxAttempts > 0 && IsPolling(log, log0, o.maxAttempts) && |log| > |log0| && NotInsertedSoFar(env, log, |log0|)
    requires Count(log0, ReadSIM) == 0
    requires env.ok(|log| - 1) ==>
               (log[|log| - 1] == ReadSIM && env.simInserted(|log| - 1)) || |log| == |log0| + 2 * o.maxAttempts
    ensures NeverInserted(env, o, log) <==> env.ok(|log| - 1) && |log| == |log0| + 2 * o.maxAttempts
  {
    PollingCounts(log, log0, o.maxAttempts);
    assert forall p: nat :: p < |log0| ==> log[p] == log0[p];
    assert log[|log| - 1] == PollCall(|log| - 1 - |log0|);
  }

  /** The calls before the polling loop: radio mode, back online if needed, SIM ready. */
  method Prepare(env: Trace, o: Options) returns (outcome: Option<Outcome>, log: seq<Call>)
    requires o.maxAttempts > 0
    ensures Progressed(env, o, log, 0, NO_FLAGS) && RadioFirst(env, log)
    ensures ReadServing !in log
    ensures outcome.None? ==> SIMSeen(env, log)
    ensures outcome == Some(Failed) <==> EndsFailed(env, log)
    ensures outcome == Some(SIMNotReady) <==> NeverInserted(env, o, log)
    ensures outcome.Some? ==> outcome.value in {Failed, SIMNotReady}
  {
    log := [ReadMode];
    if !env.ok(0) {
      NothingYet(env, o, log);
      return Some(Failed), log;
    }
    if env.flightMode(0) {
      log := log + [SetOnline];
      if !env.ok(|log| - 1) {
        NothingYet(env, o, log);
        return Some(Failed), log;
      }
      log := log + [Sleep];
      if !env.ok(|log| - 1) {
        NothingYet(env, o, log);
        return Some(Failed), log;
      }
    }
    ghost var log0 := log;
    NothingYet(env, o, log0);
    outcome, log := WaitSIMReady(env, o, log);
    PollingProgress(env, o, log0, log);
    WaitedUntilSeen(env, o, log0, log);
    WaitedInVain(env, o, log0, log);
  }

  /** A selection or a question does not end the search. */
  lemma SearchGoesOn(env: Trace, log: seq<Call>, c: Call)
    requires Searching(env, log) && (c.Select? || c == AskSuppressed)
    ensures Searching(env, log + [c])
  {
    var r: nat :| SearchingSince(env, log, r);
    assert SearchingSince(env, log + [c], r);
  }

  lemma CycleMayStart(env: Trace, o: Options, log: seq<Call>)
    requires Searching(env, log)
    requires exists q: nat :: q < |log| && log[q].Select? && env.ok(q)
    requires Count(log, ReadServing) >= o.radioCycleAfter
    requires o.asksSuppression ==> |log| > 0 && log[|log| - 1] == AskSuppressed && !env.suppressed(|log| - 1)
    ensures CycleAllowed(env, o, log + [SetRFOff], |log|)
  {
    var l := log + [SetRFOff];
    var q: nat :| q < |log| && log[q].Select? && env.ok(q);
    assert l[q].Select?;
    assert l[..|log|] == log;
  }

  lemma CycleTotals(before: seq<Call>, n: nat)
    requires 1 <= n <= 4
    ensures var log := before + CYCLE[..n];
            && Count(log, SetRFOff) == Count(before, SetRFOff) + 1
            && Selections(log) == Selections(before)
            && Count(log, Attach) == Count(before, Attach)
            && Count(log, ReadServing) == Count(before, ReadServing)
            && Count(log, ReadSIM) == Count(before, ReadSIM)
  {
    CycleCounts(before, n, SetRFOff);
    CycleCounts(before, n, Select(true));
    CycleCounts(before, n, Select(false));
    CycleCounts(before, n, Attach);
    CycleCounts(before, n, ReadServing);
    CycleCounts(before, n, ReadSIM);
  }

  lemma CycleProgress(env: Trace, o: Options, before: seq<Call>, log: seq<Call>, n: nat, rounds: nat, f: Flags)
    requires Progressed(env, o, before, rounds, f) && f.registerIssued && !f.cycled && rounds >= o.radioCycleAfter
    requires o.asksSuppression ==> |before| > 0 && before[|before| - 1] == AskSuppressed && !env.suppressed(|before| - 1)
    requires CycleRan(env, before, log, n) && Searching(env, before)
    ensures Progressed(env, o, log, rounds, Flags(false, false, true))
  {
    CycleMayStart(env, o, before);
    CycleIsSound(env, o, before, log, n);
    PromptedGrowsBy(env, before, CYCLE[..n]);
    CycleTotals(before, n);
    CycleForgets(before, n);
  }

  /** A call that changes none of the loop's bookkeeping. */
  lemma Uneventful(env: Trace, o: Options, log: seq<Call>, c: Call, rounds: nat, f: Flags)
    requires Progressed(env, o, log, rounds, f) && c in {Sleep, AskSuppressed}
    ensures Progressed(env, o, log + [c], rounds, f)
  {
    Stepped(env, o, log, c);
    if f.registerIssued {
      var q: nat :| q < |log| && log[q].Select? && env.ok(q);
      assert (log + [c])[q].Select?;
    }
  }

  lemma CycleAnswers(env: Trace, o: Options, log0: seq<Call>, before: seq<Call>, log: seq<Call>, rounds: nat, f: Flags)
    requires Progressed(env, o, before, rounds, f) && f.registerIssued && !f.cycled && rounds >= o.radioCycleAfter
    requires if o.asksSuppression then before == log0 + [AskSuppressed] && !env.suppressed(|log0|) else before == log0
    requires before < log && CycleRan(env, before, log, |log| - |before|) && Searching(env, before)
    ensures Progressed(env, o, log, rounds, Flags(false, false, true))
    ensures NoReads(log0, log)
    ensures |log0| > 0 ==> CycleFollows(env, o, log, |log0| - 1)
  {
    CycleCalls(env, before, log, |log| - |before|);
    CycleProgress(env, o, before, log, |log| - |before|, rounds, f);
    assert forall p: nat :: p < |before| ==> log[p] == before[p];
  }

  /** The radio cycle of one round, unless an operator scan is running. */
  method CycleUnlessSuppressed(env: Trace, o: Options, log0: seq<Call>, ghost rounds: nat, f: Flags)
    returns (cycled: bool, log: seq<Call>)
    requires Progressed(env, o, log0, rounds, f) && f.registerIssued && !f.cycled && rounds >= o.radioCycleAfter
    requires Searching(env, log0)
    ensures NoReads(log0, log)
    ensures |log0| > 0 ==> CycleFollows(env, o, log, |log0| - 1)
    ensures cycled ==> Progressed(env, o, log, rounds, Flags(false, false, true))
    ensures !cycled ==> Progressed(env, o, log, rounds, f)
  {
    log := log0;
    if o.asksSuppression {
      Uneventful(env, o, log, AskSuppressed, rounds, f);
      SearchGoesOn(env, log, AskSuppressed);
      log := log + [AskSuppressed];
      if env.suppressed(|log| - 1) {
        return false, log;
      }
    }
    ghost var before := log;
    var ok;
    ok, log := RadioCycle(env, log);
    CycleAnswers(env, o, log0, before, log, rounds, f);
    return true, log;
  }

  lemma AttachStep(env: Trace, o: Options, log0: seq<Call>, rounds: nat, f0: Flags)
    requires Progressed(env, o, log0, rounds, f0) && rounds <= o.maxAttempts && EndsDetached(env, log0) && !f0.attachIssued
    ensures Progressed(env, o, log0 + [Attach], rounds, f0.(attachIssued := true))
    ensures Bounded(env, o, log0 + [Attach])
  {
    assert PromptedCall(env, log0, Attach);
    Stepped(env, o, log0, Attach);
    if f0.registerIssued {
      var q: nat :| q < |log0| && log0[q].Select? && env.ok(q);
      assert (log0 + [Attach])[q].Select?;
    }
  }

  /** Registered but not attached: ask once for the packet service. */
  method AttachOnce(env: Trace, o: Options, log0: seq<Call>, ghost rounds: nat, f0: Flags) returns (ok: bool, log: seq<Call>, f: Flags)
    requires Progressed(env, o, log0, rounds, f0) && rounds <= o.maxAttempts && EndsDetached(env, log0)
    ensures log == if f0.attachIssued then log0 else log0 + [Attach]
    ensures Bounded(env, o, log)
    ensures ok ==> Progressed(env, o, log, rounds, f)
    ensures ok <==> f0.attachIssued || env.ok(|log0|)
  {
    log, f := log0, f0;
    if !f.attachIssued {
      AttachStep(env, o, log0, rounds, f0);
      log := log + [Attach];
      if !env.ok(|log| - 1) {
        return false, log, f;
      }
      f := f.(attachIssued := true);
    }
    ok := true;
  }

  lemma SelectionGoesOn(env: Trace, log0: seq<Call>, log: seq<Call>)
    requires Searching(env, log0) && (log == log0 || log == log0 + [Select(WantsManual(env.cfg))])
    ensures Searching(env, log)
  {
    SearchGoesOn(env, log0, Select(WantsManual(env.cfg)));
  }

  /** Submit the selection unless it was submitted already. */
  method SelectOnce(env: Trace, o: Options, log0: seq<Call>, ghost rounds: nat, f0: Flags)
    returns (ok: bool, log: seq<Call>, f: Flags)
    requires Progressed(env, o, log0, rounds, f0) && rounds <= o.maxAttempts && EndsUnregistered(env, log0)
    ensures if f0.registerIssued then ok && log == log0 && f == f0
            else log == log0 + [Select(WantsManual(env.cfg))]
    ensures Bounded(env, o, log)
    ensures ok ==> Progressed(env, o, log, rounds, f) && f == f0.(registerIssued := true)
    ensures Searching(env, log0) ==> Searching(env, log)
    ensures ok <==> f0.registerIssued || env.ok(|log0|)
  {
    log, f := log0, f0;
    if Searching(env, log0) {
      SelectionGoesOn(env, log0, log0 + [Select(WantsManual(env.cfg))]);
    }
    if !f.registerIssued {
      ok, log := InitiateRegistration(env, log);
      Stepped(env, o, log0, log[|log0|]);
      if !ok {
        return false, log, f;
      }
      assert log[|log0|].Select? && env.ok(|log0|);
      f := f.(registerIssued := true);
    }
    ok := true;
  }

  /** Not registered: submit the selection once, and cycle the radio after enough searching. */
  method RegisterOnce(env: Trace, o: Options, log0: seq<Call>, attempt: nat, searching: bool, f0: Flags)
    returns (ok: bool, log: seq<Call>, f: Flags)
    requires Progressed(env, o, log0, attempt, f0) && attempt <= o.maxAttempts && EndsUnregistered(env, log0)
    requires searching ==> Searching(env, log0)
    ensures NoReads(log0, log)
    ensures !f0.registerIssued ==> |log| > |log0| && log[|log0|].Select?
    ensures searching && !f0.cycled && attempt >= o.radioCycleAfter && ok ==>
              CycleFollows(env, o, log, if f0.registerIssued then |log0| - 1 else |log0|)
    ensures Bounded(env, o, log)
    ensures ok ==> Progressed(env, o, log, attempt, f)
    ensures ok <==> f0.registerIssued || env.ok(|log0|)
    ensures !ok ==> |log| == |log0| + 1
  {
    ok, log, f := SelectOnce(env, o, log0, attempt, f0);
    if !ok {
      return;
    }
    ghost var mid := log;
    log, f := CycleIfDue(env, o, log, attempt, searching, f);
    SelectedThen(env, log0, mid, log);
  }

  lemma SelectedThen(env: Trace, log0: seq<Call>, mid: seq<Call>, log: seq<Call>)
    requires mid == log0 || mid == log0 + [Select(WantsManual(env.cfg))]
    requires NoReads(mid, log)
    ensures NoReads(log0, log)
    ensures mid != log0 ==> |log| > |log0| && log[|log0|].Select?
  {
    assert forall p: nat :: p < |mid| ==> log[p] == mid[p];
  }

  /** Once, after enough searching, cycle the radio unless an operator scan is running. */
  method CycleIfDue(env: Trace, o: Options, log0: seq<Call>, attempt: nat, searching: bool, f0: Flags)
    returns (log: seq<Call>, f: Flags)
    requires Progressed(env, o, log0, attempt, f0) && attempt <= o.maxAttempts && f0.registerIssued
    requires searching ==> Searching(env, log0)
    ensures NoReads(log0, log)
    ensures searching && !f0.cycled && attempt >= o.radioCycleAfter && |log0| > 0 ==> CycleFollows(env, o, log, |log0| - 1)
    ensures Progressed(env, o, log, attempt, f) && Bounded(env, o, log)
  {
    log, f := log0, f0;
    if searching && !f.cycled && attempt >= o.radioCycleAfter {
      var cycled;
      cycled, log := CycleUnlessSuppressed(env, o, log, attempt, f);
      if cycled {
        f := Flags(false, false, true);
      }
    }
  }

  lemma ReadStep(env: Trace, o: Options, log: seq<Call>, attempt: nat, f: Flags)
    requires 1 <= attempt <= o.maxAttempts && Progressed(env, o, log, attempt - 1, f)
    ensures Progressed(env, o, log + [ReadServing], attempt, f) && Bounded(env, o, log + [ReadServing])
  {
    Stepped(env, o, log, ReadServing);
    if f.registerIssued {
      var q: nat :| q < |log| && log[q].Select? && env.ok(q);
      assert (log + [ReadServing])[q].Select?;
    }
  }

  /** After the calls that follow a read, the read is answered too. */
  lemma AnswersGrow(env: Trace, o: Options, log: seq<Call>, longer: seq<Call>)
    requires AllAnswered(env, o, log) && log + [ReadServing] <= longer
    requires forall p: nat :: |log| < p < |longer| ==> longer[p] != ReadServing
    requires Answered(env, o, longer, |log|)
    ensures AllAnswered(env, o, longer)
  {
    forall p: nat | p < |longer| ensures Answered(env, o, longer, p) {
      if p < |log| {
        assert Answered(env, o, log, p);
        assert log[..p] == longer[..p] && log[..p + 1] == longer[..p + 1];
      }
    }
  }

  /** The flags decide as the answers ask. */
  lemma FlagsTell(env: Trace, o: Options, log: seq<Call>, rounds: nat, f: Flags)
    requires Progressed(env, o, log, rounds, f)
    ensures f.attachIssued <==> AskedToAttach(log)
    ensures f.registerIssued <==> Selected(log)
    ensures f.cycled <==> SetRFOff in log
  {
    CountedCalls(log, SetRFOff);
  }

  /** All serving-system reads that are allowed were made, and the driver has slept after the last. */
  ghost predicate RanOut(env: Trace, o: Options, log: seq<Call>) {
    Count(log, ReadServing) == o.maxAttempts && |log| > 0 && log[|log| - 1] == Sleep && env.ok(|log| - 1)
  }

  /** Every outcome says how the calls ended, and the calls say which outcome it is. */
  ghost predicate OutcomeFits(env: Trace, o: Options, outcome: Outcome, log: seq<Call>) {
    && (outcome == Registered <==> EndsAttached(env, log))
    && (outcome == Denied <==> EndsDenied(env, log))
    && (outcome == Failed <==> EndsFailed(env, log))
    && (outcome == SIMNotReady <==> NeverInserted(env, o, log))
    && (outcome == TimedOut <==> RanOut(env, o, log))
  }

  lemma SeenIsInserted(env: Trace, o: Options, log: seq<Call>)
    requires SIMSeen(env, log)
    ensures !NeverInserted(env, o, log)
  {}

  /** Bring the modem to registered and attached. However the controller behaves: the radio mode and the SIM come
      first; at most one radio cycle, allowed and completed; at most two selections, each as configured, and two
      attaches, the second only after that cycle; at most maxAttempts reads; every reply is answered; and each
      outcome is returned exactly when the calls ended that way. */
  method EnsureRegistration(env: Trace, opts: Options) returns (outcome: Outcome, log: seq<Call>)
    ensures RadioFirst(env, log) && (ReadServing in log ==> SIMSeen(env, log))
    ensures Bounded(env, NormalizeOptions(opts), log) && InTurn(log) && AsConfigured(env.cfg, log)
    ensures AllAnswered(env, NormalizeOptions(opts), log)
    ensures OutcomeFits(env, NormalizeOptions(opts), outcome, log)
  {
    var o := NormalizeOptions(opts);
    outcome, log := Drive(env, o);
    PromptedAsConfigured(env, log);
    forall n: nat | n <= |log| ensures TurnKept(log[..n]) {
      PromptedTurns(env, log, n);
    }
  }

  method Drive(env: Trace, o: Options) returns (outcome: Outcome, log: seq<Call>)
    requires o.maxAttempts > 0 && o.radioCycleAfter > 0
    ensures RadioFirst(env, log) && (ReadServing in log ==> SIMSeen(env, log))
    ensures Bounded(env, o, log) && AllAnswered(env, o, log)
    ensures OutcomeFits(env, o, outcome, log)
  {
    var early;
    early, log := Prepare(env, o);
    CountedCalls(log, ReadServing);
    if early.Some? {
      return early.value, log;
    }
    ghost var prepared := log;
    var f := NO_FLAGS;
    for attempt := 1 to o.maxAttempts + 1
      invariant Progressed(env, o, log, attempt - 1, f) && AllAnswered(env, o, log)
      invariant prepared <= log && RadioFirst(env, log)
      invariant |log| > 0 && log[|log| - 1] != ReadServing && !EndsFailed(env, log)
      invariant attempt > 1 ==> log[|log| - 1] == Sleep
    {
      var outcome';
      outcome', log, f := Round(env, o, log, attempt, f);
      if outcome'.Some? {
        SIMStaysSeen(env, prepared, log);
        SeenIsInserted(env, o, log);
        return outcome'.value, log;
      }
    }
    SIMStaysSeen(env, prepared, log);
    SeenIsInserted(env, o, log);
    return TimedOut, log;
  }

  /** React to a reply that neither ends the driver nor fails. */
  method React(env: Trace, o: Options, ghost before: seq<Call>, log0: seq<Call>, attempt: nat, ss: Serving, f0: Flags)
    returns (ok: bool, log: seq<Call>, f: Flags)
    requires log0 == before + [ReadServing] && env.ok(|before|) && env.serving(|before|) == Some(ss)
    requires 1 <= attempt <= o.maxAttempts && Progressed(env, o, before, attempt - 1, f0) && Progressed(env, o, log0, attempt, f0)
    requires ss.regStatus != 3 && !(ss.regStatus in {1, 5} && ss.psAttached) && AllAnswered(env, o, before)
    ensures log0 <= log && Bounded(env, o, log) && AllAnswered(env, o, log)
    ensures ok ==> Progressed(env, o, log, attempt, f)
    ensures !ok ==> |log| > |log0| && !env.ok(|log| - 1)
  {
    FlagsTell(env, o, before, attempt - 1, f0);
    if ss.regStatus == 1 || ss.regStatus == 5 {
      ok, log, f := AttachOnce(env, o, log0, attempt, f0);
    } else {
      if ss.regStatus == 2 {
        assert SearchingSince(env, log0, |before|);
      }
      ok, log, f := RegisterOnce(env, o, log0, attempt, ss.regStatus == 2, f0);
    }
    assert log[..|before|] == before && log[..|before| + 1] == log0;
    AnswersGrow(env, o, before, log);
  }

  /** Read the serving system; it ends the driver, or says how to go on. */
  method ReadReply(env: Trace, o: Options, log0: seq<Call>, attempt: nat, ghost f0: Flags)
    returns (outcome: Option<Outcome>, log: seq<Call>)
    requires 1 <= attempt <= o.maxAttempts && Progressed(env, o, log0, attempt - 1, f0) && AllAnswered(env, o, log0)
    ensures log == log0 + [ReadServing]
    ensures Progressed(env, o, log, attempt, f0) && Bounded(env, o, log)
    ensures outcome == Some(Registered) <==> EndsAttached(env, log)
    ensures outcome == Some(Denied) <==> EndsDenied(env, log)
    ensures outcome == Some(Failed) <==> EndsFailed(env, log)
    ensures outcome.Some? ==> outcome.value in {Registered, Denied, Failed} && AllAnswered(env, o, log)
  {
    ReadStep(env, o, log0, attempt, f0);
    log := log0 + [ReadServing];
    outcome := None;
    if !env.ok(|log0|) || env.serving(|log0|).None? {
      outcome := Some(Failed);
    } else {
      var ss := env.serving(|log0|).value;
      if (ss.regStatus == 1 || ss.regStatus == 5) && ss.psAttached {
        outcome := Some(Registered);
      } else if ss.regStatus == 3 {
        outcome := Some(Denied);
      }
    }
    if outcome.Some? {
      AnswersGrow(env, o, log0, log);
    }
  }

  lemma SleepStep(env: Trace, o: Options, log: seq<Call>, attempt: nat, f: Flags)
    requires Progressed(env, o, log, attempt, f) && attempt <= o.maxAttempts && AllAnswered(env, o, log)
    ensures Progressed(env, o, log + [Sleep], attempt, f)
    ensures Bounded(env, o, log + [Sleep]) && AllAnswered(env, o, log + [Sleep])
  {
    Uneventful(env, o, log, Sleep, attempt, f);
    AnswersStay(env, o, log, log + [Sleep]);
  }

  /** One round of the polling loop: read, react, sleep. */
  method Round(env: Trace, o: Options, log0: seq<Call>, attempt: nat, f0: Flags)
    returns (outcome: Option<Outcome>, log: seq<Call>, f: Flags)
    requires 1 <= attempt <= o.maxAttempts && Progressed(env, o, log0, attempt - 1, f0) && AllAnswered(env, o, log0)
    ensures Bounded(env, o, log) && AllAnswered(env, o, log)
    ensures outcome == Some(Registered) <==> EndsAttached(env, log)
    ensures outcome == Some(Denied) <==> EndsDenied(env, log)
    ensures outcome == Some(Failed) <==> EndsFailed(env, log)
    ensures outcome.None? ==> Progressed(env, o, log, attempt, f) && |log| > 0 && log[|log| - 1] == Sleep
    ensures outcome.Some? ==> outcome.value in {Registered, Denied, Failed}
    ensures log0 <= log
  {
    f := f0;
    outcome, log := ReadReply(env, o, log0, attempt, f0);
    if outcome.Some? {
      return;
    }
    var ok;
    ok, log, f := React(env, o, log0, log, attempt, env.serving(|log0|).value, f0);
    if !ok {
      return Some(Failed), log, f;
    }
    SleepStep(env, o, log, attempt, f);
    log := log + [Sleep];
    return if env.ok(|log| - 1) then None else Some(Failed), log, f;
  }
}
