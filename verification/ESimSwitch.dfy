/** The table of eSIM switches in progress (internal/device/pool_esim_switch.go). Device ids are taken as
    already trimmed. A token of 0 is the wildcard. */
module ESimSwitchSpec {

  type Device = string

  /** The part of a switch snapshot the protocol looks at; `saved` stands for the remembered radio and
      network state. */
  datatype Context = Context(saved: string, token: nat, identityGeneration: nat, capturedAt: nat, phase: string)

  const PHASE_PREPARE := "prepare"

  /** The two-minute guard after which a switch is dropped, in nanoseconds. */
  const SWITCH_GUARD: nat := 120_000_000_000

  datatype Table = Table(switching: map<Device, bool>, contexts: map<Device, Context>, tokens: map<Device, nat>, seqNo: nat)

  function NewTable(): Table {
    Table(map[], map[], map[], 0)
  }

  function CurrentToken(t: Table, d: Device): nat {
    if d in t.tokens then t.tokens[d] else 0
  }

  function Begin(t: Table, d: Device, saved: string, capturedAt: nat): Table {
    var token := t.seqNo + 1;
    Table(t.switching[d := true], t.contexts[d := Context(saved, token, 0, capturedAt, PHASE_PREPARE)],
          t.tokens[d := token], token)
  }

  function Drop(t: Table, d: Device): Table {
    Table(t.switching - {d}, t.contexts - {d}, t.tokens - {d}, t.seqNo)
  }

  function Timeout(t: Table, d: Device, capturedAt: nat): Table {
    if d !in t.contexts || t.contexts[d].capturedAt != capturedAt then t else Drop(t, d)
  }

  function MarkPhase(t: Table, d: Device, token: nat, phase: string): Table {
    if phase == "" || (token != 0 && CurrentToken(t, d) != token) || d !in t.contexts then t
    else t.(contexts := t.contexts[d := t.contexts[d].(phase := phase)])
  }

  function SetGeneration(t: Table, d: Device, token: nat, generation: nat): Table {
    if generation == 0 || (token != 0 && CurrentToken(t, d) != token) || d !in t.contexts then t
    else t.(contexts := t.contexts[d := t.contexts[d].(identityGeneration := generation)])
  }

  function ClearIfToken(t: Table, d: Device, token: nat): Table {
    if token == 0 || CurrentToken(t, d) != token then t else Drop(t, d)
  }

  /** With the wildcard the switch in progress is ended, under its own token if it has one. */
  function FinishForFailure(t: Table, d: Device, token: nat): Table {
    if token == 0 then
      if d in t.contexts && t.contexts[d].token != 0 then ClearIfToken(t, d, t.contexts[d].token) else Drop(t, d)
    else if CurrentToken(t, d) != token || d !in t.contexts then t
    else Drop(t, d)
  }

  /** The three maps name the same devices and agree on the token; tokens count up and are never shared. */
  ghost predicate InStep(t: Table) {
    && t.switching.Keys == t.contexts.Keys == t.tokens.Keys
    && (forall d :: d in t.tokens ==> t.contexts[d].token == t.tokens[d] && 1 <= t.tokens[d] <= t.seqNo)
    && (forall d, e :: d in t.tokens && e in t.tokens && d != e ==> t.tokens[d] != t.tokens[e])
  }

  lemma BeginKeepsInStep(t: Table, d: Device, saved: string, at: nat)
    requires InStep(t)
    ensures InStep(Begin(t, d, saved, at))
  {
    var b := Begin(t, d, saved, at);
    forall x | x in b.tokens ensures b.contexts[x].token == b.tokens[x] && 1 <= b.tokens[x] <= b.seqNo {
      assert x != d ==> x in t.tokens;
    }
    forall x, y | x in b.tokens && y in b.tokens && x != y ensures b.tokens[x] != b.tokens[y] {
      assert (x != d ==> x in t.tokens) && (y != d ==> y in t.tokens);
    }
  }

  lemma UpdateKeepsInStep(t: Table, d: Device, c: Context)
    requires InStep(t) && d in t.contexts && c.token == t.contexts[d].token
    ensures InStep(t.(contexts := t.contexts[d := c]))
  {
  }

  /** Every operation keeps the maps in step. */
  lemma OperationsKeepInStep(t: Table, d: Device, token: nat, n: nat, phase: string)
    requires InStep(t)
    ensures InStep(Timeout(t, d, n)) && InStep(ClearIfToken(t, d, token))
    ensures InStep(MarkPhase(t, d, token, phase)) && InStep(SetGeneration(t, d, token, n))
  {
    if d in t.contexts {
      UpdateKeepsInStep(t, d, t.contexts[d].(phase := phase));
      UpdateKeepsInStep(t, d, t.contexts[d].(identityGeneration := n));
    }
  }

  /** So does the end of a failed switch, which under the wildcard drops whatever switch is in progress. */
  lemma FailureKeepsInStep(t: Table, d: Device, token: nat)
    requires InStep(t)
    ensures InStep(FinishForFailure(t, d, token)) && (token == 0 ==> FinishForFailure(t, d, token) == Drop(t, d))
  {
    assert token == 0 && d in t.contexts ==> CurrentToken(t, d) == t.contexts[d].token != 0;
  }

  /** An operation that carries a non-zero token other than the device's current one changes nothing. */
  lemma StaleTokenChangesNothing(t: Table, d: Device, token: nat, phase: string, generation: nat)
    requires token != 0 && CurrentToken(t, d) != token
    ensures MarkPhase(t, d, token, phase) == t && SetGeneration(t, d, token, generation) == t
    ensures ClearIfToken(t, d, token) == t && FinishForFailure(t, d, token) == t
  {
  }
}

/** The pool's fields for switches in progress, and the critical sections over them. */
module ESimSwitchObject {
  import opened ESimSwitchSpec

  class SwitchTracker {
    var switchingDevices: map<Device, bool>
    var switchContexts: map<Device, Context>
    var switchTokens: map<Device, nat>
    var switchSeq: nat

    ghost function View(): Table
      reads this
    {
      Table(switchingDevices, switchContexts, switchTokens, switchSeq)
    }

    constructor ()
      ensures View() == NewTable()
    {
      switchingDevices, switchContexts, switchTokens, switchSeq := map[], map[], map[], 0;
    }

    method BeginSwitch(d: Device, saved: string, capturedAt: nat) returns (token: nat)
      modifies this
      ensures View() == Begin(old(View()), d, saved, capturedAt)
      ensures token == switchSeq > old(switchSeq)
    {
      switchSeq := switchSeq + 1;
      token := switchSeq;
      switchingDevices := switchingDevices[d := true];
      switchContexts := switchContexts[d := Context(saved, token, 0, capturedAt, PHASE_PREPARE)];
      switchTokens := switchTokens[d := token];
    }

    method DropSwitch(d: Device)
      modifies this
      ensures View() == Drop(old(View()), d)
    {
      switchContexts := switchContexts - {d};
      switchingDevices := switchingDevices - {d};
      switchTokens := switchTokens - {d};
    }

    method TimeoutSwitch(d: Device, capturedAt: nat)
      modifies this
      ensures View() == Timeout(old(View()), d, capturedAt)
    {
      if d !in switchContexts || switchContexts[d].capturedAt != capturedAt {
        return;
      }
      DropSwitch(d);
    }

    method TokenOf(d: Device) returns (token: nat)
      ensures token == CurrentToken(View(), d)
    {
      token := if d in switchTokens then switchTokens[d] else 0;
    }

    method MarkPhaseIfToken(d: Device, token: nat, phase: string) returns (known: bool)
      modifies this
      ensures View() == MarkPhase(old(View()), d, token, phase)
      ensures known <==> phase != "" && d in old(switchContexts) && (token == 0 || CurrentToken(old(View()), d) == token)
    {
      if phase == "" {
        return false;
      }
      var current := TokenOf(d);
      if token != 0 && current != token {
        return false;
      }
      if d in switchContexts {
        switchContexts := switchContexts[d := switchContexts[d].(phase := phase)];
        return true;
      }
      return false;
    }

    method UpdateIdentityGeneration(d: Device, token: nat, generation: nat)
      modifies this
      ensures View() == SetGeneration(old(View()), d, token, generation)
    {
      if generation == 0 {
        return;
      }
      var current := TokenOf(d);
      if token != 0 && current != token {
        return;
      }
      if d in switchContexts {
        switchContexts := switchContexts[d := switchContexts[d].(identityGeneration := generation)];
      }
    }

    method ClearSwitchIfToken(d: Device, token: nat)
      modifies this
      ensures View() == ClearIfToken(old(View()), d, token)
    {
      if token == 0 {
        return;
      }
      var current := TokenOf(d);
      if current != token {
        return;
      }
      DropSwitch(d);
    }

    /** The failure path: hand out the snapshot and end the switch, or do nothing for a token that is not
        current. `live` is the snapshot taken when there is none to hand out. */
    method FinishSwitchForFailure(d: Device, token: nat, live: Context) returns (snapshot: Context, ok: bool)
      modifies this
      ensures View() == FinishForFailure(old(View()), d, token)
      ensures ok <==> token == 0 || (CurrentToken(old(View()), d) == token && d in old(switchContexts))
      ensures ok ==> snapshot == if d in old(switchContexts) then old(switchContexts)[d] else live
    {
      snapshot := live;
      if token == 0 {
        if d in switchContexts {
          snapshot := switchContexts[d];
        }
        if d in switchContexts && snapshot.token != 0 {
          ClearSwitchIfToken(d, snapshot.token);
        } else {
          DropSwitch(d);
        }
        return snapshot, true;
      }
      var current := TokenOf(d);
      if current != token || d !in switchContexts {
        return snapshot, false;
      }
      snapshot := switchContexts[d];
      DropSwitch(d);
      return snapshot, true;
    }

    /** The snapshot that post-switch handling works with; with the wildcard any snapshot will do. */
    method ResolveSnapshot(d: Device, token: nat, live: Context) returns (snapshot: Context, ok: bool)
      ensures ok <==> token == 0 || (CurrentToken(View(), d) == token && d in switchContexts)
      ensures ok ==> snapshot == if d in switchContexts then switchContexts[d] else live
    {
      snapshot := if d in switchContexts then switchContexts[d] else live;
      if token == 0 {
        return snapshot, true;
      }
      var current := TokenOf(d);
      ok := current == token && d in switchContexts;
    }
  }
}

/** All interleavings of switch starts, guard timers, finalisers, failures and phase reports. */
module ESimSwitchSystem {
  import opened ESimSwitchSpec

  /** A running guard timer, with the token of the switch that started it. The code keeps no such token:
      it recognises its switch by the capture time alone. */
  datatype Timer = Timer(device: Device, capturedAt: nat, token: nat, due: nat)

  /** A finaliser that resolved its snapshot: the token it was called with and the one in the snapshot. */
  datatype Finaliser = Finaliser(device: Device, token: nat, snapshotToken: nat)

  datatype Sys = Sys(table: Table, now: nat, timers: seq<Timer>, finalisers: map<nat, Finaliser>)

  datatype Event =
    | Start(device: Device, saved: string, capturedAt: nat)
    | Guard(i: nat)
    | Phase(device: Device, token: nat, phase: string)
    | Generation(device: Device, token: nat, generation: nat)
    | Failed(device: Device, token: nat)
    | Resolve(f: nat, device: Device, token: nat)
    | Finalise(f: nat)
    | Tick(d: nat)

  /** A start may carry any capture time up to now: the snapshot is taken before the mutex is locked. */
  ghost predicate Enabled(s: Sys, e: Event) {
    match e
    case Start(d, saved, at) => at <= s.now
    case Guard(i) => i < |s.timers| && s.timers[i].due <= s.now
    case Phase(d, token, phase) => true
    case Generation(d, token, g) => token != 0
    case Failed(d, token) => token != 0
    case Resolve(f, d, token) => f !in s.finalisers && token != 0 && CurrentToken(s.table, d) == token && d in s.table.contexts
    case Finalise(f) => f in s.finalisers
    case Tick(d) => true
  }

  ghost function Next(s: Sys, e: Event): Sys
    requires Enabled(s, e)
  {
    match e
    case Start(d, saved, at) =>
      var t := Begin(s.table, d, saved, at);
      s.(table := t, timers := s.timers + [Timer(d, at, t.seqNo, s.now + SWITCH_GUARD)])
    case Guard(i) =>
      s.(table := Timeout(s.table, s.timers[i].device, s.timers[i].capturedAt), timers := s.timers[..i] + s.timers[i + 1..])
    case Phase(d, token, phase) => s.(table := MarkPhase(s.table, d, token, phase))
    case Generation(d, token, g) => s.(table := SetGeneration(s.table, d, token, g))
    case Failed(d, token) => s.(table := FinishForFailure(s.table, d, token))
    case Resolve(f, d, token) =>
      s.(finalisers := s.finalisers[f := Finaliser(d, token, s.table.contexts[d].token)])
    case Finalise(f) =>
      s.(table := ClearIfToken(s.table, s.finalisers[f].device, s.finalisers[f].snapshotToken), finalisers := s.finalisers - {f})
    case Tick(d) => s.(now := s.now + d)
  }

  ghost predicate IsStep(s: Sys, e: Event, s': Sys) {
    Enabled(s, e) && s' == Next(s, e)
  }

  function Init(): Sys {
    Sys(NewTable(), 0, [], map[])
  }

  ghost predicate StepAt(run: seq<Sys>, events: seq<Event>, k: nat)
    requires |run| == |events| + 1 && k < |events|
  {
    IsStep(run[k], events[k], run[k + 1])
  }

  ghost predicate IsRun(run: seq<Sys>, events: seq<Event>) {
    && |run| == |events| + 1 && run[0] == Init()
    && forall k: nat :: k < |events| ==> StepAt(run, events, k)
  }

  ghost predicate Inv(s: Sys) {
    && InStep(s.table)
    && (forall f :: f in s.finalisers ==> s.finalisers[f].snapshotToken == s.finalisers[f].token && s.finalisers[f].token != 0)
    && (forall i :: 0 <= i < |s.timers| ==> 1 <= s.timers[i].token <= s.table.seqNo)
  }

  lemma StepKeepsInStep(s: Sys, e: Event, s': Sys)
    requires InStep(s.table) && IsStep(s, e, s')
    ensures InStep(s'.table) && s'.table.seqNo == s.table.seqNo + if e.Start? then 1 else 0
  {
    match e
    case Start(d, saved, at) => BeginKeepsInStep(s.table, d, saved, at);
    case Guard(i) => OperationsKeepInStep(s.table, s.timers[i].device, 0, s.timers[i].capturedAt, "");
    case Phase(d, token, phase) => OperationsKeepInStep(s.table, d, token, 0, phase);
    case Generation(d, token, g) => OperationsKeepInStep(s.table, d, token, g, "");
    case Failed(d, token) => FailureKeepsInStep(s.table, d, token);
    case Resolve(f, d, token) =>
    case Finalise(f) => OperationsKeepInStep(s.table, s.finalisers[f].device, s.finalisers[f].snapshotToken, 0, "");
    case Tick(d) =>
  }

  lemma StepKeepsInv(s: Sys, e: Event, s': Sys)
    requires Inv(s) && IsStep(s, e, s')
    ensures Inv(s')
  {
    StepKeepsInStep(s, e, s');
  }

  /** In every state of every run the three maps are in step. */
  lemma {:induction false} RunKeepsInv(run: seq<Sys>, events: seq<Event>, k: nat)
    requires IsRun(run, events) && k < |run|
    ensures Inv(run[k])
  {
    if k > 0 {
      RunKeepsInv(run, events, k - 1);
      assert StepAt(run, events, k - 1);
      StepKeepsInv(run[k - 1], events[k - 1], run[k]);
    }
  }

  // ---------- Who may end or alter a switch

  /** Switch `token` of device d is in progress. */
  ghost predicate Alive(s: Sys, d: Device, token: nat) {
    token != 0 && CurrentToken(s.table, d) == token
  }

  /** The switch is in progress in both states, with the same snapshot, phase and identity generation. */
  ghost predicate Untouched(s: Sys, s': Sys, d: Device, token: nat) {
    && Alive(s, d, token) && Alive(s', d, token)
    && d in s.table.contexts && d in s'.table.contexts && s'.table.contexts[d] == s.table.contexts[d]
  }

  /** The event acts for this very switch. */
  ghost predicate Carries(s: Sys, e: Event, d: Device, token: nat) {
    match e
    case Phase(x, k, _) => x == d && k == token
    case Generation(x, k, _) => x == d && k == token
    case Failed(x, k) => x == d && k == token
    case Finalise(f) => f in s.finalisers && s.finalisers[f].device == d && s.finalisers[f].token == token
    case Guard(i) => i < |s.timers| && s.timers[i].device == d && s.timers[i].token == token
    case _ => false
  }

  /** A guard timer goes off whose capture time is that of the switch in progress on its device. */
  ghost predicate GuardMatches(s: Sys, e: Event, d: Device) {
    && e.Guard? && e.i < |s.timers| && s.timers[e.i].device == d
    && d in s.table.contexts && s.timers[e.i].capturedAt == s.table.contexts[d].capturedAt
  }

  /** A phase report under the wildcard token, as a finaliser sends it that does not check whether it is stale. */
  predicate WildcardPhase(e: Event, d: Device) {
    e.Phase? && e.device == d && e.token == 0
  }

  /** The switch is in progress in both states, with the same snapshot and identity generation; only its phase
      may differ. */
  ghost predicate Kept(s: Sys, s': Sys, d: Device, token: nat) {
    && Alive(s, d, token) && Alive(s', d, token)
    && d in s.table.contexts && d in s'.table.contexts
    && s'.table.contexts[d] == s.table.contexts[d].(phase := s'.table.contexts[d].phase)
  }

  /** A step that ends or alters a switch acts for it, starts the next one on its device, is a guard timer that
      carries its capture time, or is a phase report under the wildcard, which changes nothing but the phase. */
  lemma OnlyItsOwnStepsTouchIt(s: Sys, e: Event, s': Sys, d: Device, token: nat)
    requires Inv(s) && IsStep(s, e, s') && Alive(s, d, token) && !Untouched(s, s', d, token)
    ensures || Carries(s, e, d, token) || (e.Start? && e.device == d) || GuardMatches(s, e, d)
            || (WildcardPhase(e, d) && Kept(s, s', d, token))
  {
  }

  lemma {:induction false} SeqNoGrows(run: seq<Sys>, events: seq<Event>, i: nat, j: nat)
    requires IsRun(run, events) && i <= j < |run|
    ensures run[i].table.seqNo <= run[j].table.seqNo
  {
    if i < j {
      SeqNoGrows(run, events, i, j - 1);
      RunKeepsInv(run, events, j - 1);
      assert StepAt(run, events, j - 1);
      StepKeepsInStep(run[j - 1], events[j - 1], run[j]);
    }
  }

  lemma StartIssues(s: Sys, e: Event, s': Sys)
    requires IsStep(s, e, s') && e.Start?
    ensures CurrentToken(s'.table, e.device) == s'.table.seqNo == s.table.seqNo + 1
  {
  }

  /** Every start issues a token greater than all issued before it. */
  lemma TokensIncrease(run: seq<Sys>, events: seq<Event>, i: nat, j: nat)
    requires IsRun(run, events) && i < j < |events| && events[i].Start? && events[j].Start?
    ensures CurrentToken(run[i + 1].table, events[i].device) < CurrentToken(run[j + 1].table, events[j].device)
  {
    assert StepAt(run, events, i) && StepAt(run, events, j);
    StartIssues(run[i], events[i], run[i + 1]);
    StartIssues(run[j], events[j], run[j + 1]);
    SeqNoGrows(run, events, i + 1, j);
  }

  // ---------- Guards and their switches

  /** A start finds no pending guard of its device with its capture time. */
  ghost predicate FreshCapture(s: Sys, e: Event) {
    e.Start? ==> forall i :: 0 <= i < |s.timers| && s.timers[i].device == e.device ==> s.timers[i].capturedAt != e.capturedAt
  }

  /** Every pending guard that would drop the switch in progress on its device was started by that switch. */
  ghost predicate GuardsKnow(s: Sys) {
    forall i :: 0 <= i < |s.timers| && GuardMatches(s, Guard(i), s.timers[i].device) ==> IsOwnGuard(s, i)
  }

  ghost predicate IsOwnGuard(s: Sys, i: nat) {
    && i < |s.timers| && s.timers[i].device in s.table.contexts
    && s.timers[i].token == s.table.contexts[s.timers[i].device].token
  }

  lemma StartDecides(s: Sys, e: Event, s': Sys)
    requires Inv(s) && IsStep(s, e, s') && GuardsKnow(s) && e.Start?
    ensures GuardsKnow(s') <==> FreshCapture(s, e)
  {
    forall i | 0 <= i < |s.timers| ensures s'.timers[i] == s.timers[i] {}
    if GuardsKnow(s') {
      forall i | 0 <= i < |s.timers| && s.timers[i].device == e.device ensures s.timers[i].capturedAt != e.capturedAt {
        assert GuardMatches(s', Guard(i), e.device) ==> IsOwnGuard(s', i);
      }
    }
    if FreshCapture(s, e) {
      forall i | 0 <= i < |s'.timers| && GuardMatches(s', Guard(i), s'.timers[i].device) ensures IsOwnGuard(s', i) {
        if i < |s.timers| && s.timers[i].device != e.device {
          assert GuardMatches(s, Guard(i), s.timers[i].device);
        }
      }
    }
  }

  lemma OthersKeepGuards(s: Sys, e: Event, s': Sys)
    requires Inv(s) && IsStep(s, e, s') && GuardsKnow(s) && !e.Start?
    ensures GuardsKnow(s')
  {
    forall i | 0 <= i < |s'.timers| && GuardMatches(s', Guard(i), s'.timers[i].device) ensures IsOwnGuard(s', i) {
      var j := if e.Guard? && i >= e.i then i + 1 else i;
      assert s.timers[j] == s'.timers[i];
      assert GuardMatches(s, Guard(j), s.timers[j].device);
      assert IsOwnGuard(s, j);
    }
  }

  lemma {:induction false} FreshRunKnows(run: seq<Sys>, events: seq<Event>, k: nat)
    requires IsRun(run, events) && k < |run| && forall i :: 0 <= i < k ==> FreshCapture(run[i], events[i])
    ensures GuardsKnow(run[k])
  {
    if k > 0 {
      FreshRunKnows(run, events, k - 1);
      RunKeepsInv(run, events, k - 1);
      assert StepAt(run, events, k - 1);
      if events[k - 1].Start? {
        StartDecides(run[k - 1], events[k - 1], run[k]);
      } else {
        OthersKeepGuards(run[k - 1], events[k - 1], run[k]);
      }
    }
  }

  /** In every state every guard that would drop a switch is that switch's own, if and only if every start finds
      no pending guard of its device with its capture time. */
  lemma GuardsKnowTheirSwitch(run: seq<Sys>, events: seq<Event>)
    requires IsRun(run, events)
    ensures (forall k :: 0 <= k < |events| ==> FreshCapture(run[k], events[k])) <==> (forall k :: 0 <= k < |run| ==> GuardsKnow(run[k]))
  {
    if forall k :: 0 <= k < |events| ==> FreshCapture(run[k], events[k]) {
      forall k | 0 <= k < |run| ensures GuardsKnow(run[k]) {
        FreshRunKnows(run, events, k);
      }
    }
    if forall k :: 0 <= k < |run| ==> GuardsKnow(run[k]) {
      forall k | 0 <= k < |events| ensures FreshCapture(run[k], events[k]) {
        RunKeepsInv(run, events, k);
        assert StepAt(run, events, k) && GuardsKnow(run[k]) && GuardsKnow(run[k + 1]);
        if events[k].Start? {
          StartDecides(run[k], events[k], run[k + 1]);
        }
      }
    }
  }

  // ---------- Stale steps are harmless

  lemma OwnGuardCarries(s: Sys, e: Event, d: Device, token: nat)
    requires Inv(s) && GuardsKnow(s) && Alive(s, d, token) && GuardMatches(s, e, d)
    ensures Carries(s, e, d, token)
  {
    assert GuardMatches(s, Guard(e.i), s.timers[e.i].device);
    assert IsOwnGuard(s, e.i);
  }

  lemma KeptAt(run: seq<Sys>, events: seq<Event>, k: nat, d: Device, token: nat)
    requires IsRun(run, events) && k < |events| && Alive(run[k], d, token)
    requires forall i :: 0 <= i < k ==> FreshCapture(run[i], events[i])
    requires !Carries(run[k], events[k], d, token) && !(events[k].Start? && events[k].device == d)
    ensures Kept(run[k], run[k + 1], d, token)
    ensures !WildcardPhase(events[k], d) ==> Untouched(run[k], run[k + 1], d, token)
  {
    RunKeepsInv(run, events, k);
    FreshRunKnows(run, events, k);
    assert StepAt(run, events, k);
    var s, e, s' := run[k], events[k], run[k + 1];
    if GuardMatches(s, e, d) {
      OwnGuardCarries(s, e, d, token);
    }
    if !Untouched(s, s', d, token) {
      OnlyItsOwnStepsTouchIt(s, e, s', d, token);
    }
  }

  /** From any state on, a switch in progress stays so, with its snapshot, capture time and identity generation,
      until a step acts for it or a new switch starts on its device: no finaliser, failure, phase report or guard
      of an older switch clears or alters it, except that a phase report under the wildcard changes its phase. */
  lemma {:induction false} SwitchSurvivesStaleSteps(run: seq<Sys>, events: seq<Event>, first: nat, last: nat, d: Device, token: nat)
    requires IsRun(run, events) && first <= last < |run| && Alive(run[first], d, token)
    requires forall k :: 0 <= k < last ==> FreshCapture(run[k], events[k])
    requires forall k :: first <= k < last ==>
               !Carries(run[k], events[k], d, token) && !(events[k].Start? && events[k].device == d)
    ensures Kept(run[first], run[last], d, token)
    ensures (forall k :: first <= k < last ==> !WildcardPhase(events[k], d)) ==> Untouched(run[first], run[last], d, token)
  {
    RunKeepsInv(run, events, first);
    if first < last {
      SwitchSurvivesStaleSteps(run, events, first, last - 1, d, token);
      KeptAt(run, events, last - 1, d, token);
    }
  }

  // ---------- What a step does to the maps

  /** The entries of all other devices are as they were. */
  ghost predicate OthersStay(t: Table, t': Table, d: Device) {
    forall x :: x != d ==>
      && (x in t'.switching <==> x in t.switching) && (x in t'.contexts <==> x in t.contexts) && (x in t'.tokens <==> x in t.tokens)
      && (x in t.switching && x in t'.switching ==> t'.switching[x] == t.switching[x])
      && (x in t.contexts && x in t'.contexts ==> t'.contexts[x] == t.contexts[x])
      && (x in t.tokens && x in t'.tokens ==> t'.tokens[x] == t.tokens[x])
  }

  /** A start stores what was captured, under the next token, and arms a guard of two minutes. */
  lemma StartRecords(s: Sys, e: Event, s': Sys)
    requires IsStep(s, e, s') && e.Start?
    ensures var token := s.table.seqNo + 1;
            && e.device in s'.table.switching && s'.table.switching[e.device]
            && e.device in s'.table.contexts && s'.table.contexts[e.device] == Context(e.saved, token, 0, e.capturedAt, "prepare")
            && e.device in s'.table.tokens && s'.table.tokens[e.device] == token
            && OthersStay(s.table, s'.table, e.device)
            && s'.timers == s.timers + [Timer(e.device, e.capturedAt, token, s.now + 120_000_000_000)]
  {}

  /** A report under the current token is recorded, and changes nothing else. */
  lemma ReportsAreRecorded(s: Sys, e: Event, s': Sys)
    requires InStep(s.table) && IsStep(s, e, s')
    requires (e.Phase? && e.phase != "") || (e.Generation? && e.generation != 0)
    requires e.device in s.table.contexts && (e.token == 0 || s.table.tokens[e.device] == e.token)
    ensures s'.table.switching == s.table.switching && s'.table.tokens == s.table.tokens && OthersStay(s.table, s'.table, e.device)
    ensures e.device in s'.table.contexts
    ensures e.Phase? ==> s'.table.contexts[e.device] == s.table.contexts[e.device].(phase := e.phase)
    ensures e.Generation? ==> s'.table.contexts[e.device] == s.table.contexts[e.device].(identityGeneration := e.generation)
  {}

  /** What ends a switch that was captured at that time: its failure, its finaliser, a guard with its capture time, and
      the next start on its device. */
  ghost predicate Ends(s: Sys, e: Event, d: Device, token: nat, at: nat) {
    match e
    case Start(x, _, _) => x == d
    case Failed(x, k) => x == d && k == token
    case Finalise(f) => f in s.finalisers && s.finalisers[f].device == d && s.finalisers[f].token == token
    case Guard(i) => i < |s.timers| && s.timers[i].device == d && s.timers[i].capturedAt == at
    case _ => false
  }

  /** Unless a new switch takes its place, the device is then in none of the maps, and no other device is touched. */
  lemma EndClearsTheDevice(s: Sys, e: Event, s': Sys, d: Device, token: nat)
    requires Inv(s) && IsStep(s, e, s') && Alive(s, d, token) && !e.Start?
    requires d in s.table.contexts && Ends(s, e, d, token, s.table.contexts[d].capturedAt)
    ensures d !in s'.table.switching && d !in s'.table.contexts && d !in s'.table.tokens
    ensures OthersStay(s.table, s'.table, d) && s'.table.seqNo == s.table.seqNo
  {}

  /** The switch is in progress, with what was captured for it. */
  ghost predicate Carried(s: Sys, d: Device, token: nat, saved: string, at: nat) {
    && Alive(s, d, token) && d in s.table.switching && d in s.table.contexts
    && s.table.contexts[d].token == token && s.table.contexts[d].saved == saved && s.table.contexts[d].capturedAt == at
  }

  lemma CarriedStep(s: Sys, e: Event, s': Sys, d: Device, token: nat, saved: string, at: nat)
    requires Inv(s) && IsStep(s, e, s') && Carried(s, d, token, saved, at)
    ensures if Ends(s, e, d, token, at) then !Alive(s', d, token) else Carried(s', d, token, saved, at)
  {
    if Ends(s, e, d, token, at) && !e.Start? {
      EndClearsTheDevice(s, e, s', d, token);
    }
  }

  /** Step j started the switch and no step before state k ended it. */
  ghost predicate InProgress(run: seq<Sys>, events: seq<Event>, j: nat, k: nat) {
    && j < k < |run| == |events| + 1 && events[j].Start?
    && forall i :: j < i < k ==> !Ends(run[i], events[i], events[j].device, run[j].table.seqNo + 1, events[j].capturedAt)
  }

  lemma {:induction false} ProgressCarries(run: seq<Sys>, events: seq<Event>, j: nat, k: nat)
    requires IsRun(run, events) && InProgress(run, events, j, k)
    ensures Carried(run[k], events[j].device, run[j].table.seqNo + 1, events[j].saved, events[j].capturedAt)
    decreases k
  {
    RunKeepsInv(run, events, k - 1);
    assert StepAt(run, events, k - 1);
    if j + 1 < k {
      ProgressCarries(run, events, j, k - 1);
      CarriedStep(run[k - 1], events[k - 1], run[k], events[j].device, run[j].table.seqNo + 1, events[j].saved, events[j].capturedAt);
    }
  }

  lemma {:induction false} EndingOf(run: seq<Sys>, events: seq<Event>, j: nat, k: nat) returns (i: nat)
    requires IsRun(run, events) && j < k < |run| && events[j].Start? && !InProgress(run, events, j, k)
    ensures j < i < k && InProgress(run, events, j, i)
    ensures Ends(run[i], events[i], events[j].device, run[j].table.seqNo + 1, events[j].capturedAt)
    decreases k
  {
    if InProgress(run, events, j, k - 1) {
      i := k - 1;
    } else {
      i := EndingOf(run, events, j, k - 1);
    }
  }

  /** A switch is in progress, with what was captured at its start, from the step that starts it until its failure, its
      finaliser, a guard with its capture time or the next start on its device, and never afterwards. */
  lemma SwitchesInProgress(run: seq<Sys>, events: seq<Event>, j: nat, k: nat)
    requires IsRun(run, events) && j < k < |run| && events[j].Start?
    ensures var d, token := events[j].device, run[j].table.seqNo + 1;
            if InProgress(run, events, j, k) then Carried(run[k], d, token, events[j].saved, events[j].capturedAt)
            else !Alive(run[k], d, token)
  {
    if InProgress(run, events, j, k) {
      ProgressCarries(run, events, j, k);
    } else {
      var i := EndingOf(run, events, j, k);
      var d, token := events[j].device, run[j].table.seqNo + 1;
      ProgressCarries(run, events, j, i);
      RunKeepsInv(run, events, i);
      assert StepAt(run, events, i);
      CarriedStep(run[i], events[i], run[i + 1], d, token, events[j].saved, events[j].capturedAt);
      assert StepAt(run, events, j);
      SeqNoGrows(run, events, j + 1, i + 1);
      EndedForGood(run, events, i + 1, k, d, token);
    }
  }

  /** A guard goes off two minutes after the start it belongs to, or later. */
  lemma {:induction false} GuardsWait(run: seq<Sys>, events: seq<Event>, k: nat, i: nat) returns (j: nat)
    requires IsRun(run, events) && k < |run| && i < |run[k].timers|
    ensures j < k && events[j].Start? && run[k].timers[i].due == run[j].now + 120_000_000_000
    ensures run[k].timers[i].device == events[j].device && run[k].timers[i].capturedAt == events[j].capturedAt
    ensures run[k].timers[i].token == run[j].table.seqNo + 1
  {
    assert k > 0;
    assert StepAt(run, events, k - 1);
    var s, e := run[k - 1], events[k - 1];
    if e.Start? && i == |s.timers| {
      j := k - 1;
    } else {
      j := GuardsWait(run, events, k - 1, if e.Guard? && i >= e.i then i + 1 else i);
    }
  }

  lemma NotRevived(s: Sys, e: Event, s': Sys, d: Device, token: nat)
    requires InStep(s.table) && IsStep(s, e, s') && token <= s.table.seqNo && !Alive(s, d, token)
    ensures !Alive(s', d, token)
  {
  }

  /** Once a switch has ended it never comes back: its token is not issued again. */
  lemma {:induction false} EndedForGood(run: seq<Sys>, events: seq<Event>, first: nat, last: nat, d: Device, token: nat)
    requires IsRun(run, events) && first <= last < |run|
    requires token <= run[first].table.seqNo && !Alive(run[first], d, token)
    ensures !Alive(run[last], d, token)
  {
    if first < last {
      EndedForGood(run, events, first, last - 1, d, token);
      RunKeepsInv(run, events, last - 1);
      SeqNoGrows(run, events, first, last - 1);
      assert StepAt(run, events, last - 1);
      NotRevived(run[last - 1], events[last - 1], run[last], d, token);
    }
  }

  // ---------- Equal capture times

  /** Two switches of one device captured at the same instant: the older one's timer drops the newer
      switch a nanosecond before that switch's own guard is due. */
  lemma EqualCapturesCollide(d: Device, a: string, b: string) returns (run: seq<Sys>, events: seq<Event>)
    ensures IsRun(run, events) && |events| == 5 && events[4] == Guard(0)
    ensures |run[4].timers| == 2 && run[4].timers[0].token == 1 && run[4].timers[1].token == 2
    ensures run[4].timers[1].due > run[4].now
    ensures Alive(run[4], d, 2) && !Alive(run[5], d, 2)
  {
    var first, second := Start(d, a, 0), Start(d, b, 0);
    events := [first, Tick(1), second, Tick(SWITCH_GUARD - 1), Guard(0)];
    var s0 := Init();
    var s1 := Next(s0, first);
    var s2 := Next(s1, Tick(1));
    var s3 := Next(s2, second);
    var s4 := Next(s3, Tick(SWITCH_GUARD - 1));
    assert s4.timers == [Timer(d, 0, 1, SWITCH_GUARD), Timer(d, 0, 2, SWITCH_GUARD + 1)];
    run := [s0, s1, s2, s3, s4, Next(s4, Guard(0))];
    forall k: nat | k < 5 ensures StepAt(run, events, k) {}
  }
}
