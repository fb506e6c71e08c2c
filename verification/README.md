# Verified models of the modem manager's protocols and tables

This project models the parts of the repository whose correctness does not show from reading one function, and
proves what they keep. `dafny verify dfyconfig.toml` checks all of it.

| what | files |
|---|---|
| the arbiter of one SIM card's APDU channel | `ArbiterSpec`, `ArbiterRules`, `ArbiterGrants`, `ArbiterSystem`, `ArbiterTheorems`, `ArbiterHolds`, `ArbiterLostWakeup`, `Arbiter` |
| the single-flight gate in front of SIM authentication | `SIMAuth` |
| eSIM switch tokens | `ESimSwitch` |
| the MBIM registration driver | `MBIMRegistration` |
| messages, their contact index and paging | `MessageOrder`, `MessageIndex`, `MessageStore`, `MessageTable`, `MessagePages`, `SMS` |
| device identity resolution | `Deduplication`, `Matching`, `SharedIds`, `Identity` |
| traffic tables, rollups and chart | `TrafficRollup`, `TrafficRuns`, `TrafficWeeks`, `TrafficStore`, `TrafficChart`, `TrafficRanges` |
| reading the end of a log file | `LastLines` |
| the card policy merge | `PolicyMerge`, `CardPolicy` |

Code that changes fields is a class (`Arbiter`, `SIMAuthGate`, `SwitchTracker`, `MessageTable`, `TrafficTables`,
`PolicyTable`); its methods keep the loops and branches of the original and are proved equal, through `View()`, to
functions on values. Protocols are then small-step systems over those functions: an event is one critical section of
the mutex, one timer event, the end of a context or the passing of time, and theorems hold for every list of events.
The driver is run against an arbitrary controller: each reply is a free function of the number of calls before it.
String keys are kept out of the long proofs: deduplication, matching, message index, traffic and policy merge are
proved for any key type and then used with the program's own keys in `Identity`, `SMS` and `CardPolicy`. Traffic
series and tags stay abstract.

## What the proofs found

- **A wake-up can be lost.** The arbiter signals when queue or leases change, but not when a ticket crosses the aging
  limit of 500 ms. `ArbiterLostWakeup.WakeupIsLost` is a run of eleven steps after which no lease is active, two requests
  sleep, and one of them is grantable. `ArbiterTheorems.SleepersMissOnlyAging` shows that this is the only way: a
  sleeper is grantable exactly when it is the transport that came of age since its last check.
- **Guard timers recognise a switch by its capture time alone.** Two switches of one device captured in the same
  nanosecond share a guard (`ESimSwitchSystem.EqualCapturesCollide`). `ESimSwitchSystem.GuardsKnowTheirSwitch` gives the
  exact condition: in every state of a run every guard that would drop a switch is that switch's own, if and only if
  each start finds no pending guard of its device with its capture time.
- **Trailing newlines can hide the text.** `readLastLines` counts newlines before it trims blank lines, so a line
  followed by a block of newlines is not found (`LastLines.TrailingNewlinesHideTheText`).
- **Half a space is shown as text.** If the part read starts inside a multi-byte space such as C2 A0, on a line that is
  otherwise blank with only blank lines behind it, the remaining byte is no space and is shown as a line
  (`LastLines.CutSpaceIsShown`). `LastLines.WindowIsExact` says for every blank test and every offset exactly when the part
  read gives the answer of the whole file, with this case apart.
- **Two configurations with one id** hide each other: one is neither matched nor offline
  (`Matching.SharedIdHidesConfig`). `SharedIds.SharedIdsDecide` says exactly when: whatever hardware is found every
  configuration is shown, if and only if none that hardware can be matched to shares its id with another.
- **Messages saved out of order** leave the contact showing an older message, and a backfill does not repair it unless
  some peer is missing; recomputing the thread does. The unread count stays right in any order.
- **Messages without a time** make a page repeat (`MessagePages.ZeroTimeRepeats`): no page size shows a message twice if
  and only if every message without a time has only such messages among the smaller ids (`MessagePages.WalksOnce`).
  Deleting a message without an IMSI does not recompute its contact; this has its exact condition too.
- **A day of 25 hours** is shown twice in the analysis (`TrafficRanges.LongDayShowsTwice`), and after it the rows of
  the current day can be read and dropped until 23:00 (`TrafficRanges.CurrentDayIsDropped`; when exactly, says
  `TrafficRanges.CurrentRowsAreShown`). What the buckets show and what was dropped is always what was read and what is
  shown again (`TrafficChart.BucketsAccount`); the buckets hold exactly what was read, whatever that is, if and only if
  every step of 24 hours leads into the very next day and the last one into the current day
  (`TrafficRanges.AnalysisConserves`).
- **Weeks and months outside of UTC lack a day.** Rows of days start at midnight of UTC, weeks and months at local
  midnight, when the last UTC day of the window is not over: its row comes later and is in no other window
  (`TrafficWeeks.WeekLacksItsEnd`). The row is the sum of the week or month exactly when what was measured outside of its
  whole UTC days makes no difference (`TrafficWeeks.RollupIsTheSum`, over runs `TrafficWeeks.WeekOfRun`).
- **`CanonicalICCID` is not idempotent** for odd quoting. Two stored numbers can then stand in each other's way during
  the merge, depending on the order in which the groups are visited (`PolicyMerge.ClashStopsTheMerge`).
- **The card policy migration is not idempotent**, although the comment on `MigrateCardPolicyCanonicalICCID` says so: a
  row numbered `89"F` moves to `89"` and on the next start to `89` (`CardPolicy.OddQuotingMigratesTwice`). A migrated
  table is what a second migration leaves if and only if every canonical number that was stored is its own canonical
  form or canonically empty (`CardPolicy.MigratesOnce`).

## Model

| member | source | states |
|---|---|---|
| ArbiterSpec.NormalizeOptions | internal/apduarbiter/arbiter.go:176-191 | every option is positive: one that was is kept, any other gets its default |
| ArbiterSpec.TicketsAreWellFormed | internal/apduarbiter/arbiter.go:894-924 | every ticket built from a request has a class, a channel scope only for a transport with a positive channel, and blocked classes exactly when it is a barrier |
| ArbiterSpec.LeaseTicketsKeepTheRequest | internal/apduarbiter/arbiter.go:898-924 | a lease ticket keeps the request's fields; a missing class is USIMAKA for a one-shot and EUICCWrite otherwise; only a transport on a positive channel in QMI mode shares the card |
| ArbiterSpec.BarrierTicketsBlock | internal/apduarbiter/arbiter.go:203-231 | a barrier blocks exactly the classes it names, where an empty name stands for USIMAKA, and USIMAKA and SMSC when it names none |
| ArbiterRules.SelectedIsUnique | internal/apduarbiter/arbiter.go:526-571 | at most one transport is selected |
| ArbiterRules.SelectedExists | internal/apduarbiter/arbiter.go:526-571 | a transport is selected exactly when some transport is eligible |
| ArbiterRules.NoLeaseOvertakesBarrier | internal/apduarbiter/arbiter.go:481-505 | a grantable lease has only transports ahead of it, and nothing at all unless it is a transport itself |
| ArbiterRules.PendingBarrierTestIsImplied | internal/apduarbiter/arbiter.go:602-615 | the pending-barrier test never decides a grant: the head or selection condition implies it |
| ArbiterRules.BarriersEnterInOrder | internal/apduarbiter/arbiter.go:507-524 | a grantable barrier finds no active lease and no barrier ahead of it |
| ArbiterRules.Progress | internal/apduarbiter/arbiter.go:481-600 | with no active lease, some ticket is grantable if and only if a barrier is queued, an unblocked session or one-shot leads, or the leading transports hold an unblocked one |
| ArbiterRules.NeverStuck | internal/apduarbiter/arbiter.go:481-600 | with no active lease and a non-empty queue something is grantable if a barrier is queued, no barrier is active, or only transports are queued and one is unblocked |
| ArbiterRules.AgedHeadGoesFirst | internal/apduarbiter/arbiter.go:551-571 | while an aged, unblocked exclusive transport leads the queue no other lease is grantable |
| ArbiterRules.OnlyAgingGrants | internal/apduarbiter/arbiter.go:526-571 | a ticket refused earlier is grantable on the same queue and leases if and only if it is the first eligible transport that came of age in between and no session or one-shot is active |
| ArbiterGrants.GrantableExactly | internal/apduarbiter/arbiter.go:481-600 | a queued ticket passes the check if and only if: a barrier, that no lease is active and no barrier stands before it; a session, that it leads, its class is unblocked, no one-shot or transport is active and fewer sessions than the bound are; a one-shot, that it leads, is unblocked and nothing is active; a transport, that no session or one-shot is active and of those that may start it has the highest rank, and of equals came first |
| ArbiterGrants.SelectionIs | internal/apduarbiter/arbiter.go:526-571 | the three tiers of the selection are one order: aged for 500 ms, then authentication, then the rest, each in queue order |
| ArbiterGrants.ChannelsShare | internal/apduarbiter/arbiter.go:573-587 | a channel transport that leads the queue beside other channel transports is granted if and only if fewer than MaxQMITransports are active and none of them is on its channel |
| ArbiterGrants.HeadsWaitForOthers | internal/apduarbiter/arbiter.go:481-505 | a head session is granted if and only if no one-shot or transport and fewer than MaxSessions sessions are active, a head one-shot or exclusive transport if and only if nothing is |
| ArbiterGrants.BusyChannelLetsPass | internal/apduarbiter/arbiter.go:589-600 | a transport whose channel is busy does not hold back the next one on a free channel unless the bound is reached |
| ArbiterSystem.GrantLeaseKeepsExclusion | internal/apduarbiter/arbiter.go:424-445 | a checked grant keeps exclusion and capacity |
| ArbiterSystem.GrantLeaseKeepsIsolation | internal/apduarbiter/arbiter.go:485-487 | a checked grant never gives a lease whose class an active barrier blocks |
| ArbiterSystem.WatchdogsDoNotGrant | internal/apduarbiter/arbiter.go:641-663 | touching or firing a timer, which does not signal, cannot make a ticket grantable |
| ArbiterSystem.StepKeepsInv | internal/apduarbiter/arbiter.go:407-479 | every critical section, timer event and passing of time keeps the whole invariant |
| ArbiterSystem.RunKeepsInv | internal/apduarbiter/arbiter.go:176-191 | the invariant holds in every state of every run |
| ArbiterTheorems.EveryStateIsSafe | internal/apduarbiter/arbiter.go:573-587 | in every reachable state: mutual exclusion, capacities, distinct positive channels, barrier isolation, distinct ids, and WaitRequests = Acquires + WaitTimeouts + queue length |
| ArbiterTheorems.GrantMeansChecked | internal/apduarbiter/arbiter.go:424-479 | a request gets its lease or barrier only in its own critical section, after its check passed on the queue it stands in |
| ArbiterTheorems.BarrierEntersAlone | internal/apduarbiter/arbiter.go:237-256 | a barrier enters only while no lease is active |
| ArbiterTheorems.BarriersEnterInQueueOrder | internal/apduarbiter/arbiter.go:517-524 | of two queued barriers the one ahead enters first |
| ArbiterTheorems.QueueAfterStep | internal/apduarbiter/arbiter.go:786-795 | a step appends one ticket, removes one, or leaves the queue alone |
| ArbiterTheorems.NoLeaseOvertakes | internal/apduarbiter/arbiter.go:481-571 | while a barrier, session or one-shot is queued at most as many leases are granted as stood ahead of it, and each one moves it forward |
| ArbiterTheorems.AgedHeadIsServed | internal/apduarbiter/arbiter.go:551-571 | over a run: an exclusive non-AKA transport that leads the queue at 500 ms is the only lease granted until it leaves, unless an active barrier blocks it |
| ArbiterTheorems.SleepersMissOnlyAging | internal/apduarbiter/arbiter.go:455-479 | a sleeper is grantable if and only if it came of age since its last check, is selected, and no session or one-shot is active |
| ArbiterTheorems.NoLostWakeup | internal/apduarbiter/arbiter.go:837-840 | when no waiter crossed the aging limit since its last check, no sleeper is grantable |
| ArbiterTheorems.GrantableIsAwake | internal/apduarbiter/arbiter.go:455-479 | then, whenever some ticket is grantable, some waiter is awake and its next check is granted |
| ArbiterTheorems.NoStall | internal/apduarbiter/arbiter.go:455-479 | so the queue never stalls while no lease is active and it can move |
| ArbiterTheorems.ExpiryOnlyGrows | internal/apduarbiter/arbiter.go:641-663 | an active lease never comes to expire earlier |
| ArbiterTheorems.RefreshSetsExpiry | internal/apduarbiter/arbiter.go:649-662 | a grant or an effective Touch puts the expiry a full hold time ahead |
| ArbiterTheorems.WatchdogIsPatient | internal/apduarbiter/arbiter.go:702-730 | a forced release comes at least MaxLeaseHold after the grant and after the last effective Touch, in any order of timers and callbacks |
| ArbiterTheorems.WatchdogIsAlert | internal/apduarbiter/arbiter.go:437-445 | an overdue active lease has a due timer or a callback on its way, and that callback ends it |
| ArbiterTheorems.OtherLeasesUntouched | internal/apduarbiter/arbiter.go:665-684 | releasing, touching or timing out one lease leaves every other lease as it was, also when its own is already gone |
| ArbiterHolds.CheckDecides | internal/apduarbiter/arbiter.go:424-479 | a check grants if and only if the board allows it; otherwise the request sleeps in the queue |
| ArbiterHolds.CheckedPosition | internal/apduarbiter/arbiter.go:424-479 | so over any run a request is granted by a check exactly when nothing is left its ticket has to wait for |
| ArbiterHolds.BarriersInForce | internal/apduarbiter/arbiter.go:237-256 | over any run a barrier is in force from the step that grants it to the one that releases it, and at no other time |
| ArbiterHolds.BarrierBlocks | internal/apduarbiter/arbiter.go:485-487 | meanwhile no lease of a class it blocks is active, and none is granted |
| ArbiterHolds.BlockedClasses | internal/apduarbiter/arbiter.go:617-624 | a class is blocked exactly while a barrier that names it is in force |
| ArbiterHolds.LeasesInForce | internal/apduarbiter/arbiter.go:424-445 | over any run a lease is active from the step that grants it until it is released or a watchdog callback comes a hold time after its grant and its last Touch, and at no other time, and it expires at that moment |
| ArbiterHolds.CountersTell | internal/apduarbiter/arbiter.go:407-479 | the counters are the numbers of requests queued, granted, given up and taken away by force |
| ArbiterLostWakeup.WakeupIsLost | internal/apduarbiter/arbiter.go:551-571 | a run from the default options that ends with an idle channel, two sleepers, one of them grantable, and nobody to wake |
| ArbiterObject.Arbiter.constructor | internal/apduarbiter/arbiter.go:176-191 | a new arbiter is empty, with normalised options |
| ArbiterObject.Arbiter.IsBlockedByActiveBarrier | internal/apduarbiter/arbiter.go:617-624 | whether some active barrier blocks the class |
| ArbiterObject.Arbiter.HasPendingBarrierAhead | internal/apduarbiter/arbiter.go:602-615 | whether a barrier stands before the ticket |
| ArbiterObject.Arbiter.SelectedBarrier | internal/apduarbiter/arbiter.go:517-524 | the first queued barrier, if any |
| ArbiterObject.Arbiter.HasActiveExclusiveTransport | internal/apduarbiter/arbiter.go:809-816 | whether an exclusive transport is active |
| ArbiterObject.Arbiter.ActiveQMITransportCount | internal/apduarbiter/arbiter.go:818-826 | how many channel transports are active |
| ArbiterObject.Arbiter.HasActiveTransportOnChannel | internal/apduarbiter/arbiter.go:828-835 | whether the channel is in use |
| ArbiterObject.Arbiter.CanAcquireTransportNow | internal/apduarbiter/arbiter.go:573-587 | whether the active transports leave room for the ticket |
| ArbiterObject.Arbiter.TransportWaitGatesQueue | internal/apduarbiter/arbiter.go:589-600 | whether a waiting transport holds back those behind it |
| ArbiterObject.Arbiter.SelectedTransport | internal/apduarbiter/arbiter.go:526-571 | the scan returns the selected transport: the first aged non-AKA one, else the first AKA one, else the first eligible one |
| ArbiterObject.Arbiter.CanAcquireLeaseLocked | internal/apduarbiter/arbiter.go:481-505 | the check of a lease, branch by branch, is the rule |
| ArbiterObject.Arbiter.CanAcquireBarrierLocked | internal/apduarbiter/arbiter.go:507-515 | the check of a barrier is the rule |
| ArbiterObject.Arbiter.RemoveTicket | internal/apduarbiter/arbiter.go:786-795 | the ticket leaves the queue, the others keep their order |
| ArbiterObject.Arbiter.RemoveActive | internal/apduarbiter/arbiter.go:760-784 | the lease leaves its list, whatever its kind |
| ArbiterObject.Arbiter.GrantTo | internal/apduarbiter/arbiter.go:424-445 | ticket out of the queue, lease active with its watchdog or barrier among the active ones, waiters signalled |
| ArbiterObject.Arbiter.Recheck | internal/apduarbiter/arbiter.go:424-452 | a critical section grants if and only if the rule allows it |
| ArbiterObject.Arbiter.Submit | internal/apduarbiter/arbiter.go:407-452 | enqueueing with its first check is the system's Submit step |
| ArbiterObject.Arbiter.Cancel | internal/apduarbiter/arbiter.go:455-479 | a waiter whose context ends leaves the queue, counted and signalled |
| ArbiterObject.Arbiter.Release | internal/apduarbiter/arbiter.go:665-684 | releasing a lease; nothing when it is gone |
| ArbiterObject.Arbiter.LeaveBarrier | internal/apduarbiter/arbiter.go:686-700 | releasing a barrier; nothing when it is gone |
| ArbiterObject.Arbiter.Touch | internal/apduarbiter/arbiter.go:641-663 | an active lease gets a new expiry and timer, and only it |
| ArbiterObject.Arbiter.ReleaseExpired | internal/apduarbiter/arbiter.go:702-730 | a callback before the expiry arms the timer again, one at or after it releases by force |
| SIMAuthObject.SIMAuthGate.Enter | internal/apduarbiter/simauth_ready.go:66-96 | the critical section before a probe: return, wait, or become the one prober |
| SIMAuthObject.SIMAuthGate.Finish | internal/apduarbiter/simauth_ready.go:98-114 | the critical section after a probe: a stale result is discarded, its own channel closed |
| SIMAuthObject.SIMAuthGate.Invalidate | internal/apduarbiter/simauth_ready.go:25-41 | a new generation that is not ready |
| SIMAuthSystem.SingleFlight | internal/apduarbiter/simauth_ready.go:61-114 | in every run at most one probe is running, and a wait channel exists exactly while one does |
| SIMAuthSystem.ProbeEndWakesAll | internal/apduarbiter/simauth_ready.go:104-109 | when a probe ends, whatever its outcome, every sleeper can wake |
| SIMAuthSystem.SleeperHasAWaker | internal/apduarbiter/simauth_ready.go:71-84 | a sleeper can wake or the probe that will close its channel is running |
| SIMAuthSystem.EnterMeets | internal/apduarbiter/simauth_ready.go:66-96 | a call at an open gate returns without a probe; one that finds a probe running waits for it; any other becomes the prober |
| SIMAuthSystem.ProbeDecides | internal/apduarbiter/simauth_ready.go:98-114 | a probe opens the gate if and only if it succeeded and the gate was not invalidated since it started; its caller fails with it, returns with it, or tries again |
| SIMAuthSystem.ReadyIsEarned | internal/apduarbiter/simauth_ready.go:98-103 | a ready gate rests on a successful probe that started after the last invalidation |
| SIMAuthSystem.ReadyExactly | internal/apduarbiter/simauth_ready.go:66-114 | the gate is ready if and only if a probe succeeded that started after the last invalidation |
| SIMAuthSystem.NilMeansReady | internal/apduarbiter/simauth_ready.go:66-70 | a nil return saw the gate ready under the lock in its last step |
| ESimSwitchSpec.BeginKeepsInStep | internal/device/pool_esim_switch.go:96-140 | a start keeps the three maps in step under a fresh token |
| ESimSwitchSpec.OperationsKeepInStep | internal/device/pool_esim_switch.go:146-240 | so do timeout, phase, generation and clearing |
| ESimSwitchSpec.FailureKeepsInStep | internal/device/pool_esim_switch.go:955-990 | so does the end of a failed switch, which with token 0 drops whatever switch is in progress |
| ESimSwitchSpec.StaleTokenChangesNothing | internal/device/pool_esim_switch.go:146-240 | an operation with a non-zero token that is not current changes nothing |
| ESimSwitchObject.SwitchTracker.BeginSwitch | internal/device/pool_esim_switch.go:96-140 | the token is new and greater than all before it |
| ESimSwitchObject.SwitchTracker.TimeoutSwitch | internal/device/pool_esim_switch.go:117-129 | the guard drops the switch with its capture time, and no other |
| ESimSwitchObject.SwitchTracker.MarkPhaseIfToken | internal/device/pool_esim_switch.go:146-185 | the phase changes only under the current token or 0, and it says whether it did |
| ESimSwitchObject.SwitchTracker.UpdateIdentityGeneration | internal/device/pool_esim_switch.go:187-204 | the identity generation changes only under the current token |
| ESimSwitchObject.SwitchTracker.ClearSwitchIfToken | internal/device/pool_esim_switch.go:228-240 | clears the switch of this token only |
| ESimSwitchObject.SwitchTracker.FinishSwitchForFailure | internal/device/pool_esim_switch.go:955-990 | hands out the snapshot and drops the switch if and only if the token is current or 0; without a snapshot token 0 gets the live state |
| ESimSwitchObject.SwitchTracker.ResolveSnapshot | internal/device/pool_esim_switch.go:604-626 | the snapshot is handed out if and only if the token is current or 0; without one token 0 gets the live state |
| ESimSwitchSystem.RunKeepsInv | internal/device/pool_esim_switch.go:96-140 | in every state of every run the maps have the same keys and agree on the token |
| ESimSwitchSystem.OnlyItsOwnStepsTouchIt | internal/device/pool_esim_switch.go:955-1010 | a step that ends or alters a switch carries its token, starts the next one on its device, is a guard with its capture time, or is a phase report with token 0, which changes nothing but the phase |
| ESimSwitchSystem.TokensIncrease | internal/device/pool_esim_switch.go:96-140 | tokens strictly increase over a run |
| ESimSwitchSystem.GuardsKnowTheirSwitch | internal/device/pool_esim_switch.go:117-129 | in every state of a run every guard that matches the switch on its device was started by it, if and only if every start finds no pending guard of its device with its capture time |
| ESimSwitchSystem.SwitchSurvivesStaleSteps | internal/device/pool_esim_switch.go:992-1010 | while starts find no pending guard with their capture time, a switch stays with its snapshot, capture time and identity generation until a step acts for it or a new one starts on its device, and with its phase until a report with token 0 |
| ESimSwitchSystem.StartRecords | internal/device/pool_esim_switch.go:96-140 | a start stores what was captured under the next token in all three maps, arms a guard of two minutes, and touches no other device |
| ESimSwitchSystem.ReportsAreRecorded | internal/device/pool_esim_switch.go:146-204 | a phase or generation reported under the current token or 0 is recorded, and nothing else changes |
| ESimSwitchSystem.EndClearsTheDevice | internal/device/pool_esim_switch.go:955-1010 | a failure or finaliser with the current token, or a guard with the capture time, leaves the device in none of the three maps and every other device as it was |
| ESimSwitchSystem.SwitchesInProgress | internal/device/pool_esim_switch.go:96-240 | over any run a switch is in progress, with what was captured for it, from its start until its failure, its finaliser, a guard with its capture time or the next start on its device, and never afterwards |
| ESimSwitchSystem.GuardsWait | internal/device/pool_esim_switch.go:117-129 | every pending guard is due two minutes after the start it belongs to |
| ESimSwitchSystem.EndedForGood | internal/device/pool_esim_switch.go:213-240 | a switch that ended never comes back |
| ESimSwitchSystem.EqualCapturesCollide | internal/device/pool_esim_switch.go:117-129 | a run in which equal capture times let an old guard drop the newer switch before its own guard is due |
| MBIMRegistration.NormalizeOptions | internal/device/mbim_registration.go:41-52 | attempts and cycle delay are positive: one that was is kept, any other gets its default |
| MBIMRegistration.WaitSIMReady | internal/device/mbim_registration.go:146-161 | SIM reads and sleeps in turn, at most MaxAttempts reads; ready if and only if the last call read an inserted SIM, failed if and only if the last call failed, not ready if and only if all reads and sleeps were made |
| MBIMRegistration.Prepare | internal/device/mbim_registration.go:67-83 | the radio mode is read first and a radio in flight mode switched on next; it goes on only after an inserted SIM was read, fails if and only if the last call failed, and gives up on the SIM if and only if MaxAttempts reads all found none |
| MBIMRegistration.RadioCycle | internal/device/mbim_registration.go:179-197 | radio off, wait, on, wait, cut short only by a failure |
| MBIMRegistration.CycleUnlessSuppressed | internal/device/mbim_registration.go:116-127 | the cycle follows unless the operator scan is reported running |
| MBIMRegistration.AttachOnce | internal/device/mbim_registration.go:98-108 | one attach, unless one was issued; it fails if and only if that attach did |
| MBIMRegistration.SelectOnce | internal/device/mbim_registration.go:109-177 | the configured selection, manual only with a PLMN, unless one was submitted; it fails if and only if that selection did |
| MBIMRegistration.PromptedTurns | internal/device/mbim_registration.go:98-134 | at no moment have more than one selection or attach been made than radio cycles begun: a second one follows the cycle |
| MBIMRegistration.Round | internal/device/mbim_registration.go:88-142 | one round keeps the bounds, answers its reply, and ends the driver if and only if the last call read registered and attached, read a denial, failed, or read nothing; otherwise it slept |
| MBIMRegistration.EnsureRegistration | internal/device/mbim_registration.go:61-144 | for every configuration and trace of replies: radio mode and SIM come before the first read; at most one radio cycle, only while the last reply said searching, never before a successful selection, never right after a suppression, and completed unless a call of it fails; at every moment at most one selection and one attach more than cycles, every selection as configured; at most MaxAttempts reads; the first unregistered reply at the start and after the cycle answered by a selection, the first detached one by an attach, and the first searching one when a cycle is due by the cycle; and each of the five outcomes is returned if and only if the calls ended that way: registered and attached, denied, failed or empty, all SIM reads without a SIM, all reads made |
| MessageOrder.InOrderListsAll | internal/db/sms_query.go:100-102 | a query in order lists every row of the table once, sorted by timestamp and id |
| MessageOrder.SortedIsUnique | internal/db/sms_query.go:100-102 | that order is unique |
| MessageOrder.ReadingOn | internal/db/sms_query.go:92-93 | the rows behind row k in the order are the rest of the list |
| MessageIndex.IndexIsDetermined | internal/db/db.go:965-1017 | at most one index agrees with a message table |
| MessageIndex.ContactTells | internal/db/db.go:972-1013 | in an index that agrees a contact repeats the message of its thread with the latest timestamp, of several the one with the greatest id, and counts the incoming unread ones |
| MessageIndex.RebuildPutsRight | internal/db/db.go:965-1017 | recomputing a thread puts its contact right and changes no other |
| MessageIndex.UpsertCounts | internal/db/db.go:680-715 | entering messages keeps the unread counts in any order of timestamps |
| MessageIndex.UpsertAgrees | internal/db/db.go:680-715 | the index agrees after entering a message if and only if it is the newest of its thread |
| MessageIndex.DeleteAgrees | internal/db/db.go:1040-1057 | deleting a row and recomputing its thread keeps the index right |
| MessageIndex.ForgottenDelete | internal/db/db.go:965-970 | without recomputing, it stays right if and only if the row was neither unread nor the newest |
| MessageIndex.DropAgrees | internal/db/db.go:1062-1085 | deleting a thread with its contact keeps the index right |
| MessageIndex.EnteredAgrees | internal/db/db.go:750-770 | filling and entering all messages oldest first gives the index of their table |
| MessageStore.SaveAgrees | internal/db/db.go:570-578 | a save keeps the unread counts always, and the index if and only if it has no peer or no message of the thread is later |
| MessageStore.DeleteMessageAgrees | internal/db/db.go:1032-1060 | a deletion keeps the index, except in a thread without IMSI, where the exact condition is given |
| MessageStore.DeleteThreadAgrees | internal/db/db.go:1062-1085 | deleting a thread keeps the index |
| MessageStore.RebuildRepairs | internal/db/db.go:1019-1030 | recomputing repairs one contact and touches no other |
| MessageStore.RebuildIsIdle | internal/db/db.go:965-1017 | recomputing in an index that agrees changes nothing |
| MessageStore.BackfillAgrees | internal/db/db.go:717-776 | a backfill leaves exactly one contact per thread with a peer, equal to what recomputing gives, whatever was there before |
| MessageStore.ApplyKeeps | internal/db/db.go:546-579 | every operation keeps the unread counts, and the index unless it saves out of order |
| MessageStore.RunKeepsTheIndex | internal/db/db.go:546-579 | over whole runs the unread counts stay right whatever the timestamps, and an index that agrees keeps agreeing while messages are saved in order |
| MessageStore.DeletionRemoves | internal/db/db.go:1040-1057 | a deletion takes exactly the rows of that id and leaves the contacts of other threads alone |
| MessageStore.RowsAfter | internal/db/db.go:546-579 | a row is there after an operation if and only if it was there and neither it nor its thread was deleted, or it was just saved |
| MessageStore.DeletedForGood | internal/db/db.go:1032-1085 | over any run the id of a deleted message never appears again |
| MessageTableObject.NextBatch | internal/db/db.go:737-748 | the batch behind the cursor continues the order where the last one ended, although rows before it were changed |
| MessageTableObject.MessageTable.EnterContact | internal/db/db.go:680-715 | insert the contact, or overwrite its last fields and add one if unread |
| MessageTableObject.MessageTable.Save | internal/db/db.go:557-578 | a new row under the next id, entered in the index if it has a peer |
| MessageTableObject.MessageTable.RebuildContact | internal/db/db.go:965-1017 | refused without IMSI or peer, contact deleted when the thread is empty, otherwise newest row and unread count |
| MessageTableObject.MessageTable.DeleteByID | internal/db/db.go:1032-1060 | not found, or exactly the row of that id deleted and its thread recomputed; whether the thread is empty, told from the rows before |
| MessageTableObject.MessageTable.DeleteThread | internal/db/db.go:1062-1085 | not found without rows or a full key, otherwise exactly the rows and the contact of the thread are gone, with their number |
| MessageTableObject.MessageTable.NeedBackfill | internal/db/db.go:778-797 | messages, and no contact or a missing peer |
| MessageTableObject.MessageTable.Backfill | internal/db/db.go:717-776 | for every batch size the cursor walk computes the same index, and it agrees |
| MessagePages.PageLimit | internal/db/sms_query.go:84-89 | a page holds between one and 200 rows: a limit in that range is kept, a larger one cut to 200, any other replaced by 50 |
| MessagePages.ContinuationIsExact | internal/db/sms_query.go:91-98 | with a row as cursor the next rows are exactly those behind it if and only if it has a time or no row with a smaller id has one |
| MessagePages.TimeCutsOrder | internal/db/sms_query.go:91-98 | asked for with a time alone the query goes on with the first row that is earlier; with an id alone it takes the smaller ids |
| MessagePages.WalkIsPrefix | internal/db/sms_query.go:80-103 | n pages, each asked for with the last row seen, are the first rows of the thread, newest first, without gap or overlap |
| MessagePages.WalkSeesAllOnce | internal/db/sms_query.go:80-103 | an empty page comes exactly when all rows were seen, each once, for every limit |
| MessagePages.WalksOnce | internal/db/sms_query.go:80-103 | at every limit and after any number of pages no message was shown twice, if and only if every message without a time has only such messages among the smaller ids |
| MessagePages.ZeroTimeRepeats | internal/db/sms_query.go:96-98 | a thread with a message without a time on which paging repeats a message |
| SMS.NormalizePeer | internal/db/db.go:581-589 | the peer is the trimmed recipient of an outgoing message that has one, otherwise the trimmed sender |
| SMS.PeerIsTrimmed | internal/db/db.go:581-589 | the peer is trimmed |
| SMS.RulesFillWell | internal/db/db.go:753-760 | filling in a peer changes neither id nor timestamp, and keeps keys trimmed |
| SMS.RecomputedUnlessBlank | internal/db/db.go:966-970 | a thread is recomputed exactly when neither part of its key is blank |
| SMS.SaveSMS | internal/db/db.go:546-579 | the message is stored under its trimmed key at whole seconds |
| SMS.BackfillRunsWhenNeeded | internal/db/db.go:717-797 | a backfill runs when there is no contact or some peer is empty, and leaves the right index; otherwise it changes nothing |
| SMS.BackfillFillsPeers | internal/db/db.go:753-760 | it gives every message with a blank peer the recipient of an outgoing message that has one, otherwise the sender, unless that is blank too, and changes nothing else in it |
| SMS.ContactsAreThreads | internal/db/db.go:753-770 | in an index that agrees exactly the threads of messages whose peer is not blank have a contact |
| SMS.QueriesReadOn | internal/db/sms_query.go:80-128 | either thread query, asked with the last message seen, gives the next page of that thread |
| SMS.PagingIsExact | internal/db/sms_query.go:80-128 | when messages have times both queries page exactly through the messages with that IMSI, or that ICCID, and that peer |
| Deduplication.Dedupe | internal/device/identity_resolver.go:116-135 | one entry per key in order of first appearance, holding the first item of the highest rank; items without a key all stay |
| Deduplication.OnePerKey | internal/device/identity_resolver.go:116-135 | no two entries share a key, every key has its entry, nothing is invented |
| Matching.SortConfigs | internal/device/identity_resolver.go:35-45 | the first config of each key, and the configs without a key in order |
| Matching.TakeLegacyConfig | internal/device/identity_resolver.go:98-112 | the first unused config without a key that fits, and it is used afterwards |
| Matching.MatchByKey | internal/device/identity_resolver.go:47-64 | the first round pairs by key alone |
| Matching.MatchByPath | internal/device/identity_resolver.go:66-87 | a round over leftover hardware pairs by path with configs without a key |
| Matching.Resolve | internal/device/identity_resolver.go:29-96 | all hardware and configs accounted for, keyed configs paired only with their own key and only the first of each key, backfill exactly where an unkeyed config got keyed hardware, no id taken by path that was taken before, nothing left that could be matched |
| Matching.ConfigsPartition | internal/device/identity_resolver.go:89-93 | with distinct ids every config is matched once or offline, not both |
| Matching.KeyedHardwarePartition | internal/device/identity_resolver.go:52-77 | hardware with a key is matched once or unmatched once, never degraded |
| Matching.KeylessHardwarePartition | internal/device/identity_resolver.go:81-87 | hardware without a key is matched to an unkeyed config or degraded, never unmatched |
| Matching.SharedIdHidesConfig | internal/device/identity_resolver.go:89-93 | two configs with one id of which one is in neither list |
| SharedIds.SharedIdsDecide | internal/device/identity_resolver.go:29-96 | whatever hardware is found every config is matched or offline and not both, if and only if no config that hardware can have (first of its key, or without a key and with a path that fits) shares its id with another; otherwise there is hardware of which every resolution leaves a config in neither list |
| Identity.NormalizeIMEI | internal/config/imei.go:8-22 | the key is the first 14 digits of the input, and empty if it has fewer |
| Identity.KeyIgnoresTheRest | internal/config/imei.go:8-22 | what follows the TAC and SNR does not change the key (3GPP TS 23.003, section 6.2.1) |
| Identity.KeyIsStable | internal/config/imei.go:8-22 | normalising twice is normalising once |
| Identity.DedupeCompositions | internal/device/identity_resolver.go:116-135 | deduplication by IMEI key and composition rank |
| Identity.RanksInOrder | internal/device/identity_resolver.go:137-152 | QMI is preferred to MBIM, that to NCM, ECM, RNDIS and anything else in this order, whatever the case and the blanks around |
| Identity.PathsDecide | internal/device/identity_resolver.go:154-170 | different USB paths are a veto and equal ones enough; where one is not known a common control device or interface name is needed and enough |
| Identity.ResolveDeviceIdentities | internal/device/identity_resolver.go:29-96 | deduplication and matching together, on the program's own keys, ranks and paths |
| Identity.MatchedByIdentity | internal/device/identity_resolver.go:47-87 | a configured device with an IMEI is matched only to a modem with the same key; one without by path, and gets the modem's IMEI written back if the modem has a key |
| Identity.SharedConfigIds | internal/device/identity_resolver.go:29-96 | the same condition on the program's own keys, ids and paths |
| LastLines.ReadBlocks | internal/api/server.go:662-684 | the chunks read from the end make up the file from the stop offset on |
| LastLines.ReadIsBounded | internal/api/server.go:638-684 | less than the byte cap, 1 MiB without one, and a block of 32 KiB is read; reading stops before the cap only at the start of the file or with enough newlines |
| LastLines.Assemble | internal/api/server.go:686-689 | the chunks in file order |
| LastLines.CutLines | internal/api/server.go:692-698 | trailing blank lines dropped, the last maxLines kept |
| LastLines.TailIsLast | internal/api/server.go:695-698 | the answer is the last lines, as many as asked for or all |
| LastLines.SplitJoins | internal/api/server.go:691-691 | joined with newlines the lines are the text again, and no line holds a newline |
| LastLines.ReadLastLines | internal/api/server.go:638-699 | the last lines of the part that was read |
| LastLines.SplitOfConcat | internal/api/server.go:691-691 | splitting at any offset changes at most the line at the seam |
| LastLines.ManyLinesSuffice | internal/api/server.go:667-667 | more lines than asked for in the part read give the answer of the whole file |
| LastLines.WindowIsExact | internal/api/server.go:662-698 | for every blank test the part read gives the answer of the whole file if and only if it is the whole file, or holds more lines than asked for, or exactly as many with the first one whole, or the file is blank; and when it starts inside a space of a blank line, if and only if the line before reads like the rest of that space and is all that is asked for or there |
| LastLines.ReadIsExact | internal/api/server.go:662-698 | exact for every length and block alignment when the last line is not blank, at most one newline follows and the byte cap did not stop the reading |
| LastLines.TrailingNewlinesHideTheText | internal/api/server.go:667-667 | a file on which the answer is empty although its last line is text, for every test that finds the empty line blank and the text not |
| LastLines.CutSpaceIsShown | internal/api/server.go:691-694 | a blank file on which the answer is the second byte of a no-break space |
| TrafficRollup.UnitsAddUp | internal/db/traffic_rollup.go:153-171 | the rows of settled units add up to the points measured in them |
| TrafficRollup.RollupSettles | internal/db/traffic_rollup.go:153-171 | a rollup of settled units settles the whole: seconds to an hour, hours to a day, days to a week or month |
| TrafficRollup.CellAfter | internal/db/traffic_rollup.go:103-111 | a row after an upsert holds what it held and what was added |
| TrafficRollup.UpsertsCommute | internal/db/traffic_rollup.go:84-112 | the order of points does not change the minute table |
| TrafficRollup.UpsertsBatch | internal/db/traffic_rollup.go:84-112 | nor does their batching |
| TrafficRollup.KeptExactly | internal/db/traffic_rollup.go:131-151 | a cleanup deletes exactly the rows that are older than the table keeps its rows, and none where it keeps no time |
| TrafficRuns.HourIsTheSum | internal/db/traffic_rollup.go:114-116 | once rolled up after its last point and before its minutes were deleted an hour holds the sum of its points, however often it was rolled up before and whatever is deleted later, until its own row is |
| TrafficRuns.DayIsTheSum | internal/db/traffic_rollup.go:118-120 | over any run, once every hour of the day was rolled up after its last point and before its minutes were deleted, and then the day before its hours were, the day's row of every series is the sum of its points, and a series without points has none, until the row is deleted |
| TrafficRuns.ScheduledDayIsTheSum | internal/proxy/traffic/sampler.go:167-192 | with cleanups that keep a day of minutes, a week of hours and 31 days of days, as the sampler asks, the day's row is the sum of its points for 31 days if each hour is rolled up within a day and the day within a week |
| TrafficRuns.DaysRollUp | internal/db/traffic_rollup.go:122-129 | a rollup of settled days gives every series measured in them one row, the sum of its points, and the others none |
| TrafficWeeks.RollupHoldsWholeDays | internal/db/traffic_rollup.go:122-129 | when only UTC days that are over have rows, the row of a week or month that ends now is what was measured in its whole UTC days |
| TrafficWeeks.RollupIsTheSum | internal/proxy/traffic/sampler.go:171-182 | so it is the sum of its points if and only if what was measured before the first and after the last whole UTC day makes no difference |
| TrafficWeeks.AlignedEdgesAddNothing | internal/proxy/traffic/sampler.go:171-182 | where weeks and months start and end at midnight of UTC nothing lies outside of whole UTC days |
| TrafficWeeks.PositiveEdgesShow | internal/proxy/traffic/sampler.go:171-182 | with positive points what lies outside of whole UTC days makes no difference exactly when nothing was measured there |
| TrafficWeeks.WeekOfRun | internal/proxy/traffic/sampler.go:167-182 | the same over any run in which only UTC days that are over were rolled up and every one of them from the start of the week or month on had its last rollup |
| TrafficWeeks.WeekLacksItsEnd | internal/proxy/traffic/sampler.go:175-178 | a week eight hours ahead of UTC that has no row although something was measured in its last hours |
| TrafficStore.TrafficTables.UpsertTrafficMinute | internal/db/traffic_rollup.go:84-112 | each point is added to its minute's row |
| TrafficStore.TrafficTables.RollupToHour | internal/db/traffic_rollup.go:114-116 | the hour rollup is the run's hour step |
| TrafficStore.TrafficTables.RollupToDay | internal/db/traffic_rollup.go:118-120 | the day rollup is the run's day step |
| TrafficStore.TrafficTables.RollupToWeek | internal/db/traffic_rollup.go:122-124 | when the seven days are settled the week's row of every series is the sum of its points, and a series without points has none; a week that starts within a UTC day holds what was measured in its whole UTC days |
| TrafficStore.TrafficTables.RollupToMonth | internal/db/traffic_rollup.go:126-129 | the same for the days up to the next month |
| TrafficStore.TrafficTables.CleanupBefore | internal/db/traffic_rollup.go:131-151 | rows older than each table keeps are deleted, the others stay |
| TrafficChart.BuildBuckets | internal/db/traffic.go:53-71 | one empty bucket for every step, and the last place of every key |
| TrafficChart.ApplyRow | internal/db/traffic.go:84-106 | one row is added to its bucket and to its device's series, or dropped |
| TrafficChart.DirectionsAre | internal/db/traffic.go:84-95 | a row counts as sent or received by its direction |
| TrafficChart.GetTrafficAnalysisWithChart | internal/db/traffic.go:43-143 | each bucket holds the bytes of its period by direction, each series those of its device |
| TrafficChart.ChartMatchesBuckets | internal/db/traffic.go:84-135 | the series of a period sum to its bucket's total if and only if the period is not repeated later or is empty |
| TrafficChart.BucketsConserve | internal/db/traffic.go:84-118 | where no total is negative all buckets together hold at least the bytes of the rows that have a bucket, and exactly those if and only if every bucket of a period that is repeated later is empty |
| TrafficChart.BucketsAccount | internal/db/traffic.go:84-118 | what all buckets show and the bytes of the rows that were dropped are the bytes of all rows read and what buckets of repeated periods show again |
| TrafficChart.NewTrafficRange | internal/db/traffic.go:154-202 | the three names, and for each its step, its first moment, the start of the current period and the period of every moment |
| TrafficChart.DistinctWhenMoving | internal/db/traffic.go:58-71 | no period is repeated if and only if every step leads into a new one |
| TrafficChart.DayRangeIsDistinct | internal/db/traffic.go:156-169 | the hours of the day range are never repeated |
| TrafficRanges.PlainRangesEndNow | internal/db/traffic.go:154-202 | where days have 24 hours the ranges have 25 hours, 8 and 31 days, and end in the current period |
| TrafficRanges.CurrentRowsAreShown | internal/db/traffic.go:57-80 | in every range, however long days are, the current rows lie in it and have a bucket if and only if the last step lies in the current period; in the day range they always have |
| TrafficRanges.ShownUnlessSkipped | internal/db/traffic.go:58-71 | every time from the start of the range up to now has a bucket if and only if no step leads over a whole period and the last one lies in the current period |
| TrafficRanges.AnalysisConserves | internal/db/traffic.go:58-118 | whatever rows are read from the range the buckets hold together exactly their bytes, if and only if every step leads into the very next period and the last one lies in the current period |
| TrafficRanges.CurrentDayIsDropped | internal/db/traffic.go:58-118 | a week with a first day of 25 hours on which the rows of the current day are dropped at every time before 23:00 |
| TrafficRanges.LongDayShowsTwice | internal/db/traffic.go:171-202 | a day of 25 hours shows its bytes in two buckets |
| PolicyMerge.FindWinner | internal/db/card_policy_canonical_migration.go:39-44 | the first of the best rows |
| PolicyMerge.WinnerExactly | internal/db/card_policy_canonical_migration.go:61-69 | a row set by the user wins over all others, among those or without one the row updated last, among equals the first stored |
| PolicyMerge.GroupRows | internal/db/card_policy_canonical_migration.go:24-31 | the rows by canonical form, in stored order, without those that have none |
| PolicyMerge.GroupKeepsOrder | internal/db/card_policy_canonical_migration.go:24-31 | a group holds every row of its form once, in stored order |
| PolicyMerge.MergedIsUnique | internal/db/card_policy_canonical_migration.go:33-58 | the merge has one result in whatever order the groups are visited |
| PolicyMerge.MergeIsIdempotent | internal/db/card_policy_canonical_migration.go:33-58 | where nothing clashes, merging again changes nothing if and only if every canonical form is its own or has none |
| PolicyMerge.MergesOnce | internal/db/card_policy_canonical_migration.go:33-58 | the merged table is already merged if and only if every canonical form is its own or has none |
| PolicyMerge.MergeGroup | internal/db/card_policy_canonical_migration.go:46-57 | without a clash a group's number is free after its rows are deleted; where it is free, writing the survivor merges the group and leaves the other groups alone |
| PolicyMerge.ClashStopsTheMerge | internal/db/card_policy_canonical_migration.go:46-57 | with a stored number that is another's canonical form but not its own, visiting that group first finds the number taken |
| PolicyMerge.PolicyTable.Migrate | internal/db/card_policy_canonical_migration.go:13-59 | in every order the migration succeeds if there is no such clash, and whenever it succeeds there is one row per canonical form with the first best row, and the rows without one are left alone |
| CardPolicy.CanonicalTwice | internal/db/card_policy.go:30-35 | a canonical number is its own canonical form if and only if no white space or quote is left at its ends |
| CardPolicy.CanonicalStrips | internal/db/card_policy.go:30-35 | a card number is recognised with any white space, quotes and filler around it |
| Text.TrimParts | internal/db/card_policy.go:31-33 | trimming cuts off characters of the cut set at both ends and nothing else |
| CardPolicy.OddQuotingClashes | internal/db/card_policy.go:30-35 | two stored numbers with odd quoting that clash |
| CardPolicy.CleanNumbersSettle | internal/db/card_policy.go:30-35 | numbers with clean canonical forms never clash |
| CardPolicy.MigratesOnce | internal/db/card_policy_canonical_migration.go:13-59 | on card numbers a migrated table is what a second migration leaves, if and only if every canonical number stored is its own canonical form or canonically empty |
| CardPolicy.OddQuotingMigratesTwice | internal/db/card_policy.go:30-35 | a single stored row that the first migration moves and the second moves again |
| CardPolicy.MigrateCardPolicyCanonicalICCID | internal/db/card_policy_canonical_migration.go:13-59 | the migration on card numbers: it succeeds under either condition, and success means merged |

## Left out

- Owner and mode strings of arbiter requests, except the mode's part in the transport scope: they only reach the log. The mode comes trimmed and in upper case.
- WaitIdle, IsIdle, Stats, Snapshot and logging of the arbiter: they read and change nothing.
- ActiveLease is a value in its list with the deadline of its timer; a Lease handle refers to it by its ticket id.
- Wrap-around of 64-bit ids, generations, tokens and byte counts is not modelled; all numbers are unbounded.
- Errors kept for display by the readiness gate (last error and reason), and its nil checks.
- ESimSwitchObject.SwitchTracker.FinishSwitchForFailure: with token 0 the code reads the snapshot and clears it in two critical sections; the method is one. The program starts switches with their tokens, so failing, resolving or setting a generation under token 0 are no events of the system; phase reports under it are.
- The identity refresh and connectivity restore after a switch, which commit without a token check. Device ids come trimmed.
- The part of handleESIMSwitchAfter between resolving the snapshot and clearing: it is one Resolve and one later Finalise, with anything in between.
- Texts of MBIM errors and the duration of sleeps; a sleep either ends or is cut short by the context. A missing controller is not modelled.
- The local phone number of a message and its lookup; the ICCID of a message is an input of SaveSMS.
- DeleteSMSByICCIDAndPeer, which deletes by card while contacts are kept by IMSI, and paging of contacts across cards.
- Database errors, transactions and SQL: each query is a function of the tables.
- MessageTableObject.MessageTable.DeleteByID: the ids returned are the trimmed key; ErrSMSNotFound is None.
- Files that cannot be opened, short reads and read errors of readLastLines; whether a line is blank is a parameter, and the text stays bytes.
- TrafficRuns.ScheduledDayIsTheSum: asks that hours are rolled up at their own starts, each within a day, as the sampler does every hour; which minute triggers which rollup is not modelled.
- TrafficStore.TrafficTables.RollupToMonth: the start of the next month is an input.
- TrafficRanges.CurrentRowsAreShown: asks that days start in order, and no later than any of their times; a location whose clocks skip midnight can break the second.
- TrafficChart.BucketsConserve: asks that no bucket's total is negative, although the tables' byte counts are signed; the sampler writes no negative ones.
- The queries that feed the analysis with rolled-up and current rows, its labels, and the alphabetical order of its devices.
- Sorting and settings of card policies, the check for the table, and the database error text when a number is taken.
- HTTP handlers, notification channels, SIP, audio, and the AT, QMI and MBIM transports.
