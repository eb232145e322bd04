# Verified models of the chat, device, ladder and upload logic

This project models the parts of the back end whose correctness depends on more than one
function, and proves what they promise. It is written in Dafny 4.11; `dafny verify dfyconfig.toml`
checks all of it.

## What is modelled

**Push delivery.** A message is written together with one outbox event. The intent job turns the
event into one ledger row per device, the push dispatcher claims rows, locks the token, renews the
lease, sends and stores the ticket, and the receipt dispatcher polls the ticket. Each SQL statement
is one atomic step on a table held as a map from id to row; claims carry fresh tokens, time never goes
back, and the provider answers as it likes. `PushLedger` has the statements and what every run of them
keeps (`LedgerProgress` when a row can be claimed), `PushDispatch` one live dispatcher with its tasks and its recovery buffer beside everything else
(`DispatchOutcomes` what each stage leaves behind, `RecoveryBuffer` the invariant, `DispatchRuns` how executions go on,
`NoResend` and `BufferBound` the results),
`PushIntents` the way from a message to its rows and both clean-ups (`IntentInvariants`, `IntentEffects`, `OneDelivery`),
and `PushServices` the table and the services as objects that change their fields (`LedgerCalls`
ties sequences of their statements to runs of the ledger).

**Device binding.** `DeviceBinding` has the registrations, logouts and verdicts as transactions on the
device table; `BindingLocks` takes them apart into lock, read and commit steps that interleave with
dispatchers holding a token's lock (`LockInvariants` has what each step keeps, `BindingSafety` and `LogoutSafety` the results).

**Cursors and receipts.** `ChatCursors` has the read, delivered and cleared cursors of a group's members
with every lookup apart from the write that uses it, and the unread counts; `ReadHistory` says what is read,
delivered and unread by the steps of a run alone; `ClearedMark` when the cleared mark goes down; `DeliveredOutbox` the
coalesced delivered events and their single dispatcher (`OutboxInvariants`, `DeliveredCoverage`);
`Pagination` history and catch-up.

**Career ladder.** `LadderGraph` has the theorems about reachability, cycles and removal with bridging;
`CycleSearch` the three-colour search; `LadderEdits` what each edit does and what every run of edits
keeps; `LadderEffects` what each leaves behind and when it is refused; `LadderRaces` the edits cut into read and write, as they interleave; `CareerLadder` the edits as
loops over the edge table.

**Stand-alone algorithms.** `JpegStrip`, `PngStrip` and `WebpStrip` parse, strip and print image bytes
(`ImageBytes` has the number formats, `JpegMeaning` what the bytes of a JPEG file mean); `OperatingHours` the frames
on the 24-hour circle (`HoursMeaning` in terms of clock times);
`SlidingWindow` and `AbuseProtection` the rate limiters beside a plain log of events. `Basics` has
stock datatypes and sequence helpers.

## What turned out otherwise than documented

- `scripts/README_chat_push_delivery.md:36-41` promises that accepted tickets are never resent by a live
  process and that the buffer holds at most five. Both can fail, and when is proved exactly. A cycle that
  goes past its flush can be followed by a resend if and only if at that moment a task of an earlier cycle
  waits for the provider, or still may under a claim in force, on a row that is open to be claimed
  (`NoResend.ResendExactly`): the cycle has passed the flush before that task hears its acceptance, and
  claims the row when its lease is over. The buffer can come to hold more than five if and only if
  an earlier task can still hear an acceptance, whatever its row (`BufferBound.OverflowExactly`). Tasks
  that have their answer, or have lost their claim before they sent, do no harm.
  There are no tasks of earlier cycles unless one rejects, which it can in two places outside its own
  error handling: `runner.connect()` (`src/modules/chat-groups/chat-push-dispatcher.service.ts:140-141`) and
  `disableInvalidDevice` (`:215-223`). `Promise.all` then rejects at once, `dispatching` becomes false and
  sibling tasks still run. `NoResend.RejectionAllowsResend` is such a run.
- The cleared mark of a conversation is not monotone: the lookup and the write are two statements, and
  the write does not take the larger value. `ClearedMark.LoweredExactly` says exactly which writes lower
  it, `ClearedMark.ClearedCanGoDown` is such a run.
- Setting next rungs checks for cycles outside its transaction, and neither that nor deleting a rung takes
  the lock that saving a stage takes. Two edits at once can close a cycle (`LadderRaces.TwoCanCloseACycle`,
  `LadderRaces.DeletionCanCloseACycle`); `LadderRaces.StaysAcyclicExactly` says exactly which
  interleavings keep the ladder acyclic.
- `planRungRemoval` leaves edges at a rung that has a self-loop and another successor, so its promise
  needs an acyclic ladder (`LadderGraph.RemovalDetachesRung` gives the exact condition).
- Creating a rung and setting next rungs may leave a rung without a way in
  (`LadderEdits.CreateReachableExactly`, `LadderEdits.SetNextReachableExactly` say exactly when not).
- The fixed-window limiter admits up to one less than twice its quota in an interval as long as its
  window, and that bound is attained.
- Chunk types and the TIFF byte order are compared after `toString('ascii')`, which drops the top bit of
  each byte; the models do the same.

## Model

| member | source | states |
|---|---|---|
| NoResend.NeverResends | src/modules/chat-groups/chat-push-dispatcher.service.ts:81-137 | In every execution of one dispatcher beside anything else that touches the ledger, in which no cycle goes past its flush beside a task that could resend: the provider is not asked to send a delivery once its acceptance was heard |
| NoResend.AcksAreKept | src/modules/chat-groups/chat-push-dispatcher.service.ts:226-278 | In the same executions every acceptance heard is still in the buffer, or its ticket is on the row (unless the row was cleaned up), and no delivery is accepted twice |
| NoResend.OrderlyUnlessRejected | src/modules/chat-groups/chat-push-dispatcher.service.ts:87-96 | In every execution in which no task rejects, each cycle goes past its flush when all earlier tasks are over; so those are such executions |
| NoResend.ResendExactly | src/modules/chat-groups/chat-push-dispatcher.service.ts:84-86 | A cycle that goes past its flush can be followed by a resend, with no fault of a later cycle, if and only if at that moment an earlier task waits for the provider, or still may under a claim in force, on a row that is open |
| NoResend.LossExactly | src/modules/chat-groups/chat-push-dispatcher.service.ts:84-86 | Under exactly the same condition an acceptance that was heard can come to be neither in the buffer nor stored |
| NoResend.StartAllowsResend | src/modules/chat-groups/chat-push-dispatcher.service.ts:139-142 | So whenever a cycle may begin with an empty buffer beside such a task, the execution can go on to resend its delivery |
| NoResend.RejectionAllowsResend | src/modules/chat-groups/chat-push-dispatcher.service.ts:139-142 | And it does come to that: an execution with one rejecting task in which an accepted delivery is sent again |
| BufferBound.AtMostFiveBuffered | src/modules/chat-groups/chat-push-dispatcher.service.ts:43-44 | The buffer holds at most five entries in every execution in which each cycle goes past its flush when no earlier task can hear an acceptance any more |
| BufferBound.OverflowExactly | src/modules/chat-groups/chat-push-dispatcher.service.ts:84-86 | After a passed flush it can come to hold more, with no fault of a later cycle, if and only if an earlier task can still hear an acceptance |
| RecoveryBuffer.ActionKeepsSafe | src/modules/chat-groups/chat-push-dispatcher.service.ts:139-224 | Each step of a cycle and of a task, failures and outside events included, keeps the invariant behind these results |
| RecoveryBuffer.ClaimKeepsSafe | src/modules/chat-groups/chat-push-dispatcher.service.ts:85-86 | A claim made past the flush takes no delivery whose acceptance was heard and none of a task that can still hear one |
| RecoveryBuffer.BeforeSendingKeepsSafe | src/modules/chat-groups/chat-push-dispatcher.service.ts:139-168 | Lock, renewals, eligibility and badge, in this order, and every way in which they fail |
| RecoveryBuffer.AfterAnswerKeepsSafe | src/modules/chat-groups/chat-push-dispatcher.service.ts:194-223 | Storing, comparing, retrying, suppressing, ending and invalidating, and every way in which they fail |
| RecoveryBuffer.HearKeepsSafe | src/modules/chat-groups/chat-push-dispatcher.service.ts:186-196 | An acceptance is put into the buffer before anything is written |
| RecoveryBuffer.ComparedKeepsSafe | src/modules/chat-groups/chat-push-dispatcher.service.ts:257-277 | When storing matched no row: the entry goes if its ticket is on the row, stays under a live claim, and else latches the conflict |
| RecoveryBuffer.FlushKeepsSafe | src/modules/chat-groups/chat-push-dispatcher.service.ts:226-240 | Each step of a flush keeps the invariant |
| PushServices.DeliveryTable.ClaimDue | src/modules/chat-groups/chat-push-dispatcher.service.ts:99-137 | Takes the rows due first, those created first among them, at most five and all of them if fewer are due, and returns their attempt counts |
| PushServices.DeliveryTable.RenewClaim | src/modules/chat-groups/chat-push-dispatcher.service.ts:373-386 | Renews the lease exactly under a live claim without a ticket |
| PushServices.DeliveryTable.RecordAccepted | src/modules/chat-groups/chat-push-dispatcher.service.ts:280-297 | Stores ticket and first poll time exactly under a live claim |
| PushServices.DeliveryTable.MarkSuppressed | src/modules/chat-groups/chat-push-dispatcher.service.ts:304-319 | Suppresses exactly under a live claim |
| PushServices.DeliveryTable.MarkDead | src/modules/chat-groups/chat-push-dispatcher.service.ts:321-336 | Ends the delivery exactly under a live claim |
| PushServices.DeliveryTable.MarkRetry | src/modules/chat-groups/chat-push-dispatcher.service.ts:338-360 | Ends the delivery from the twentieth attempt on, else makes it wait for the capped, doubling delay |
| PushServices.PushDispatcher.PersistKnownAccepted | src/modules/chat-groups/chat-push-dispatcher.service.ts:242-278 | What one attempt to store an accepted ticket does to the row, the buffer and the latch, for each way in which it can fail |
| PushServices.PushDispatcher.FlushKnownAccepted | src/modules/chat-groups/chat-push-dispatcher.service.ts:226-240 | Unless the latch falls, exactly the storable entries leave the buffer, and each row under its claim has its ticket; the latch falls exactly when some entry can neither be stored nor be reconciled; with no failure the flush ends clean or with the latch fallen |
| DispatchOutcomes.AnswerOutcome | src/modules/chat-groups/chat-push-dispatcher.service.ts:186-200 | What an answer leaves in the buffer and where the task goes on; a heard acceptance is in the buffer and goes on to be stored, unless the latch has fallen |
| DispatchOutcomes.StoreOutcome | src/modules/chat-groups/chat-push-dispatcher.service.ts:242-297 | The row has the ticket and the entry is gone exactly under a live claim; no other row changes |
| DispatchOutcomes.FlushStores | src/modules/chat-groups/chat-push-dispatcher.service.ts:226-297 | The same for each entry of a flush |
| DispatchOutcomes.RenewalOutcome | src/modules/chat-groups/chat-push-dispatcher.service.ts:152-168 | A task goes on to its check, and then to its send, exactly if its claim is live, with its half minute begun anew |
| DispatchOutcomes.RetryOutcome | src/modules/chat-groups/chat-push-dispatcher.service.ts:338-360 | A failed attempt of a task makes the row wait or ends it, and changes no other row |
| DispatchOutcomes.ThrowOutcome | src/modules/chat-groups/chat-push-dispatcher.service.ts:201-206 | A failing call leads to a retry unless the ticket is in the buffer |
| PushLedger.RowHistory | src/modules/chat-groups/chat-push-dispatcher.service.ts:99-130 | Between any two moments of a run of statements a ticket has not changed, sending has ended with it, settled rows are as they were, and no row was inserted again |
| PushLedger.ClaimsMatchTickets | src/modules/chat-groups/chat-push-receipt-dispatcher.service.ts:132-164 | Claims to send take exactly rows without a ticket, claims to poll exactly rows with one, and neither takes a settled row |
| PushLedger.LeavesAtMostOnce | src/modules/chat-groups/chat-push-dispatcher.service.ts:280-386 | Once a claim has left processing, or another claim took its row, no statement under it changes anything |
| PushLedger.RenewalExcludesOthers | src/modules/chat-groups/chat-push-dispatcher.service.ts:166-168 | For thirty seconds after a renewal the row changes only by statements of its own claim |
| PushLedger.PendingBelowTwenty | src/modules/chat-groups/chat-push-dispatcher.service.ts:338-360 | Every pending row has had fewer than twenty attempts; pending and suppressed rows have no ticket, accepted and delivered ones have one |
| PushLedger.AttemptsAreClaims | src/modules/chat-groups/chat-push-dispatcher.service.ts:114-118 | The attempt counts are exactly the number of claims that took the row, leases lost or not |
| PushLedger.DeadAtTheTwentieth | src/modules/chat-groups/chat-push-dispatcher.service.ts:338-345 | A failed attempt ends a row exactly from its twentieth claim on, and with no lease lost there is no further claim |
| PushLedger.AtMostTwentyNinePolls | src/modules/chat-groups/chat-push-receipt-dispatcher.service.ts:189-226 | With no lease lost a ticket is polled at most twenty-nine times, and the twenty-ninth poll ends the row whatever the answer |
| PushLedger.PollsAttained | src/modules/chat-groups/chat-push-receipt-dispatcher.service.ts:189-226 | That bound is attained: there is a run with every number of polls up to twenty-nine |
| PushLedger.EarliestGrows | src/modules/chat-groups/chat-push-receipt-dispatcher.service.ts:193-196 | The earliest time of each poll as the sum of the back-off delays |
| PushLedger.Waits | src/modules/chat-groups/chat-push-dispatcher.service.ts:338-346 | The waits double from a second up to a minute before sending, and from two minutes up to an hour before polling |
| LedgerProgress.NothingStranded | src/modules/chat-groups/chat-push-receipt-dispatcher.service.ts:132-164 | In every reachable ledger a claim takes a row that is not settled exactly from its own time on, or from half a minute after the claim that it is under |
| LedgerProgress.ReadySoon | src/modules/chat-groups/chat-push-dispatcher.service.ts:99-130 | That time is never more than a minute ahead without a ticket, and an hour with one |
| PushLedger.RunKeepsInv | src/modules/chat-groups/chat-push-dispatcher.service.ts:99-130 | Tickets, claims, leases and the unique keys in every reachable ledger |
| PushLedger.StaysClashFree | scripts/README_chat_push_delivery.md:58-62 | No two rows for one message and device, or one message and token |
| PushServices.DeliveryTable.ClaimPolls | src/modules/chat-groups/chat-push-receipt-dispatcher.service.ts:132-164 | Takes the rows due first for polling, those created first among them, at most a hundred |
| PushServices.DeliveryTable.UpdateTerminal | src/modules/chat-groups/chat-push-receipt-dispatcher.service.ts:166-187 | Settles exactly under a live claim with the same ticket |
| PushServices.DeliveryTable.Reschedule | src/modules/chat-groups/chat-push-receipt-dispatcher.service.ts:189-226 | A ticket that is a day old ends the row, else the next poll waits for the capped, doubling delay |
| PushServices.DeliveryTable.CleanupOnce | src/modules/chat-groups/chat-push-receipt-dispatcher.service.ts:100-130 | Deletes the oldest settled rows after fourteen days, at most five hundred, none of a message whose intent is unfinished |
| LedgerCalls.CallsAreARun | src/modules/chat-groups/chat-push-dispatcher.service.ts:280-386 | Any sequence of calls of these statements, late ones and ones under no claim included, gives the tables of a run of the ledger |
| PushServices.ReceiptDispatcher.Handle | src/modules/chat-groups/chat-push-receipt-dispatcher.service.ts:65-92 | What one receipt makes of its row, field by field, and whether the device is to be disabled |
| PushServices.ReceiptDispatcher.DispatchOnce | src/modules/chat-groups/chat-push-receipt-dispatcher.service.ts:55-98 | After a cycle the claimed rows are what the answers to their tickets say, all of them or those before the call that failed, and the devices to disable are exactly the reported ones among them |
| OneDelivery.MaterialisedAtMostOnce | src/modules/chat-groups/chat-push-intent-dispatcher.service.ts:134-188 | Over every run of sends, claims, failures, lost leases, materialisations and clean-ups an outbox event is materialised at most once |
| OneDelivery.OneDeliveryEver | src/modules/chat-groups/chat-push-intent-dispatcher.service.ts:151-170 | Of all deliveries ever inserted no two are for one message and device, or one message and token |
| OneDelivery.EveryTargetIsBorn | src/modules/chat-groups/chat-push-intent-dispatcher.service.ts:134-188 | In every run a materialisation under the live claim gives each device that no earlier one of the list precedes a row of its own, waiting to be sent at once, and a delivery was born for every device of the list |
| OneDelivery.CleanedUpStaysGone | src/modules/chat-groups/chat-push-receipt-dispatcher.service.ts:105-124 | A delivery that was cleaned up is never created again, under any id |
| OneDelivery.IntentsEndAtTwenty | src/modules/chat-groups/chat-push-intent-dispatcher.service.ts:190-214 | A pending intent has had fewer than twenty attempts; a failed one is dead exactly from its twentieth claim on |
| OneDelivery.SendIsIdempotent | src/modules/chat-groups/chat-message-command.service.ts:59-67 | Sending again under one client key answers with the first message, or refuses another text, and writes nothing |
| IntentInvariants.RunKeepsInv | src/modules/chat-groups/chat-push-intent-dispatcher.service.ts:97-188 | One message per client key, one event per message, fenced intents, and births only by a materialisation |
| IntentInvariants.InsertAllOnlyAdds | src/modules/chat-groups/chat-push-intent-dispatcher.service.ts:151-170 | The inserts of a materialisation change no row that is there and add rows of its message only |
| PushIntents.AllInserted | src/modules/chat-groups/chat-push-intent-dispatcher.service.ts:151-170 | Device by device: a row of its own exactly if neither an older row of the message nor one of an earlier device has the device or the token; every device is covered afterwards |
| IntentEffects.EventFate | src/modules/chat-groups/chat-push-intent-dispatcher.service.ts:97-214 | What each step makes of an event and its intent, field by field, and exactly which events a clean-up removes |
| IntentEffects.SendStores | src/modules/chat-groups/chat-message-command.service.ts:110-152 | A send under a new key stores the message and one event whose intent is due at once |
| IntentEffects.IntentsReadySoon | src/modules/chat-groups/chat-push-intent-dispatcher.service.ts:97-131 | In every reachable state an intent that is not finished can be claimed exactly from some time on, at most a minute ahead |
| PushIntents.Waits | src/modules/chat-groups/chat-push-intent-dispatcher.service.ts:190-195 | The waits double from half a second up to a minute |
| PushIntents.Sender.SendTextMessage | src/modules/chat-groups/chat-message-command.service.ts:40-152 | Writes message and outbox event and advances the cursors of the active sender to the message, or finds the message of that client key and writes nothing: the same text is deduplicated, another one a conflict |
| PushIntents.IntentDispatcher.Materialize | src/modules/chat-groups/chat-push-intent-dispatcher.service.ts:134-188 | All deliveries and the completion, or neither; a failure makes the intent wait or ends it; without the claim nothing happens |
| PushIntents.IntentDispatcher.InsertDeliveries | src/modules/chat-groups/chat-push-intent-dispatcher.service.ts:151-170 | Inserts device by device and skips what clashes with a row already there |
| PushIntents.IntentDispatcher.MarkFailed | src/modules/chat-groups/chat-push-intent-dispatcher.service.ts:190-214 | Dead from the twentieth attempt on, else pending after the capped, doubling delay |
| DeviceBinding.VersionsNameBindings | src/modules/devices/devices.service.ts:229-271 | Between any two moments of a run no version goes down, and one version of an active row names one user, device and fingerprint |
| DeviceBinding.VerdictHitsItsOwnBinding | src/modules/devices/devices.service.ts:158-176 | A verdict takes effect exactly when the row has borne the judged binding at every moment since |
| DeviceBinding.OldVerdictIsVoid | src/modules/devices/devices.service.ts:158-176 | Once a row stops bearing a binding every verdict on that binding is void |
| DeviceBinding.RunKeepsSound | src/modules/devices/devices.service.ts:208-286 | In every reachable table a fingerprint is on at most one row, an active one, and is that of its token; device ids stay unique |
| DeviceBinding.RegisterBinds | src/modules/devices/devices.service.ts:208-286 | A registration ends on the row of the device, else on the first with the token, else on a new one; that row carries it, its version grown by one exactly if the binding is another; every other row of the device or token is switched off, and no further row changes |
| DeviceBinding.StepEffects | src/modules/devices/devices.service.ts:126-176 | The whole table after a logout, a verdict and a deletion, field by field |
| DeviceBinding.RowFate | src/modules/devices/devices.service.ts:216-262 | Each row is rebound, released, untouched or new, and there is a winner exactly when there is a candidate |
| DeviceBinding.ChosenIsWinner | src/modules/devices/devices.service.ts:216-217 | The row of the same device, else the first of the ordered candidates, is the winner that the specification names |
| DeviceBinding.Devices.SelectCandidates | src/modules/devices/devices.service.ts:190-203 | The rows of the same device or token, soft-deleted ones too, in the order of the query |
| DeviceBinding.Devices.Register | src/modules/devices/devices.service.ts:178-286 | The registration as loops over the candidates, equal to its specification |
| DeviceBinding.Devices.DisableOwnedDevice | src/modules/devices/devices.service.ts:126-156 | After a logout no undeleted row of that user and device is active; the one that was is switched off and unbound and otherwise as it was, and no other row changes |
| DeviceBinding.Devices.DisableInvalidDevice | src/modules/devices/devices.service.ts:158-176 | The compare-and-set on the whole binding, and whether it took effect |
| BindingSafety.NoOtherBearerWhileSending | src/modules/chat-groups/chat-push-dispatcher.service.ts:139-169 | Under every interleaving, from the eligibility check on and as long as the token is locked, no other row gets the fingerprint |
| BindingSafety.BindingHeldWhileSending | src/modules/chat-groups/chat-push-dispatcher.service.ts:139-169 | In that time no registration or logout takes the binding away either; only a verdict on that binding can |
| BindingSafety.CommitLeavesSendingAlone | src/modules/devices/devices.service.ts:185-232 | A commit leaves the row with a fingerprint being sent to as it is and puts the fingerprint on no row |
| LogoutSafety.LogoutTakesEffect | src/modules/devices/devices.service.ts:126-156 | In every interleaving a committed logout switches off exactly the active row that the account then has of the device; the fingerprint that it saw is still on a row exactly if it was on one and the account had no such row any more |
| LogoutSafety.LoggedOutUntilRegistered | src/modules/devices/devices.service.ts:126-156 | After a logout that found the row active its fingerprint is on no row until a registration of its token is committed |
| LogoutSafety.BoundByRegistration | src/modules/devices/devices.service.ts:208-286 | A fingerprint that is on no row comes onto one exactly by committing a registration of its token |
| LogoutSafety.LogoutMayFindItMoved | src/modules/devices/devices.service.ts:145-156 | The other case does occur: an execution in which another account registers the token between the lookup and the locks of a logout |
| BindingSafety.ExecutionIsSerial | src/modules/devices/devices.service.ts:126-286 | However lock, read and commit steps interleave, the table is as if the transactions had run one after the other |
| LockInvariants.CommitIsAtomic | src/modules/devices/devices.service.ts:208-262 | What a transaction writes from the rows it read is what it would do to the whole table at its commit |
| BindingSafety.RegistrationsMeet | src/modules/devices/devices.service.ts:190-207 | Two registrations shut each other out exactly when they have a device or a fingerprint in common; device locks and token locks never collide |
| BindingSafety.DispatcherMeets | src/modules/devices/devices.service.ts:204-207 | A dispatcher and a registration shut each other out exactly when the registration takes the lock of that fingerprint |
| LogoutSafety.LogoutMeets | src/modules/devices/devices.service.ts:133-143 | A logout and a registration shut each other out exactly when they have the device or the fingerprint seen in common |
| BindingSafety.WaitsHaveNoCycle | src/modules/devices/devices.service.ts:139-147 | A chain of waits for the sorted advisory locks never comes back to where it began |
| BindingSafety.ExecutionKeepsInv | src/modules/devices/devices.service.ts:185-214 | Locks stay exclusive, and what a transaction has read stays current and complete until it commits |
| LadderGraph.RemovalKeepsReachability | src/modules/stores/career-ladder.service.ts:80-116 | In an acyclic ladder a removal neither adds nor takes away reachability among the other rungs and from the entry |
| LadderGraph.RemovalKeepsAcyclic | src/modules/stores/career-ladder.service.ts:80-116 | A removal makes no cycle |
| LadderGraph.RemovalDetachesRung | src/modules/stores/career-ladder.service.ts:80-116 | No edge touches the rung afterwards, except exactly when it had a self-loop and another successor |
| LadderGraph.WayInIsReachable | src/modules/stores/career-ladder.service.ts:899-909 | In an acyclic ladder every live rung is reachable from an entry exactly when every one has an edge from a live rung or an entry |
| LadderGraph.OrderedIsAcyclic | src/modules/stores/career-ladder.service.ts:1243-1267 | A graph whose arcs all lead to rungs finished earlier has no cycle |
| CycleSearch.HasCycle | src/modules/stores/career-ladder.service.ts:1243-1267 | True exactly when the edges with a source contain a directed cycle; it ends for every input |
| CycleSearch.BuildAdjacency | src/modules/stores/career-ladder.service.ts:1244-1248 | The successor lists hold exactly the edges with a source |
| CycleSearch.Search.Walk | src/modules/stores/career-ladder.service.ts:1254-1264 | The three-colour walk from a node: it finds a cycle through the walk's own path, or finishes everything reachable |
| CycleSearch.Search.WalkAll | src/modules/stores/career-ladder.service.ts:1258-1261 | Its loop over the successors: all of them are finished, unless a cycle was found |
| LadderEdits.RunKeepsAcyclic | src/modules/stores/career-ladder.service.ts:1239-1242 | Every run of create, set next, save stage and delete keeps the ladder acyclic |
| LadderEdits.RunKeepsReachable | src/modules/stores/career-ladder.service.ts:817-821 | Every run of stage saves and deletions keeps an acyclic ladder fully reachable from its entries |
| LadderRaces.StaysAcyclicExactly | src/modules/stores/career-ladder.service.ts:1081-1234 | However the reads and writes of creations, replacements of next rungs, stage saves and deletions interleave: the ladder is acyclic at every moment if and only if no edit is written when an edge that it adds is led back over an edge that was written after the edit had read the ladder |
| LadderRaces.AloneIsWhole | src/modules/stores/career-ladder.service.ts:1104-1121 | An edit whose write follows its read at once does what it does as a whole |
| LadderRaces.ReplacedCyclesExactly | src/modules/stores/career-ladder.service.ts:1204-1216 | A replacement closes a cycle exactly when one of the next rungs leads back to the rung over the other edges |
| LadderRaces.UndisturbedStaysAcyclic | src/modules/stores/career-ladder.service.ts:1104-1234 | So the ladder stays acyclic when no edge is written between the read and the write of any edit |
| LadderRaces.TwoCanCloseACycle | src/modules/stores/career-ladder.service.ts:1204-1234 | An execution in which two replacements at once close a cycle |
| LadderRaces.DeletionCanCloseACycle | src/modules/stores/career-ladder.service.ts:1104-1121 | An execution in which a deletion closes one: its bridge stands for a path that was cut after it was read |
| LadderEdits.CreateReachableExactly | src/modules/stores/career-ladder.service.ts:591-613 | Creating a rung keeps that exactly when it is given a source or the ladder had no live entry |
| LadderEdits.SetNextReachableExactly | src/modules/stores/career-ladder.service.ts:1207-1234 | Setting next rungs keeps that exactly when each dropped rung has another live way in |
| LadderEdits.StageKeepsWayIn | src/modules/stores/career-ladder.service.ts:887-909 | Orphan repair: after a stage save every rung that had a way in has one |
| LadderEdits.RemovalKeepsWayIn | src/modules/stores/career-ladder.service.ts:1104-1121 | Bridging: after a deletion every other rung that had a way in has one |
| CareerLadder.PlanRungRemoval | src/modules/stores/career-ladder.service.ts:80-116 | The edges to detach and the bridges to add amount to the removal; no bridge is there twice or already an edge |
| CareerLadder.Ladder.CreateRung | src/modules/stores/career-ladder.service.ts:562-614 | Refuses sources outside the ladder, else adds the rung with its edges, as an entry if none is live |
| CareerLadder.Ladder.SetNextRungs | src/modules/stores/career-ladder.service.ts:1184-1234 | Refuses unknown or repeated rungs, itself and cycles, in this order, else replaces the outgoing edges |
| CareerLadder.Ladder.SaveStage | src/modules/stores/career-ladder.service.ts:822-917 | Refuses in the order of the checks, else replaces all edges of the rung and repairs orphans; no edge is doubled |
| CareerLadder.Ladder.DeleteRung | src/modules/stores/career-ladder.service.ts:1081-1121 | Refuses a rung in use, else removes it with bridging; no edge is doubled |
| LadderEffects.SavedExactly | src/modules/stores/career-ladder.service.ts:835-914 | The edges after a stage save, one by one: into and out of the stage those sent, or those to live rungs it had where none were sent; an entry exactly if nothing precedes it; elsewhere a new entry exactly for each rung that would be stranded |
| LadderEffects.CreatedExactly | src/modules/stores/career-ladder.service.ts:574-614 | The edges after a creation, one by one |
| LadderEffects.ReplacedExactly | src/modules/stores/career-ladder.service.ts:1218-1234 | The edges after replacing the next rungs, one by one |
| LadderEffects.DeletedExactly | src/modules/stores/career-ladder.service.ts:1104-1121 | The edges after a deletion, one by one |
| LadderEffects.StageRefused | src/modules/stores/career-ladder.service.ts:854-885 | The refusals of a stage save in terms of what was sent and what is there; a cycle exactly if a next stage leads to a previous one without it |
| LadderEffects.SetNextRefused | src/modules/stores/career-ladder.service.ts:1192-1216 | The refusals of a replacement; a cycle exactly if a next rung leads back over the edges of the others |
| LadderEffects.CreateAndDeleteRefused | src/modules/stores/career-ladder.service.ts:568-575 | A creation is refused exactly for a source outside the ladder, a deletion exactly for a missing rung or one in use; what is refused changes nothing |
| CareerLadder.CheckStage | src/modules/stores/career-ladder.service.ts:854-885 | The refusals of a stage save in their order |
| CareerLadder.StageRows | src/modules/stores/career-ladder.service.ts:893-909 | The new rows of a stage save, orphan repair among them, none of them doubled |
| CareerLadder.OrphanList | src/modules/stores/career-ladder.service.ts:899-909 | Exactly the live rungs that only the replaced edges led to |
| JpegStrip.StripKeepsTheImage | src/modules/chat-groups/group-avatar-upload.ts:140-153 | Every APP1, APP13 and COM segment goes except one block with the orientation, every other segment and the scan stay in order, and the orientation is unchanged |
| JpegStrip.StripJpeg | src/modules/chat-groups/group-avatar-upload.ts:109-155 | The loop over markers computes the specified result, and refuses what the specification refuses |
| JpegStrip.StripJpegTwice | src/modules/chat-groups/group-avatar-upload.ts:109-155 | Stripping twice equals stripping once |
| JpegStrip.StripReparses | src/modules/chat-groups/group-avatar-upload.ts:147-154 | The output parses to the stripped segment list |
| JpegStrip.StripAcceptsGrammar | src/modules/chat-groups/group-avatar-upload.ts:110-138 | A file is accepted exactly when its bytes are spelled by a list of segments (section B.1.1 of ITU-T T.81), fill bytes included |
| JpegStrip.ParseIsGrammar | src/modules/chat-groups/group-avatar-upload.ts:114-146 | The parser finds a segment list exactly when it spells the bytes, and then that one |
| JpegStrip.PrintParse | src/modules/chat-groups/group-avatar-upload.ts:114-154 | Printing well-formed segments and parsing gives them back |
| JpegStrip.JpegExifOrientation | src/modules/chat-groups/group-avatar-upload.ts:61-84 | The orientation that the first directory holds, in either byte order, or none |
| JpegStrip.MinimalOrientationApp1 | src/modules/chat-groups/group-avatar-upload.ts:87-102 | The block written into the buffer, byte by byte |
| JpegStrip.MinimalExifCarries | src/modules/chat-groups/group-avatar-upload.ts:87-102 | The block is well formed and its orientation reads back |
| JpegMeaning.OrientationExactly | src/modules/chat-groups/group-avatar-upload.ts:61-84 | A block has an orientation exactly when the first orientation entry of its directory says one from 1 to 8, byte by byte and in either order (section 4.6 of JEITA CP-3451) |
| JpegMeaning.FirstOrientationExactly | src/modules/chat-groups/group-avatar-upload.ts:140-143 | A file has that of the first APP1 block that carries one |
| JpegMeaning.StrippedShape | src/modules/chat-groups/group-avatar-upload.ts:147-154 | A file that carries no orientation but 1 is left with its other segments; any other has one block more, which carries its orientation, in front or behind a leading JFIF segment |
| JpegMeaning.Markers | src/modules/chat-groups/group-avatar-upload.ts:122-146 | The three markers that are taken out, those without a length and the one that keeps the first place |
| JpegMeaning.BlockBytes | src/modules/chat-groups/group-avatar-upload.ts:87-102 | The bytes of the block |
| PngStrip.StripPng | src/modules/chat-groups/group-avatar-upload.ts:160-174 | The loop over chunks computes the specified result |
| PngStrip.StripReparses | src/modules/chat-groups/group-avatar-upload.ts:157-174 | The output parses to the input's chunks up to IEND without the metadata chunks, the rest byte for byte (section 3.2 of RFC 2083) |
| PngStrip.StripPngTwice | src/modules/chat-groups/group-avatar-upload.ts:160-174 | Stripping twice equals stripping once |
| PngStrip.ParseIsLayout | src/modules/chat-groups/group-avatar-upload.ts:163-172 | The parser finds a chunk list exactly when the bytes are laid out so |
| PngStrip.Kinds | src/modules/chat-groups/group-avatar-upload.ts:157-171 | The kinds that are taken out, and the one that ends the file |
| WebpStrip.StripWebp | src/modules/chat-groups/group-avatar-upload.ts:177-197 | The loop over chunks computes the specified result |
| WebpStrip.StripReparses | src/modules/chat-groups/group-avatar-upload.ts:188-196 | The output parses to the input's chunks without EXIF and XMP, the two VP8X flags cleared, and its RIFF size is the body plus four (sections 2.3 and 2.7 of RFC 9649) |
| WebpStrip.StripKeepsTheRest | src/modules/chat-groups/group-avatar-upload.ts:186-188 | Nothing but the two flags differs in what is kept, and no metadata chunk is left |
| WebpStrip.StripWebpTwice | src/modules/chat-groups/group-avatar-upload.ts:177-197 | Stripping twice equals stripping once |
| WebpStrip.KeptCopy | src/modules/chat-groups/group-avatar-upload.ts:186-187 | The flags are cleared in place in a copy of the chunk |
| WebpStrip.ParseIsLayout | src/modules/chat-groups/group-avatar-upload.ts:180-190 | The parser finds a chunk list exactly when the bytes are laid out so, a missing last pad byte included |
| WebpStrip.Kinds | src/modules/chat-groups/group-avatar-upload.ts:177-190 | The kinds that are taken out, and the two bits of a feature chunk that are cleared |
| ChatCursors.CursorsNeverGoDown | src/modules/chat-groups/chat-message-query.service.ts:249-285 | Over every run of sends, advances, fetches and clearings no read cursor and no reported delivered cursor goes down |
| ChatCursors.CursorsInOrder | src/modules/chat-groups/chat-member.mapper.ts:30-43 | Cleared is at most read, read at most reported delivered, and that at most the largest sequence ever assigned |
| ClearedMark.LoweredExactly | src/modules/chat-groups/chat-groups.service.ts:833-850 | In every run a step lowers the cleared mark of a member if and only if it writes a clearing of the account and the clearing written last before it had looked later and found more |
| ClearedMark.EverLoweredExactly | src/modules/chat-groups/chat-groups.service.ts:833-850 | The mark goes down at some step of a run if and only if some clearing is written over one that looked later and found more |
| ClearedMark.OneByOneNeverLowers | src/modules/chat-groups/chat-groups.service.ts:833-850 | It never goes down when each clearing of the account is written before the next one looks |
| ClearedMark.LaterFindsMore | src/modules/chat-groups/chat-groups.service.ts:835-839 | Of two looks that count deleted messages the later finds at least as much |
| ClearedMark.ClearedCanGoDown | src/modules/chat-groups/chat-groups.service.ts:833-850 | It does go down in a run of two clearings at once |
| ChatCursors.TotalIsSumOfList | src/modules/chat-groups/chat-message-query.service.ts:603-614 | The total unread of an account is the sum over the groups it is shown |
| ChatCursors.HiddenHasNoUnread | src/modules/chat-groups/chat-message-query.service.ts:613-614 | A hidden conversation has no unread message, because the read cursor is not below the cleared mark |
| ChatCursors.MemberMoves | src/modules/chat-groups/chat-message-command.service.ts:95-109 | What each step may do to a member |
| ReadHistory.ReadExactly | src/modules/chat-groups/chat-message-query.service.ts:241-265 | At every moment of a run a message is read for a member exactly if some step read it: a request that reaches it and finds it, a clearing that finds it, or an own message that is not below it |
| ReadHistory.DeliveredExactly | src/modules/chat-groups/chat-message-query.service.ts:316-386 | And delivered exactly if some step read it, or a report or a page beyond what was known took it in |
| ReadHistory.UnreadExactly | src/modules/chat-groups/chat-message-query.service.ts:704-734 | The unread count is the number of messages that some step sent, none deleted and none read for the member |
| ReadHistory.AdvanceReadExactly | src/modules/chat-groups/chat-message-query.service.ts:244-253 | After reading up to a request a message is unread exactly if it was and lies above the request or above what was found; no other member changes |
| ReadHistory.ListedExactly | src/modules/chat-groups/chat-message-query.service.ts:603-614 | A conversation is listed exactly if it was not cleared or a message above the mark was sent that was not deleted |
| ChatCursors.MemberRow.AdvanceRead | src/modules/chat-groups/chat-message-query.service.ts:236-293 | The clamped, monotone advance, whether it is written, and the range that becomes delivered with it |
| ChatCursors.MemberRow.AdvanceDelivered | src/modules/chat-groups/chat-message-query.service.ts:316-350 | The clamped, monotone advance and the range that becomes delivered |
| ChatCursors.MemberRow.OwnMessage | src/modules/chat-groups/chat-message-command.service.ts:92-108 | A message of one's own raises read and delivered to it, for an active member |
| ChatCursors.MemberRow.ClearConversation | src/modules/chat-groups/chat-groups.service.ts:841-848 | The cleared mark is set and the read cursor raised to it, the delivered one not |
| DeliveredCoverage.AdvanceStaysCovered | src/modules/chat-groups/chat-message-query.service.ts:429-488 | After an advance over another's live message, at every later moment some event covers its range from start to end, unless that event was cleaned up |
| DeliveredCoverage.PublishedWithFinalRange | src/modules/chat-groups/chat-outbox-dispatcher.service.ts:181-203 | A published event was dispatched with the range of its row, or withheld from everybody |
| DeliveredCoverage.SettledIsFinal | src/modules/chat-groups/chat-outbox-dispatcher.service.ts:238-280 | A published or dead event is never widened, claimed or marked again |
| DeliveredCoverage.AdvanceIsTold | src/modules/chat-groups/chat-outbox-dispatcher.service.ts:181-203 | End to end over executions: an advance over another's live message leaves a pending event that covers it; once that event is published it was dispatched since, and unless withheld each recipient with a live message in the range, within its newest five hundred sequences, was told |
| DeliveredCoverage.SentReachesSenders | src/modules/chat-groups/chat-outbox-dispatcher.service.ts:181-198 | What one dispatch sends: each recipient with a live message in a covered range, as far back as five hundred sequences, and nobody without one |
| DeliveredCoverage.ScanLimitCutsNothing | src/modules/chat-groups/chat-outbox-dispatcher.service.ts:224-235 | The limit of five hundred senders never cuts any off |
| DeliveredCoverage.EventsEndAtTwenty | src/modules/chat-groups/chat-outbox-dispatcher.service.ts:250-278 | A pending event has had fewer than twenty attempts; a failed one is dead exactly from its twentieth claim on |
| OutboxInvariants.ExecutionKeepsInv | src/modules/chat-groups/chat-outbox-dispatcher.service.ts:53-131 | The rows of a batch stay as they were claimed until they are marked, though marks are fenced on the status alone |
| OutboxInvariants.QueuedCovers | src/modules/chat-groups/chat-message-query.service.ts:451-487 | Widening or adding covers the new range and every range covered before |
| DeliveredOutbox.DeliveredQueue.Enqueue | src/modules/chat-groups/chat-message-query.service.ts:429-488 | Nothing without another's live message; else every pending event is widened, or one is added if there is none |
| DeliveredOutbox.ClaimTakesDue | src/modules/chat-groups/chat-outbox-dispatcher.service.ts:96-131 | A claim takes exactly the due events, and they are the batch |
| DeliveredOutbox.MarksSettle | src/modules/chat-groups/chat-outbox-dispatcher.service.ts:238-280 | What marking makes of an event, field by field; no other event changes |
| DeliveredOutbox.ToldExactly | src/modules/chat-groups/chat-outbox-dispatcher.service.ts:181-236 | Told are exactly the possible recipients with a live message in the range of the event as it was loaded, among its newest five hundred sequences |
| DeliveredOutbox.CleanRemovesOld | src/modules/chat-groups/chat-outbox-dispatcher.service.ts:72-89 | Exactly the events published more than a day ago and dead for more than a week go |
| DeliveredOutbox.Waits | src/modules/chat-groups/chat-outbox-dispatcher.service.ts:250-258 | The waits double from half a second up to a minute |
| Pagination.HistoryVisitsAll | src/modules/chat-groups/chat-message-query.service.ts:50-101 | Following the cursors back visits every visible message of the first moment exactly once and in order, though larger ones are added |
| Pagination.HistoryEnds | src/modules/chat-groups/chat-message-query.service.ts:97-100 | It ends within one page more than there are messages |
| Pagination.CatchUpVisitsAll | src/modules/chat-groups/chat-message-query.service.ts:103-148 | There is no more exactly when the pages together are all messages after the start and above the cleared mark, in order |
| Pagination.CatchUpEnds | src/modules/chat-groups/chat-message-query.service.ts:143-146 | As long as there is more, there are fewer pages than messages |
| Pagination.HistoryPageSplits | src/modules/chat-groups/chat-message-query.service.ts:82-99 | A page is the end of what lies before the cursor, and its own cursor divides off exactly the rest |
| Pagination.CatchUpPageSplits | src/modules/chat-groups/chat-message-query.service.ts:115-146 | A page is the beginning of what lies after the cursor, and its own cursor divides off exactly the rest |
| Pagination.HistoryPageHolds | src/modules/chat-groups/chat-message-query.service.ts:82-100 | A page has the newest visible messages before the cursor in order, at most the limit; there is more, and a cursor, exactly if some are left, and then the page is full |
| Pagination.CatchUpPageHolds | src/modules/chat-groups/chat-message-query.service.ts:125-147 | A page has the oldest messages above start and mark in order, at most the limit; there is more exactly if some are left |
| Pagination.GetHistory | src/modules/chat-groups/chat-message-query.service.ts:50-101 | One row more than asked for, newest first, reversed: the specified page, or a refused limit |
| Pagination.GetCatchUp | src/modules/chat-groups/chat-message-query.service.ts:103-148 | One row more than asked for, oldest first, never below the cleared mark: the specified page, or a refused limit |
| OperatingHours.BusinessDayIsShortest | src/modules/stores/operating-hours.utils.ts:103-137 | No arc of the 24-hour circle that covers every frame is shorter than the business day |
| OperatingHours.BusinessDayCovers | src/modules/stores/operating-hours.utils.ts:103-137 | The business day covers every frame and leaves out exactly the longest gap |
| OperatingHours.AcceptedBusinessDay | src/modules/stores/operating-hours.utils.ts:103-137 | Frames that normalisation accepts have a business day, it covers all frames given, and no arc that does is shorter |
| OperatingHours.NoBusinessDay | src/modules/stores/operating-hours.utils.ts:103-107 | There is no business day exactly when no frame can be read, as when there is none |
| OperatingHours.BusinessDayOf | src/modules/stores/operating-hours.utils.ts:103-137 | The loop over gaps computes the specified day |
| OperatingHours.OpenCloseRoundTrip | src/modules/stores/operating-hours.utils.ts:83-154 | Open and close to frames and back is the same pair exactly when they differ and close is before 24:00 |
| OperatingHours.NormalizeOperatingFrames | src/modules/stores/operating-hours.utils.ts:45-80 | Parse, check, sort and compare, with the first problem in the order of the code |
| OperatingHours.NormalizedResult | src/modules/stores/operating-hours.utils.ts:70-79 | The result is sorted, free of overlaps and a permutation of the frames |
| OperatingHours.NormalizeTwice | src/modules/stores/operating-hours.utils.ts:45-80 | Normalising again changes nothing |
| OperatingHours.OverlapExactly | src/modules/stores/operating-hours.utils.ts:71-75 | Up to six frames that are each valid are refused exactly when two of those given share time, and then for overlap |
| OperatingHours.ClockRoundTrip | src/modules/stores/operating-hours.utils.ts:26-36 | A time written as a clock reads back |
| HoursMeaning.ClockExactly | src/modules/stores/operating-hours.utils.ts:18-36 | A string is a time exactly if it is its clock string, with zero seconds or without |
| HoursMeaning.RefusedExactly | src/modules/stores/operating-hours.utils.ts:45-69 | No frames, more than six, and else the first frame that cannot be read or does not end after it starts |
| HoursMeaning.AcceptedAreClocks | src/modules/stores/operating-hours.utils.ts:70-79 | Accepted frames are written as hours and minutes, each starting no earlier than the last one ends |
| HoursMeaning.DayLeavesOutFirst | src/modules/stores/operating-hours.utils.ts:116-137 | Of several longest gaps the business day leaves out the first; with none it is the whole day |
| HoursMeaning.PairOpenAt | src/modules/stores/operating-hours.utils.ts:83-94 | The frames of a pair are open exactly between its times, past midnight where it closes no later than it opens; an unreadable pair has none |
| HoursMeaning.PairComesBack | src/modules/stores/operating-hours.utils.ts:140-154 | What every pair comes back as: around the clock as 00:00 to 23:59, closing at 24:00 as closing at midnight, any other as itself |
| SlidingWindow.SlidingWindowCounter.RecordHit | src/modules/auth/otp-rate-limit.ts:57-69 | Over the limit exactly by the hits in the window since the last reset or eviction; a key is evicted exactly when the table is then too full, and it is the first in insertion order |
| SlidingWindow.SlidingWindowCounter.Count | src/modules/auth/otp-rate-limit.ts:52-54 | The number of hits in the window since the last reset or eviction |
| SlidingWindow.SlidingWindowCounter.ResetKey | src/modules/auth/otp-rate-limit.ts:72-74 | Afterwards the key has no hits, the others all of theirs |
| SlidingWindow.HitAgrees | src/modules/auth/otp-rate-limit.ts:43-61 | A pruned and extended entry tells the same as the log |
| SlidingWindow.RecentCounts | src/modules/auth/otp-rate-limit.ts:43-61 | What counts is the number of hits in the log after the cut-off and after the last reset or eviction of the key |
| SlidingWindow.HitKeepsOrder | src/modules/auth/otp-rate-limit.ts:57-69 | A key with hits in the window keeps its place, another goes behind all |
| AbuseProtection.BelowTwiceTheQuota | src/modules/chat-groups/chat-abuse-protection.service.ts:81-102 | In any interval as long as the window a counter admits at most one less than twice its quota |
| AbuseProtection.BurstAttainsTheBound | src/modules/chat-groups/chat-abuse-protection.service.ts:81-102 | That many are admitted by some run |
| AbuseProtection.TakenKeepsFaithful | src/modules/chat-groups/chat-abuse-protection.service.ts:86-101 | A request is decided as if nothing had ever been pruned |
| AbuseProtection.AdmitsFirstOfWindow | src/modules/chat-groups/chat-abuse-protection.service.ts:81-102 | Each window admits exactly its first requests up to the quota, where a window is opened by the first request that comes a whole window after the last opener |
| AbuseProtection.DecisionExactly | src/modules/chat-groups/chat-abuse-protection.service.ts:43-50 | A request is served exactly if both counters admit it, and the address's is asked only if the account's does |
| AbuseProtection.QuotaTable | src/modules/chat-groups/chat-abuse-protection.service.ts:3-19 | The quotas by route, for accounts and for addresses |
| AbuseProtection.HttpQuotas.AssertHttp | src/modules/chat-groups/chat-abuse-protection.service.ts:37-51 | The account's quota first, then the address's; decided by the earlier requests alone, never by pruning |
| AbuseProtection.HttpQuotas.Prune | src/modules/chat-groups/chat-abuse-protection.service.ts:110-114 | Exactly the counters older than a minute go |
| AbuseProtection.SocketRegistry.Acquire | src/modules/chat-groups/chat-abuse-protection.service.ts:53-71 | Within the limits the socket is registered, once; the counts stay the numbers of live sockets |
| AbuseProtection.SocketRegistry.Release | src/modules/chat-groups/chat-abuse-protection.service.ts:73-79 | The socket goes and the counts with it; an unknown one changes nothing |

## Left out

- NoResend.NeverResends: restricted to executions in which no cycle goes past its flush beside a task that could resend, because after any other passed flush a resend can follow (`NoResend.ResendExactly`).
- NoResend.AcksAreKept: restricted in the same way, because after any other passed flush an acceptance can be lost (`NoResend.LossExactly`).
- BufferBound.AtMostFiveBuffered: restricted to executions in which no cycle goes past its flush beside a task that can hear an acceptance, because after any other passed flush the buffer can come to hold more (`BufferBound.OverflowExactly`).
- BindingSafety.WaitsHaveNoCycle: about the advisory locks; row locks of a transaction are taken together, and a deadlock among row locks, which the database would break and the code retry, does not arise in the model.
- PushServices.DeliveryTable.Reschedule: the two statements are one step with two times; a row that another claim takes in between is left alone by both.
- DeliveredCoverage.AdvanceStaysCovered: about the advance calls; a sent message raises the sender's own cursor without queueing an event.
- Pagination.HistoryVisitsAll: messages that commit late with a smaller sequence than one already listed are not considered; deletions while paging are not either.
- Rows locked by others and skipped by a claim: in the machines a claim takes any due rows up to its limit, in the table objects the first in order.
- The 10-second limit of a provider request and all other timeouts: a call may take any time.
- The dispatcher's try-lock answer, eligibility and badge in `PushDispatch`: any answer; `BindingLocks` has the lock itself. A lock that is lost with its connection, or held on after a failed unlock, is not modelled.
- Hashes of lock names, tokens and fingerprints are taken to be injective; the provider, the network and the file system are oracles.
- `runBindingOperation` deadlines and its retry loop, the singleton guard and health timers.
- Membership, permission and eligibility queries: who may receive is a parameter; the legacy list, search and legacy send endpoints are not modelled beyond a message that bumps no cursor.
- LadderRaces.StaysAcyclicExactly: each edit reads once and writes once; a write that would store an edge twice fails as a whole, by the unique indexes. Whether two edits at once keep every rung reachable is not stated.
- Ladders: a rung of another ladder counts as unknown; names, targets, criteria, levels and reviewers of a stage are not part of the graph.
- READ_UPDATED and MESSAGE_CREATED events of the socket outbox, apart from the intent of the latter.
- Capability normalisation of devices, message validation, response mapping, HTTP codes and texts.
- The send limit on one-time codes (`isOverSendLimit`), the test-only `clear`, and input that is not an array of frames.
- `detectImageExtension`, the choice of a stripper by extension and the upload limits.
- Controllers, gateways, mail, seeds, measurement of criteria, notifications, attendance, payroll and face recognition.
