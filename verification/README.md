# Bloodborne receive pipeline: a verified model

This project models how the Bloodborne Archipelago client delivers received items,
and proves what it keeps across polls, crashes, failed saves, restarts and save
restores. Its centre is the durable, index-ordered delivery ledger and the polling loop
that plans, publishes, completes, parks and acknowledges grants over one native command
slot. Smaller cores beside it are modelled with their own main theorems.

How the receive pipeline is built up:

- `ReceiveLedger.dfy` states every ledger operation as a function on a slot, and the
  invariant they keep; `LedgerProperties.dfy` proves what the operations do over whole
  histories, including exactly which of them lose an index or orphan a deferral.
- `SlotLedger.dfy` is the class with the source's own fields. Each mutator is proved
  equal to its ledger function, so every ledger theorem holds of the class.
- `DeliveryProtocol.dfy` is a state machine over ledger changes, saves, failed saves,
  crashes and the game's own steps. Its invariants give the exactly-once theorem: at
  least once for every run, at most once for every run whose publications are backed.
  A publication is backed when it is made at a recorded baseline that the disk keeps to,
  when the index was reopened and not yet applied again, or when this very command has
  run. `DeliveryLimits.dfy` shows by concrete runs how a failed save and a hasty resample
  break the theorem, and proves that a publication keeps it exactly when it is backed.
- `ClientLoop.dfy` is the polling loop as a class. Every ledger change, save, failed
  save and exchange with the game is recorded in a ghost trace that is proved to be a
  run of the protocol. Two ghost fields say what may be lost: `exact`, that every
  publication was backed, and `clash`, the first time that two commands were outstanding
  at once. Each method says when it lets the first fall and how the second may come. The
  game's answers and the outcome of every save are chosen freely.
- `Lanes.dfy` holds the sustain and rescue lanes, and `NativeSlot.dfy` the one command
  slot that they share with the items: which commands are outstanding, and exactly which
  steps put a second one beside the first. The client keeps a second trace that is
  proved to be a run of it.
- `Planning.dfy`, `Upgrades.dfy` and `EquipFeed.dfy` hold the plans; `Parks.dfy` the park
  markers; `MockBackend.dfy` one concrete game. Its grants stay within the protocol;
  two of its other answers leave the contract, under conditions that are stated.

Beside it: `Isotonic.dfy` and `TierBands.dfy` (tier derivation), `EventFlags.dfy`
(flags in game memory), `CivilDate.dfy` and `Decimal.dfy` (the log stamp),
`LedgerFile.dfy` (the save protocol), `LocationChecks.dfy` (check reporting),
`LocalDeath.dfy` and `DeathLink.dfy` (deaths), `ArchipelagoClient.dfy` (the received
list and checked locations). `Arithmetic.dfy` proves the division facts the flag and
death counts rest on; `Wrappers.dfy` holds the result types.

Hypotheses, stated where they are used:

- The game follows the documented backend contract
  (crates/bb-archipelago/src/backend.rs:87-264): a command submitted again with the same
  tag and baseline never applies twice, a withdrawal answers true only for a command
  that did not run, and "cannot have applied" is answered only for a command that the
  machine still retains.
- The main loop polls rescues first, items unless a rescue is pending, and sustain
  bonuses only when items are idle, which is the order of
  crates/bb-archipelago/src/main.rs:2121-2340.

Where the code and the natural statement differ, the code is kept and the exact
condition is proved:

- A baseline whose save fails stays in memory and binds the next poll, which then
  publishes without the disk. A crash after that grants the item twice
  (`DeliveryLimits.FailedSaveMayGrantTwice`). After any run of backed publications, a
  publication at any baseline keeps exactly-once exactly when it is backed
  (`DeliveryLimits.PublicationIsExactWhenBacked`).
- No lane looks at the native slot itself, so a second command can be published into it.
  Over any run at most one command is outstanding throughout exactly when every
  publication finds no other one, and every restart finds lanes on disk that keep the
  rule beside the commands the game still has (`NativeSlot.OneCommandIffGuarded`).
  Right after a reconnect or a restart the received list is empty, the item poll is idle
  with a published plan in progress, and a bonus is published beside it
  (`ClientLoops.EmptyListPublishesBesideThePlan`). The bonus's own look at the watermark
  may drop the plan first; its command stays
  (`ClientLoops.DroppedPlanPublishesBesideItsCommand`, `NativeSlot.StraysComeFromDroppedPlans`).
  `ClientLoops.ClientLoop.Tick` says which publication of a round may find which command.
- The watermark write stores the delivered index, not the cursor. Redelivering below the
  cursor makes the next reconcile take the save for a restored one
  (`LedgerProperties.DeliveryThenReconcile`, `LedgerProperties.RedeliveryReopensLaterDeliveries`).
- A rewind and an unblock do not prune the deferred Vials
  (`LedgerProperties.DeferredStayParkedUnlessOrphaned`), and an orphaned one stops every
  poll in which a Vial is held and the refusal released (`ClientLoops.OrphanIsStuck`,
  `ClientLoops.ClientLoop.PollItems`).
- An attested restore has no upper guard, and an adoption skips indices
  (`LedgerProperties.OnlyJumpsLoseIndices`).
- The rescue lane polls the lowest key, published or not (`Lanes.QueueingARescue`,
  `Lanes.LowerRescueIsPublishedBesideTheOldOne`).
- A save over an unreadable live file destroys the good backup first
  (`LedgerFile.SaveIsCrashAtomic`).
- A received-items message that reaches back into the list is appended as it stands
  (`ArchipelagoClient.SliceKeepsPrefix`, `ArchipelagoClient.ReachingBackIsRejected`).
- A failed save of a DeathLink counter keeps the advanced counter in memory and reports
  no decision, which shifts the cycle of the reports (`DeathLink.MissedDeathShiftsTheCycle`).
  They follow the closed form exactly while whole cycles are missing
  (`DeathLink.DeathLinkClient.ReportsFollowClosedForm`).
- The server's list of checked locations may name one that the game has and the slot
  lacks; the client then panics (`ArchipelagoClient.Client.UpdateCheckedLocations`).
- A value inside a collapsed tier group keeps the group's rung exactly when it lies under
  the group's upper edge, and the whole group keeps it exactly when the gap above is
  wide enough (`TierBands.HeldValueIsInBand`, `TierBands.WholeGroupKeepsRung`); one that
  does not is `TierBands.CollapsedValueMayLoseItsRung`.

## Model

| member | source | states |
|---|---|---|
| `DeliveryProtocol.ExactlyOnce` | crates/bb-archipelago/src/backend.rs:87-264 | over every run of ledger changes, saves, failed saves, crashes and game steps an index acknowledged as delivered was applied; over every run whose publications are backed index i is applied at most 1 + (times an operation dropped its plan or acknowledgement) times |
| `DeliveryProtocol.NextKeepsSafe` | crates/bb-archipelago/src/client_loop.rs:2637-2934 | every step whose publication, if it is one, is backed keeps the invariant behind at-most-once: the ledger in memory and the ledger on disk each leave no index with more applications than openings |
| `DeliveryProtocol.RunIsSafe` | crates/bb-archipelago/src/client_loop.rs:2637-2934 | that invariant holds at every point of every run of backed publications, whatever saves fail |
| `DeliveryProtocol.NextKeepsSound` | crates/bb-archipelago/src/client_loop.rs:2637-2934 | every step, backed or not, keeps: the ledgers in memory and on disk are valid, and a delivered or completed index was applied |
| `DeliveryProtocol.RunIsSound` | crates/bb-archipelago/src/client_loop.rs:2637-2934 | so at every point of every run, failed saves and publications without backing included |
| `DeliveryProtocol.ChangeKeepsSafe` | crates/bb-archipelago/src/ledger.rs:381-848 | any of the ledger's operations, made when the client may make it, keeps the invariant |
| `DeliveryProtocol.GrantKeepsSafe` | crates/bb-archipelago/src/client_loop.rs:2758-2832 | a backed publication keeps the invariant, whatever the machine does with it: one at a recorded baseline that the disk keeps to, one of an index reopened and not yet applied again, or one of a command that has run |
| `DeliveryProtocol.GameStepKeepsSafe` | crates/bb-archipelago/src/backend.rs:178-250 | the game running, forgetting or giving back a command keeps the invariant |
| `DeliveryProtocol.OnlyReopeningOperationsReopen` | crates/bb-archipelago/src/ledger.rs:381-848 | only requeues, a reissue, an attested restore and a watermark rewind or adoption can let go of a plan or an acknowledgement |
| `DeliveryProtocol.CrashAnywhere` | crates/bb-archipelago/src/ledger.rs:323-353 | a run may be cut after any step by a crash that loads the last saved ledger, and is then still a run |
| `DeliveryLimits.FailedSaveMayGrantTwice` | crates/bb-archipelago/src/client_loop.rs:2767-2780 | a concrete run of the protocol: the baseline is recorded and its save fails, the next poll publishes from memory, a crash loses the baseline, and index 0 is applied twice though nothing reopened it |
| `DeliveryLimits.UnbackedPublicationRepeats` | crates/bb-archipelago/src/client_loop.rs:2767-2816 | after any run, however far back its disk is, a publication that is not made from the disk extends, with later publications all backed and the index never reopened, to two more applications of it |
| `DeliveryLimits.PublicationIsExactWhenBacked` | crates/bb-archipelago/src/client_loop.rs:2767-2816 | after any run of backed publications, publishing the plan at the head of the queue, at any baseline, keeps the bound over every continuation of backed publications exactly when it is backed itself |
| `DeliveryLimits.HastyResampleMayGrantTwice` | crates/bb-archipelago/src/backend.rs:178-194 | sampling the baseline again while the command may have applied breaks exactly-once, by such a run |
| `ReceiveLedger.NextIndexIsLeastDue` | crates/bb-archipelago/src/ledger.rs:384-391 | the next index is the least index that is due: redelivery first, then the one past the cursor, never one that is acknowledged |
| `ReceiveLedger.ApplyKeepsValid` | crates/bb-archipelago/src/ledger.rs:381-848 | every mutator keeps: a plan is for the next index, acknowledged and redelivered indices are disjoint, and neither goes beyond what the cursor allows |
| `LedgerProperties.OnlyJumpsLoseIndices` | crates/bb-archipelago/src/ledger.rs:797-848 | an operation leaves a covered index neither acknowledged nor due exactly when it is a rewind past the frontier or an adoption beyond it |
| `LedgerProperties.NoIndexLostOrHeldTwice` | crates/bb-archipelago/src/ledger.rs:381-848 | over any sequence of operations no index is lost or held twice, but for those a cursor jump skipped |
| `LedgerProperties.DeliveriesReachTheUnskipped` | crates/bb-archipelago/src/ledger.rs:381-566 | delivering and acknowledging the head of the queue again and again reaches index i, within i + 1 deliveries, exactly when no cursor jump skipped it |
| `LedgerProperties.DeliveredIndexIsNeverNextAgain` | crates/bb-archipelago/src/ledger.rs:755-848 | an entry acknowledged with no block becomes due again only through a rewind |
| `LedgerProperties.DeliveredStaysDelivered` | crates/bb-archipelago/src/ledger.rs:755-848 | over any rewind-free sequence of operations such an entry stays as it is |
| `LedgerProperties.ReconcileIsAFixedPoint` | crates/bb-archipelago/src/ledger.rs:817-848 | reconciling twice with one observation gives Resume after Resume, Reissue or Adopt, and Hold after Hold, and the second call changes nothing |
| `LedgerProperties.ReissueIsExact` | crates/bb-archipelago/src/ledger.rs:797-848 | a reissue makes exactly the erased tail due again and keeps every acknowledgement at or below the watermark |
| `LedgerProperties.AdoptionRegrantsNothing` | crates/bb-archipelago/src/ledger.rs:817-848 | an adoption never lowers the cursor and makes no acknowledged index due |
| `LedgerProperties.DeliveryThenReconcile` | crates/bb-archipelago/src/client_loop.rs:2905-2920 | after a delivery whose watermark write was accepted the next reconcile answers Resume exactly when the index is the new cursor, and Reissue otherwise |
| `LedgerProperties.RedeliveryReopensLaterDeliveries` | crates/bb-archipelago/src/client_loop.rs:2905-2920 | the watermark write stores the item's index: redelivering below the cursor makes the next reconcile drop every later acknowledgement |
| `LedgerProperties.VialParkIsNeverRequeuedByCause` | crates/bb-archipelago/src/ledger.rs:606-690 | a park recorded for an absent Vial or a full Vial stack is never a fixed cause and never a compatibility cause |
| `LedgerProperties.HeldParkStaysUnlessUnparked` | crates/bb-archipelago/src/ledger.rs:634-806 | such a park stays parked exactly unless a requeue or an unblock names it, or a rewind drops it |
| `LedgerProperties.DeferredStayParkedUnlessOrphaned` | crates/bb-archipelago/src/ledger.rs:755-804 | the deferred Vial set stays inside the parked entries exactly when the operation does not rewind past one or unblock one |
| `LedgerProperties.OrphanedDeferralIsRefusedForever` | crates/bb-archipelago/src/client_loop.rs:657-748 | a deferred index whose park is gone is refused by every later requeue until something parks it again |
| `SlotLedgers.SlotLedger.NextDue` | crates/bb-archipelago/src/ledger.rs:384-391 | the next index, redelivery first; the new state is the operation's, field for field |
| `SlotLedgers.SlotLedger.Begin` | crates/bb-archipelago/src/ledger.rs:407-426 | a plan is accepted only for the next index and only in place of none or the same identity; the new state is the operation's, field for field |
| `SlotLedgers.SlotLedger.RaisePendingUpgrade` | crates/bb-archipelago/src/ledger.rs:445-473 | raises an unpublished plan only, and never downwards; the new state is the operation's, field for field |
| `SlotLedgers.SlotLedger.RecordObservedBefore` | crates/bb-archipelago/src/ledger.rs:478-487 | records the baseline of the plan, and nothing else; the new state is the operation's, field for field |
| `SlotLedgers.SlotLedger.MarkGrantComplete` | crates/bb-archipelago/src/ledger.rs:498-507 | marks the plan granted, or refuses without a plan; the new state is the operation's, field for field |
| `SlotLedgers.SlotLedger.AcknowledgeBlocked` | crates/bb-archipelago/src/ledger.rs:538-557 | parks the head of the queue and moves the cursor as a delivery does; the new state is the operation's, field for field |
| `SlotLedgers.SlotLedger.Acknowledge` | crates/bb-archipelago/src/ledger.rs:765-790 | acknowledges the head of the queue only when granted and, where planned, equipped; the new state is the operation's, field for field |
| `SlotLedgers.SlotLedger.RequeueFixedCauseParks` | crates/bb-archipelago/src/ledger.rs:634-656 | requeues exactly the parks whose cause is fixed, or none while a plan is in progress; the new state is the operation's, field for field |
| `SlotLedgers.SlotLedger.RequeueNowCompatibleParks` | crates/bb-archipelago/src/ledger.rs:661-690 | requeues exactly the parks for items this client can now deliver, or none while a plan is in progress; the new state is the operation's, field for field |
| `SlotLedgers.SlotLedger.RequeueBlocked` | crates/bb-archipelago/src/ledger.rs:704-720 | requeues one parked entry without moving the cursor; the new state is the operation's, field for field |
| `SlotLedgers.SlotLedger.ReissuePending` | crates/bb-archipelago/src/ledger.rs:731-750 | resets a completed grant for redelivery, for the pending index only; the new state is the operation's, field for field |
| `SlotLedgers.SlotLedger.Unblock` | crates/bb-archipelago/src/ledger.rs:755-762 | clears a block and returns its reason; the new state is the operation's, field for field |
| `SlotLedgers.SlotLedger.RewindTo` | crates/bb-archipelago/src/ledger.rs:797-806 | drops exactly the acknowledgements from the first missing index on and counts them; the new state is the operation's, field for field |
| `SlotLedgers.SlotLedger.ReconcileSaveWatermark` | crates/bb-archipelago/src/ledger.rs:817-848 | one outcome for each shape of recorded and observed watermark and cursor; the new state is the operation's, field for field |
| `Parks.StatusRoundTrip` | crates/bb-archipelago/src/ledger.rs:570-600 | a park's status is read back from the stored text exactly when the status has no space in it |
| `Parks.DetailRoundTrip` | crates/bb-archipelago/src/ledger.rs:577-600 | then the detail is read back whole, whatever characters it holds |
| `Lanes.NextSustainPrefersThePublished` | crates/bb-archipelago/src/client_loop.rs:546-567 | with at most one key published, that key is the one polled next, though a lower one waits |
| `Lanes.NextOperatorIsLowest` | crates/bb-archipelago/src/client_loop.rs:1750-1760 | the rescue lane polls the lowest unfinished key |
| `Lanes.PublishingASustain` | crates/bb-archipelago/src/client_loop.rs:2059-2078 | publishing the chosen sustain key leaves it the only sustain command and the one looked at next |
| `Lanes.QueueingARescue` | crates/bb-archipelago/src/client_loop.rs:1495-1549 | queueing a rescue publishes nothing, and leaves the published rescue the one looked at next exactly when that has a lower key |
| `Lanes.LowerRescueIsPublishedBesideTheOldOne` | crates/bb-archipelago/src/client_loop.rs:1755-1758 | otherwise the lane turns to the lower key and publishes it beside the old one: two rescue commands |
| `Lanes.QueueingPublishesNothing` | crates/bb-archipelago/src/client_loop.rs:1969-2010 | queueing bonuses for fresh checks publishes nothing |
| `NativeSlot.PublishingIsAlone` | crates/bb-archipelago/src/client_loop.rs:2059-2078 | a publication keeps at most one command outstanding over all lanes exactly when it finds no other one outstanding |
| `NativeSlot.NextKeepsOneCommand` | crates/bb-archipelago/src/client_loop.rs:1750-1862 | of all steps of the native slot exactly the unguarded ones break that rule: a publication beside an outstanding command, and a restart whose lanes on disk do not keep the rule beside the commands the game still has |
| `NativeSlot.OneCommandIffGuarded` | crates/bb-archipelago/src/client_loop.rs:2030-2147 | over any run of the slot at most one command is outstanding throughout exactly when every step is guarded |
| `NativeSlot.StraysComeFromDroppedPlans` | crates/bb-archipelago/src/client_loop.rs:2588-2640 | an outstanding AP command loses its plan exactly when an operation drops the plan or a crash loads a ledger without it; only restores, watermark verdicts, parks, acknowledgements and reissues drop plans |
| `NativeSlot.BonusIsQueuedOnce` | crates/bb-archipelago/src/client_loop.rs:1969-2010 | over any run of queueing, lane work, saves and crashes a bonus is queued once in its life, and once more for each time a crash dropped it unsaved |
| `ClientLoops.ClientLoop.AppliedExactlyOnce` | crates/bb-archipelago/src/client_loop.rs:2524-2934 | wherever the client is, a delivered index was applied; while every publication was backed each index was applied at most once more than it was reopened, and exactly once if delivered and never reopened |
| `ClientLoops.ClientLoop.PlanIsHead` | crates/bb-archipelago/src/client_loop.rs:2637-2646 | whenever a plan is in progress it is for the next index, and that index is not acknowledged |
| `ClientLoops.ClientLoop.OneCommandUnlessClash` | crates/bb-archipelago/src/client_loop.rs:1750-1862 | wherever the client is, no clash is remembered exactly while at most one command was outstanding at every moment so far |
| `ClientLoops.ClientLoop.BonusWasQueuedOnce` | crates/bb-archipelago/src/client_loop.rs:1969-2010 | wherever the client is, each bonus was queued once if it is owed or finished, and once more for each time a crash dropped it |
| `ClientLoops.ClientLoop.PlanIsAtClosedForm` | crates/bb-archipelago/src/client_loop.rs:2296-2421 | wherever the client is, the plan of a weapon stands at the closed form of some readings of the level, whatever refreshes, baselines and marks came in between |
| `ClientLoops.ClientLoop.PollItems` | crates/bb-archipelago/src/client_loop.rs:2524-2934 | a poll is a run of protocol steps; an item that is answered for was due, and if delivered was applied and is acknowledged; a due item is delivered or parked unless its plan is impossible or an answer stood in the way; a plan for a received item never mismatches; a wait behind a sustain command is counted; publishing without backing needs an earlier failed save or an unreadable stack; two commands come only from granting beside a rescue or a command without its plan; it fails on a refused deferral exactly when the lowest deferred index is orphaned, a Vial is held and the game lets go |
| `ClientLoops.OrphanIsStuck` | crates/bb-archipelago/src/client_loop.rs:657-705 | that failure comes on every poll with a Vial held and the refusal released exactly when the park of the lowest deferred index is gone |
| `ClientLoops.ClientLoop.PollQueue` | crates/bb-archipelago/src/client_loop.rs:2547-2666 | with no sustain published the answer is the first obstacle in a fixed order: a repeated index, nothing due, the context, the watermark; only then is the due index delivered or parked; it is idle with a plan in progress only if the stream lacks the plan's index |
| `ClientLoops.ClientLoop.PollDue` | crates/bb-archipelago/src/client_loop.rs:2588-2646 | with an item due: no context waits or fails, Hold holds, Reissue and Adopt report themselves, and only Resume delivers; an unreadable or unsaved watermark is an error |
| `ClientLoops.ClientLoop.PollIdle` | crates/bb-archipelago/src/client_loop.rs:2552-2577 | with nothing due a restore is still noticed: the watermark is compared whenever one is recorded and the context is ready |
| `ClientLoops.ClientLoop.GrantItem` | crates/bb-archipelago/src/client_loop.rs:2798-2816 | a command is published only in a validated context and after a Resume of the same poll; `exact` stands exactly when the publication is backed, and the one-command rule exactly when the command is not left outstanding or finds no other |
| `ClientLoops.ClientLoop.ReconcileWatermark` | crates/bb-archipelago/src/client_loop.rs:784-807 | the ledger's verdict on the observed watermark, saved unless it is Resume; after a failed save the memory has followed it and the poll is an error; an unreadable field changes nothing |
| `ClientLoops.ClientLoop.AwardLanded` | crates/bb-archipelago/src/client_loop.rs:2834-2854 | a bridge token is done exactly when its flag is raised and no token is held |
| `ClientLoops.ClientLoop.PollPublished` | crates/bb-archipelago/src/client_loop.rs:2543-2577 | a published bonus is advanced first, and the queue is polled only once no bonus holds the lane |
| `ClientLoops.ClientLoop.ClearSustain` | crates/bb-archipelago/src/client_loop.rs:2041-2057 | no bonus is published without a ready context and a watermark that does not hold |
| `ClientLoops.ClientLoop.FinishOperator` | crates/bb-archipelago/src/client_loop.rs:1831-1862 | each answer to a rescue has one outcome, lane and park text included |
| `ClientLoops.ClientLoop.EnsurePlan` | crates/bb-archipelago/src/client_loop.rs:2637-2666 | a new plan is the planner's for some reading; an old one changes only by a refresh, and only before its baseline is recorded |
| `ClientLoops.ClientLoop.ResolveBaseline` | crates/bb-archipelago/src/client_loop.rs:2751-2797 | a recorded baseline is kept while the command may have applied; a fresh one is saved first; when that save fails the baseline stays in memory, the disk stays without it, and the poll is an error |
| `ClientLoops.ClientLoop.GrantHead` | crates/bb-archipelago/src/client_loop.rs:2723-2832 | the grant waits with its plan, parks the head under the refusal's own status and detail, or is recorded complete once the game applied it; its publication is backed unless an earlier save failed or the stack cannot be read |
| `ClientLoops.ClientLoop.FinishDelivery` | crates/bb-archipelago/src/client_loop.rs:2834-2934 | an item is acknowledged with its plan's row, only after its award landed and its equip ended, and the index was applied; a failed save of it is an error |
| `ClientLoops.ClientLoop.ParkTerminalGrant` | crates/bb-archipelago/src/client_loop.rs:2967-3021 | a terminal refusal parks the head under its own reason, defers it exactly when it is a refused Vial, and lets the stream move on; a failed save is an error |
| `ClientLoops.ClientLoop.LoseContext` | crates/bb-archipelago/src/client_loop.rs:2592-2632 | losing the context asks for an unfinished command back; its baseline is dropped exactly when the withdrawal answers true; a withdrawal or a save that fails is an error |
| `ClientLoops.ClientLoop.RetryDeferredVials` | crates/bb-archipelago/src/client_loop.rs:657-748 | gives back nothing, the lowest deferred AP Vial, or one deferred bonus; publishes nothing and touches no plan; the ledger refuses exactly for an orphan the game lets go of |
| `ClientLoops.ClientLoop.PollSustain` | crates/bb-archipelago/src/client_loop.rs:2030-2147 | the side lane either frees the native slot or says why it waits; waits on a published command are counted and end below 600; the one-command rule is broken only by publishing a bonus that was not published beside an AP command or rescue outstanding at the start |
| `ClientLoops.ClientLoop.RecordSustain` | crates/bb-archipelago/src/client_loop.rs:2067-2078 | recording the baseline of a bonus keeps the one-command rule exactly when no other command is outstanding |
| `ClientLoops.ClientLoop.FinishSustain` | crates/bb-archipelago/src/client_loop.rs:2088-2147 | each answer to a bonus has one outcome; pending waits are counted and the 600th retires the command, or is an error when the retirement fails; every other answer frees the lane or is an error |
| `ClientLoops.ClientLoop.PollOperatorGrant` | crates/bb-archipelago/src/client_loop.rs:1750-1862 | a rescue is published only with no plan and no sustain command; the one-command rule is broken only by publishing it beside an AP command without its plan or another rescue; while it stands no rescue is left published, unless the answer is pending, an error or a wait for the items |
| `ClientLoops.ClientLoop.Tick` | crates/bb-archipelago/src/main.rs:2121-2340 | rescues, then items, then sustain: a round breaks the one-command rule only by publishing beside a command outstanding before it (a rescue or item beside a command without its plan or a rescue, a bonus beside any when the items are idle); a round that starts in order with the plan's item received keeps it |
| `ClientLoops.EmptyListPublishesBesideThePlan` | crates/bb-archipelago/src/client_loop.rs:2552-2577 | at a concrete state, a plan on disk with its command armed, an empty list and a bonus owed: the queue is idle, the bonus is next, and publishing it puts two commands in the slot |
| `ClientLoops.DroppedPlanPublishesBesideItsCommand` | crates/bb-archipelago/src/client_loop.rs:2041-2078 | a concrete run: the plan is published and armed, the look at the watermark that comes before a bonus adopts another cursor and drops the plan, and the bonus is published beside the command |
| `ClientLoops.ClientLoop.PollUntilLaneIsFree` | crates/bb-archipelago/src/client_loop.rs:2543-2549 | an AP item waits behind a sustain command for at most 600 polls, whatever the game answers |
| `ClientLoops.ClientLoop.PollWhilePublished` | crates/bb-archipelago/src/client_loop.rs:2543-2549 | over any sequence of polls, whatever they answer in between, fewer than 600 wait behind one published bonus |
| `ClientLoops.ClientLoop.Reload` | crates/bb-archipelago/src/client_loop.rs:494-523 | a crash at any point reloads the saved ledger and the run goes on; the one-command rule is kept exactly when the lanes on disk keep it beside the commands the game has |
| `ClientLoops.ClientLoop.Restart` | crates/bb-archipelago/src/client_loop.rs:2430-2499 | a restart reloads the ledger, asks back one leftover command (the plan's, else a bonus's, else a rescue's) and requeues the fixed and now compatible parks unless a plan is in progress |
| `ClientLoops.ClientLoop.RescueRetryBlocked` | crates/bb-archipelago/src/client_loop.rs:1105-1139 | an operator retry requeues one parked entry or changes nothing; a failed save leaves it requeued in memory |
| `ClientLoops.ClientLoop.RescueReissuePending` | crates/bb-archipelago/src/client_loop.rs:1141-1219 | a reissue happens only when the token is in neither inventory nor storage |
| `ClientLoops.ClientLoop.RescueGive` | crates/bb-archipelago/src/client_loop.rs:1495-1549 | a rescue is queued once per item, and queueing publishes nothing |
| `ClientLoops.ClientLoop.QueueSustainForChecks` | crates/bb-archipelago/src/client_loop.rs:1969-2010 | queues exactly the keys that are neither owed nor finished; every other operation keeps the set of keys |
| `ClientLoops.ClientLoop.AttestRestore` | crates/bb-archipelago/src/ledger.rs:810-813 | an attested restore is the ledger's rewind; a failed save is answered |
| `ClientLoops.IndexedReceived` | crates/bb-archipelago/src/client_loop.rs:2256-2266 | the received list is accepted exactly when no index repeats, and is then indexed in full |
| `Planning.PlanLevelIsLargestTarget` | crates/bb-archipelago/src/client_loop.rs:2296-2421 | after any series of readings the plan's level is max(received, min(10, largest target)), its descriptors moved by 100 a level, and there is no plan exactly while every reading held |
| `Planning.PlansArePathIndependent` | crates/bb-archipelago/src/client_loop.rs:2324-2421 | two series with the same readings, in any order and number, give the same weapon |
| `Planning.GrownPlanIsClosedForm` | crates/bb-archipelago/src/client_loop.rs:2637-2707 | a plan whose weapon row readings lead to stands at the closed form of some readings; the client keeps that of every plan, in memory and on disk (`ClientLoops.ClientLoop.PlanIsAtClosedForm`) |
| `Planning.RefreshedPlanIsGrown` | crates/bb-archipelago/src/client_loop.rs:2646-2707 | a refresh of such a plan before its baseline is recorded gives such a plan |
| `Planning.RefreshOnlyRaises` | crates/bb-archipelago/src/ledger.rs:445-473 | a refresh never lowers a plan, changes only the weapon row, and changes nothing once a baseline is recorded |
| `Planning.LargestTargetIsLargest` | crates/bb-archipelago/src/upgrades.rs:12-20 | the level target is an upper bound of the readings and one of them |
| `Planning.ComputeEquipTarget` | crates/bb-archipelago/src/client_loop.rs:2268-2294 | the per-index decision is the one counting the facts before it gives |
| `EquipFeed.ComputeEquipDecisions` | crates/bb-archipelago/src/feed.rs:66-108 | fails exactly on indices that do not rise strictly, naming the first bad pair; otherwise gives the counted decisions |
| `EquipFeed.DecisionsOfPrefix` | crates/bb-archipelago/src/feed.rs:66-108 | decisions on a prefix are a prefix of the decisions on the whole stream |
| `EquipFeed.DecisionsComeFromFacts` | crates/bb-archipelago/src/feed.rs:66-108 | every decision belongs to a fact and sends it where counting says |
| `EquipFeed.DeliveryDecisionIsReplayDecision` | crates/bb-archipelago/src/client_loop.rs:2268-2291 | the decision made at delivery from the stream so far is the one a full replay gives |
| `EquipFeed.HandLoadsAreBalanced` | crates/bb-archipelago/src/feed.rs:78-92 | the two slots of a hand take turns: their loads differ by at most one and together hold every weapon |
| `Isotonic.ComputeIsotonic` | tools/derive_native_tiers.py:88-107 | terminates, keeps length and sum, leaves a non-decreasing input alone and returns the non-decreasing sequence of least squared error |
| `Isotonic.Pooled` | tools/derive_native_tiers.py:95-103 | the merge loop ends with pools of ascending mean that spell out the input in order |
| `Isotonic.MergedPool` | tools/derive_native_tiers.py:100-103 | merging a falling pair gives a pool whose every beginning has at least its mean |
| `Isotonic.PoolsAreBestFit` | tools/derive_native_tiers.py:104-107 | ascending pools spell out the best fit: any other non-decreasing candidate is worse by at least its own distance from it |
| `Isotonic.BestFitIsUnique` | tools/derive_native_tiers.py:88-94 | there is one best fit, and a non-decreasing input is its own |
| `TierBands.ComputeGroups` | tools/derive_native_tiers.py:143-148 | every fitted value has a group within the tolerance; medians and indices rise strictly; a group carries the highest rung in it |
| `TierBands.ComputeBounds` | tools/derive_native_tiers.py:153-158 | one edge between each pair of neighbouring groups, under the lower group's rung |
| `TierBands.NativeFor` | tools/derive_native_tiers.py:160-167 | the rung of the band that holds the reward; a group's own median gives that group's rung and an exact edge the stronger one |
| `TierBands.EdgesRise` | tools/derive_native_tiers.py:153-158 | edges rise strictly, compared by squares |
| `TierBands.EdgeIsBetween` | tools/derive_native_tiers.py:153-158 | an edge lies strictly between its two medians, geometric or arithmetic |
| `TierBands.BandsAreMonotone` | tools/derive_native_tiers.py:160-167 | a larger reward never gets a lower rung, and no reward lies in two bands |
| `TierBands.OwnMedianIsInBand` | tools/derive_native_tiers.py:143-167 | no band is unreachable: each group's median lies in its own |
| `TierBands.HeldValueIsInBand` | tools/derive_native_tiers.py:143-167 | a value of a group lies in the group's band exactly when it is under the edge above, by squares or by the arithmetic midpoint |
| `TierBands.WholeGroupKeepsRung` | tools/derive_native_tiers.py:143-167 | every value a group can hold keeps the group's rung exactly when the group is the last or the gap above its median is wide enough |
| `TierBands.CollapsedValueMayLoseItsRung` | tools/derive_native_tiers.py:143-167 | three fitted values of which the second joins the first one's group and gets the stronger rung |
| `TierBands.EdgeTakesStrongerRung` | tools/derive_native_tiers.py:160-167 | a reward exactly on an edge lies in the band above |
| `TierBands.DeriveRung` | tools/derive_native_tiers.py:133-167 | from sample medians to rung: best fit, grouping and lookup; no rung exactly on an empty sample; a value of a group gets the group's rung exactly when it is under the edge above, the whole group where the gap is wide enough; medians already apart look themselves up |
| `EventFlags.LocateLandsOnGroup` | crates/bb-archipelago/src/event_flags.rs:318-371 | on any memory a successful lookup ends on a node whose key is the flag's group |
| `EventFlags.LocateIsBankOf` | crates/bb-archipelago/src/event_flags.rs:318-371 | on a search tree of height at most 512 the lookup is the tree's own answer: it succeeds exactly for a present group with supported, non-null storage |
| `EventFlags.WalkFindsLowerBound` | crates/bb-archipelago/src/event_flags.rs:337-353 | the bounded walk finds the lowest node at or over the group |
| `EventFlags.LowerBoundIsGroup` | crates/bb-archipelago/src/event_flags.rs:355-358 | that node is the group's when the group is present, and otherwise is keyed above it |
| `EventFlags.FindBankIsBankOf` | crates/bb-archipelago/src/event_flags.rs:337-366 | on a described search tree the bank found for a group is the tree's own answer, and it is absent exactly when no node has the group's key |
| `EventFlags.WriteUpdatesOneFlag` | crates/bb-archipelago/src/event_flags.rs:373-397 | a write succeeds exactly when the flag can be read, sets it, leaves every other flag as it was and keeps the structure |
| `EventFlags.PackedBanksAreApart` | crates/bb-archipelago/src/event_flags.rs:359-366 | packed banks of different indices are apart when a group's bits fit the stride |
| `EventFlags.StoredBit` | crates/bb-archipelago/src/event_flags.rs:369-393 | storing one bit of a byte sets that bit and no other, most significant first |
| `EventFlagProcess.Process.AddressAndMask` | crates/bb-archipelago/src/event_flags.rs:318-371 | the lookup over live memory, with its eight refusals |
| `EventFlagProcess.Process.Descend` | crates/bb-archipelago/src/event_flags.rs:337-353 | the loop of at most 512 links is the recursive walk |
| `EventFlagProcess.Process.Read` | crates/bb-archipelago/src/event_flags.rs:373-377 | reads the located bit |
| `EventFlagProcess.Process.Write` | crates/bb-archipelago/src/event_flags.rs:379-397 | writes the bit, reads it back, and changes no other flag of a described memory |
| `CivilDate.CivilHasItsDayNumber` | crates/bb-archipelago/src/logging.rs:66-77 | every day count, negative ones too, becomes a calendar date whose day number is that count |
| `CivilDate.DayNumberRoundTrip` | crates/bb-archipelago/src/logging.rs:66-77 | a date is what its day number converts to, and only that number |
| `CivilDate.ConsecutiveCounts` | crates/bb-archipelago/src/logging.rs:66-77 | consecutive counts give consecutive dates |
| `CivilDate.NextDayIsNextNumber` | crates/bb-archipelago/src/logging.rs:66-77 | the reference numbering itself: the next day has the next number and the epoch has 0 |
| `CivilDate.StampRoundTrip` | crates/bb-archipelago/src/logging.rs:81-87 | the printed stamp determines the second |
| `LedgerFile.SaveIsCrashAtomic` | crates/bb-archipelago/src/ledger.rs:323-353 | after a crash at any step `load` returns the old or the new ledger, exactly when it is not an unreadable live file over a good backup |
| `LedgerFile.LoadIsLastCommitted` | crates/bb-archipelago/src/ledger.rs:282-353 | over any run of saves and crashes from an empty disk `load` returns the last ledger whose save reached its rename |
| `LedgerFile.LiveStaysReadable` | crates/bb-archipelago/src/ledger.rs:331-351 | no step of a save tears the live file |
| `LedgerFile.LedgerFiles.Save` | crates/bb-archipelago/src/ledger.rs:323-353 | succeeds exactly when its write, copy and rename do; then live is the new ledger and the backup the old; a failed save leaves live alone |
| `LedgerFile.LedgerFiles.Retry` | crates/bb-archipelago/src/ledger.rs:248-268 | six tries at most; succeeds exactly when only lock violations precede a success among them |
| `LocationChecks.ReportedExactlyWhenDue` | crates/bb-archipelago/src/client_loop.rs:2218-2246 | a reading is reported exactly when it completes the debounce and is first or past its delay |
| `LocationChecks.HistoryOfTrack` | crates/bb-archipelago/src/client_loop.rs:2218-2252 | streak and schedule are functions of the history; consecutive reports k and k+1 lie at least min(2^k, 30) seconds apart |
| `LocationChecks.DelayIsCappedPower` | crates/bb-archipelago/src/client_loop.rs:2226-2242 | the delay after report k is min(2^k, 30) |
| `LocationChecks.ReportsAreBounded` | crates/bb-archipelago/src/client_loop.rs:2218-2246 | in T >= 31 uninterrupted seconds there are at most 6 + (T - 31)/30 reports |
| `LocationChecks.ReportNeedsDebounce` | crates/bb-archipelago/src/client_loop.rs:2218-2228 | a report has at least the debounce of true readings behind it |
| `LocationChecks.LocationChecks.PollLocations` | crates/bb-archipelago/src/client_loop.rs:2153-2254 | one poll moves every location by exactly its events, binding by binding, a location bound twice included; a new identity, a hold or an error forgets them all; reports come in binding order |
| `LocationChecks.LocationChecks.ResetRetryBackoff` | crates/bb-archipelago/src/client_loop.rs:1959-1961 | a reset clears the schedule and keeps the debounce |
| `LocalDeath.LocalDeathObserver.Observe` | crates/bb-archipelago/src/client_loop.rs:395-446 | a death is believed exactly when the last two readings are zero and the phase was alive; it is an echo exactly when a kill was armed within 19 observable polls and not spent |
| `LocalDeath.EdgesAreSeparated` | crates/bb-archipelago/src/client_loop.rs:395-446 | two deaths have an unobservable poll, or two live readings in a row, between them |
| `LocalDeath.DeadStaysDead` | crates/bb-archipelago/src/client_loop.rs:414-441 | without either the phase stays dead |
| `LocalDeath.AliveNeedsReading` | crates/bb-archipelago/src/client_loop.rs:395-446 | a death needs a live reading since the last unobservable poll |
| `LocalDeath.ArmedForIsUnspent` | crates/bb-archipelago/src/client_loop.rs:391-441 | the budget counts from the one arming that no death or return to life has spent |
| `LocalDeath.NextReading` | crates/bb-archipelago/src/client_loop.rs:406-441 | the phase and streak after one more reading, mixed readings from the unknown phase included |
| `DeathLink.SendsAreExact` | crates/bb-archipelago/src/client_loop.rs:870-896 | of n deaths exactly (n - g)/(a + 1) are sent, and the grace is spent once at most |
| `DeathLink.DeathLinkClient.RecordQualifyingLocalDeath` | crates/bb-archipelago/src/client_loop.rs:870-896 | a reported decision is the closed form's for the next place in the count, and is saved first; a failed save reports nothing and keeps the death counted in memory |
| `DeathLink.DeathLinkClient.ChangeCounter` | crates/bb-archipelago/src/client_loop.rs:876-892 | the counter moves one place along the closed form, in memory alone; a crash may follow |
| `DeathLink.DeathLinkClient.ReportsFollowClosedForm` | crates/bb-archipelago/src/client_loop.rs:870-896 | the reports are the closed form exactly while no death is missing before a graced one and a whole number of cycles is missing before every report |
| `DeathLink.MissedDeathShiftsTheCycle` | crates/bb-archipelago/src/client_loop.rs:870-896 | a concrete history that is not: one failed save makes the first report a send where the closed form forgives |
| `DeathLink.DeathLinkClient.Restart` | crates/bb-archipelago/src/client_loop.rs:494-523 | a restart between any two steps forgets exactly the deaths whose save never succeeded |
| `ArchipelagoClient.SliceKeepsPrefix` | crates/archipelago-rs/src/client.rs:930-967 | a slice of the server's stream keeps the list a prefix of it exactly when it does not reach back into the list without starting over |
| `ArchipelagoClient.ListTracksStream` | crates/archipelago-rs/src/client.rs:930-967 | over any run of well-sent messages the list is a prefix of the stream, entry i under index i, and no index repeats |
| `ArchipelagoClient.ReachingBackIsRejected` | crates/bb-archipelago/src/client_loop.rs:2256-2266 | a slice that reaches back repeats an index, and the delivery loop then rejects the list |
| `ArchipelagoClient.StartingOverRestores` | crates/archipelago-rs/src/client.rs:930-938 | the answer to a Sync restores the prefix whatever the list was |
| `ArchipelagoClient.PrefixIsAccepted` | crates/bb-archipelago/src/client_loop.rs:2256-2266 | a prefix of the stream is never rejected |
| `ArchipelagoClient.Client.HandleReceivedItems` | crates/archipelago-rs/src/client.rs:930-967 | a gap sends Sync and changes nothing; index 0 starts over; a failed hydration adds nothing |
| `ArchipelagoClient.Client.MarkChecked` | crates/archipelago-rs/src/client.rs:590-608 | each location of the slot earns its hint points once, and nothing changes on a refusal |
| `ArchipelagoClient.Client.UpdateCheckedLocations` | crates/archipelago-rs/src/client.rs:1169-1180 | the server's news are announced once, and never for a location already credited here; a location the game lacks is an error that changes nothing; the client panics exactly on one that the game has and that is neither of the slot nor marked before |
| `MockBackends.MockBackend.GrantItem` | crates/bb-archipelago/src/backend.rs:582-626 | the mock's grant is a grant the protocol allows: a tag applies once between restores, against the expected quantity, and lands whole on its own stack |
| `MockBackends.MockBackend.GrantMayHaveApplied` | crates/bb-archipelago/src/backend.rs:568-576 | the mock's answer keeps the contract exactly while a tag marked retained has not completed |
| `MockBackends.MockBackend.WithdrawUnwitnessedGrant` | crates/bb-archipelago/src/backend.rs:647-650 | the mock always answers true, which keeps the contract exactly for tags that have not completed |
| `MockBackends.GrantAddsItsQuantity` | crates/bb-archipelago/src/backend.rs:609-621 | a grant adds its quantity to its own item and nothing to any other, exactly unless the stack saturates |

## Left out

- ClientLoops.ClientLoop.ResolveBaseline: an observation answered as unsupported publishes against an amount that is never recorded (crates/bb-archipelago/src/client_loop.rs:2786-2795); the amount is left open, and `exact` falls unless the publication is backed otherwise.
- ClientLoops.ClientLoop.PublishSustain: a backend that cannot read the inventory at all answers every observation as unsupported; it is not modelled for the sustain and rescue lanes, where it publishes with nothing recorded.
- ClientLoops.ClientLoop.EnsurePlan: does not model the wording of plan errors or the contract loader's row checks; a validated binding is one of `Planning.ValidBinding`.
- ClientLoops.ClientLoop.ParkTerminalGrant: abbreviates the park text of shields and of unknown evidence; the status that decides later requeues is the source's.
- DeliveryProtocol.ExactlyOnce: does not cover sustain bonuses and rescue grants, whose commands have their own keys, nor the equip command, which the game cannot be asked to count.
- NativeSlot.OneCommandIffGuarded: a bonus or a rescue counts as outstanding from the record of its baseline until its row leaves the ledger's lane, an AP command until the game has applied it or given it back; what a machine with two commands does is not modelled.
- MockBackends.MockBackend.GrantItem: tags are AP indices, and the mock's equips, flags, hit points and watermark are left out, as they hold no command state.
- EventFlags.LocateIsBankOf: addresses do not wrap at 2^64.
- LedgerFile.LedgerFiles.Save: a failed copy is taken to leave the backup torn, the worst case; disk-full and permission details are one failed write.
- LocationChecks.LocationChecks.PollLocations: time is whole seconds.
- A failed save inside the polling loop leaves the file as it was; what a torn file does is `LedgerFile.dfy`'s subject.
- Indices are unbounded: the wrap of a 64-bit index or counter is not modelled.
- Binding the slot to a character save, and refusing another save, are one answer of the context.
- The one-off import of historical Vial refusals; runs start from an empty ledger.
- Floating point in the tier script: reals are used, and edges are compared by squares.
- The native delivery machine, process attachment, log parsing and file hashing.
- Rescue console text, recipes, diagnosis lines, names, toasts and the victory summary.
- The Archipelago handshake, sockets, data package and scouting; messages are values.
