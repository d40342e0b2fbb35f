# Event-Swapper: the slot-swap state machine

A Dafny model of the backend of Event-Swapper, a service where users publish
calendar slots, mark some of them SWAPPABLE, and negotiate one-to-one swaps.

The store is two maps and a counter (`Store.State`):

- the slots, id ↦ `Slot(title, start, end, status, owner)`, from the `Event` schema;
- the swap requests, id ↦ `SwapRequest(requesterSlot, targetSlot, requesterId, targetUserId, status, createdSeq)`, from the `SwapRequest` schema;
- `nextId`, the counter that issues slot ids, request ids and creation stamps. It stands for database object ids, which are never reused, and for the `createdAt` timestamps.

Each route handler is one pure transition. It returns either the new store or
a typed error (`Common.Error`): `NotFound` (404), `Forbidden` (403),
`InvalidOperation` (400, naming the broken rule), `Validation` (400, naming
the bad body fields) or `ServerError` (500). A failing route writes nothing.

Modules:

- `Text`: the whitespace trim that both the validator and the schema apply to titles.
- `EventModel`: the slot schema: the status enum and its default, and the save check (title required, end strictly after start).
- `SwapRequestModel`: the request schema.
- `EventRoutes`: the slot-management routes list, create, update and delete. It also holds `GuardedCreate` and `GuardedUpdate`, the corrected versions of two of them (see Findings).
- `SwapRoutes`: the swap routes: the marketplace listing, propose, the incoming and outgoing listings, and respond (accept or reject).
- `Listing`: the generic selection that all four listings use. It returns exactly the records a filter keeps, each once, sorted by a rank.
- `Invariants`: the invariants and their preservation proofs:
  - the schema invariants (`WellFormed`);
  - the pending link (`PendingConsistent`): every SWAP_PENDING slot belongs to exactly one PENDING request, whose two slots exist and are SWAP_PENDING.
- `Traces`: sequences of route calls.
  - `Run` replays the routes as written. It keeps `WellFormed`, and a terminal request stays as it is.
  - `GuardedRun` uses the corrected create and update. It also keeps the pending link.
  - So the pending invariant is proved for guarded traces: every route, with create and update restricted.
- `SwapFacts` and `SlotFacts`: properties that relate several calls.
- `Scenarios`: concrete runs, including the inputs behind the findings.

Points where the code behaves differently from what the rest of the program expects; the model follows the code:

- Respond does not check that the request's slots still exist. When one is missing it dereferences a null and fails with a 500 before writing, so the model returns `ServerError`.
- A save that the slot schema's interval rule refuses is reported as 400 by the slot routes but as 500 by the swap routes, whose error handler does not single it out.
- Create stores the body's status through the schema's enum. A status outside the enum fails schema validation, which the route reports as 500, not 400.
- Create and update both accept SWAP_PENDING as a status, and update edits a slot that a pending swap pins. The rest of the program treats SWAP_PENDING as off limits to owners. The create form offers only BUSY and SWAPPABLE (frontend/src/pages/Dashboard.js:136-142). The dashboard has no edit or delete action on a SWAP_PENDING slot (frontend/src/pages/Dashboard.js:188-214). The delete route refuses such a slot (backend/routes/events.js:116-119).

Every operation is assumed to be atomic. The source writes its three records
with `Promise.all` and no transaction. Each route is modelled as a single
all-or-nothing step, and this is an assumption the source does not guarantee.

## Model

| member | source | states |
|---|---|---|
| Text.Trim | backend/models/Event.js:4-8 | the stored title has no whitespace at either end and is a slice of the input with only whitespace cut away |
| Text.TrimEmptyIffAllSpace | backend/routes/events.js:26 | a title is empty after trimming exactly when it is all whitespace, which is what the create validator refuses |
| Text.TrimmedIsFixed | backend/models/Event.js:7 | trimming a title that has no outer whitespace leaves it unchanged |
| Text.TrimIdempotent | backend/models/Event.js:7 | the schema's trim of a title the validator already trimmed changes nothing |
| EventModel.ParseStatus | backend/models/Event.js:17-21 | a status name reads back only as the status with that name; a name outside BUSY, SWAPPABLE, SWAP_PENDING is refused |
| EventModel.ParseStatusName | backend/models/Event.js:19 | every status of the enum is accepted under its own name |
| EventModel.ParseStatusAccepts | backend/models/Event.js:19 | exactly the three names BUSY, SWAPPABLE and SWAP_PENDING are accepted |
| EventModel.SaveCheck | backend/models/Event.js:32-38 | a save passes exactly when the title is present and end is strictly after start; it fails with the interval error exactly when the title is present and end ≤ start |
| EventModel.SaveCheckIgnoresStatusAndOwner | backend/models/Event.js:32 | the save check runs on every save, but status and owner writes never change its verdict |
| Listing.InsertSorted | backend/routes/swaps.js:18 | inserting a key into a sorted list of distinct keys keeps it sorted and distinct and adds exactly that key |
| Listing.Select | backend/routes/swaps.js:13-18 | the result holds exactly the keys whose records pass the filter, each once, in non-decreasing rank |
| EventRoutes.ListMine | backend/routes/events.js:12-13 | lists exactly the caller's slots, each once, earliest start first |
| EventRoutes.Create | backend/routes/events.js:24-51 | succeeds exactly when the trimmed title is non-empty, both times are valid, end is after start and the status is absent or in the enum; a bad field gives 400 naming every bad field; an unknown status gives 500; end ≤ start gives 400; on success one new slot is owned by the caller with the trimmed title, the given times and the given status or BUSY, and nothing else changes |
| EventRoutes.Update | backend/routes/events.js:60-95 | body errors come first (400), then 404 for a missing slot and 403 for another user's slot, then 400 when the merged slot has end ≤ start; on success only the supplied fields of that slot change, its owner stays, and nothing else changes |
| EventRoutes.Delete | backend/routes/events.js:104-121 | 404 exactly when the slot is missing, 403 exactly when it is another user's, 400 exactly when it is SWAP_PENDING; otherwise exactly that slot is removed and nothing else changes |
| EventRoutes.GuardedCreate | backend/routes/events.js:42 | refuses SWAP_PENDING as a starting status and otherwise behaves as create, so a created slot is never SWAP_PENDING |
| EventRoutes.GuardedUpdate | backend/routes/events.js:65 | refuses SWAP_PENDING as a new status and refuses to edit a pinned slot; otherwise behaves as update, and never leaves the slot SWAP_PENDING |
| SwapRoutes.SwappableSlots | backend/routes/swaps.js:11-18 | lists exactly the SWAPPABLE slots of other users, each once, earliest start first |
| SwapRoutes.Propose | backend/routes/swaps.js:44-86 | 404 exactly when a slot is missing, then 403 exactly when the offered slot is not the caller's, then 400 exactly when the caller owns the target; success needs both slots SWAPPABLE; on success exactly one new PENDING request from the caller to the target's owner exists, both slots are SWAP_PENDING with owners, titles and times kept, and nothing else changes; of the two status checks the offered slot's comes first (400 naming it), then the target's; once every guard passes, 500 exactly when the slot schema's save check refuses either pinned slot |
| SwapRoutes.Incoming | backend/routes/swaps.js:104-113 | lists exactly the PENDING requests addressed to the caller, each once, newest first |
| SwapRoutes.Outgoing | backend/routes/swaps.js:125-133 | lists exactly the requests the caller made, in any status, each once, newest first |
| SwapRoutes.Respond | backend/routes/swaps.js:156-221 | 404 exactly when the request is missing, then 403 exactly when the caller is not its target user, then 400 exactly when it is already ACCEPTED or REJECTED; 500 exactly when the request is PENDING and addressed to the caller but a slot is missing or the slot schema's save check refuses an answered slot, before writing; accept exchanges the owners and makes both slots BUSY, reject keeps the owners and makes both SWAPPABLE; titles and times are kept and no other slot or request changes |
| Invariants.EmptyWellFormed | backend/models/Event.js:32-38 | the empty store satisfies the schema invariants |
| Invariants.CreatePreservesWellFormed | backend/routes/events.js:38-46 | a successful create keeps every slot persistable and every request sound |
| Invariants.UpdatePreservesWellFormed | backend/routes/events.js:84-90 | a successful update keeps the schema invariants |
| Invariants.DeletePreservesWellFormed | backend/routes/events.js:121 | a successful delete keeps the schema invariants |
| Invariants.ProposePreservesWellFormed | backend/routes/swaps.js:71-86 | a successful propose keeps the schema invariants; the new request has two different users and two different slots |
| Invariants.RespondPreservesWellFormed | backend/routes/swaps.js:174-209 | a successful answer keeps the schema invariants, since the save check passes on the rewritten slots |
| Invariants.ProposeFailsOnlyByGuard | backend/routes/swaps.js:47-68 | in a well-formed store, propose succeeds exactly when none of its five guards fires |
| Invariants.PendingSlotHasOneRequest | backend/routes/swaps.js:79-80 | under the pending link, a SWAP_PENDING slot is claimed by exactly one PENDING request |
| Invariants.UnpinnedSlotIsFree | backend/routes/swaps.js:178-184 | under the pending link, no PENDING request mentions a slot that is missing or not SWAP_PENDING |
| Invariants.EmptyPendingConsistent | backend/routes/swaps.js:79-80 | the empty store satisfies the pending link |
| Invariants.PinEffectPreserves | backend/routes/swaps.js:71-86 | adding one PENDING request that pins two free SWAPPABLE slots keeps the pending link |
| Invariants.ReleaseEffectPreserves | backend/routes/swaps.js:174-209 | moving one PENDING request to a final status and un-pinning its two slots keeps the pending link |
| Invariants.FreeSlotEffectPreserves | backend/routes/events.js:116-121 | changing or removing one slot that is not pinned, without pinning it, keeps the pending link |
| Invariants.ProposePreservesPending | backend/routes/swaps.js:71-86 | a successful propose keeps the pending link |
| Invariants.RespondPreservesPending | backend/routes/swaps.js:174-209 | a successful answer keeps the pending link |
| Invariants.DeletePreservesPending | backend/routes/events.js:116-121 | a successful delete keeps the pending link |
| Invariants.GuardedCreatePreservesPending | backend/routes/events.js:38-46 | the corrected create keeps the pending link |
| Invariants.GuardedUpdatePreservesPending | backend/routes/events.js:84-90 | the corrected update keeps the pending link |
| Invariants.RespondAnswersWhenSlotsExist | backend/routes/swaps.js:160-209 | in any well-formed store, respond succeeds exactly when the request exists, is PENDING, is addressed to the caller and both its slots still exist; the slots' current status and owners are not checked |
| Invariants.RespondFailsOnlyByGuard | backend/routes/swaps.js:160-184 | in a consistent store, respond succeeds exactly when the request exists, the caller is its target user and it is PENDING, so the missing-slot path is never reached |
| Traces.StepPreservesWellFormed | backend/models/Event.js:32-38 | every route as written keeps the schema invariants, whether it succeeds or fails |
| Traces.GuardedStepPreserves | backend/routes/swaps.js:79-80 | every route, with create and update corrected, keeps the schema invariants and the pending link |
| Traces.RunPreservesWellFormed | backend/models/Event.js:32-38 | any sequence of route calls as written keeps the schema invariants |
| Traces.GuardedRunPreserves | backend/routes/swaps.js:79-80 | any sequence of route calls with create and update corrected keeps the schema invariants and the pending link |
| Traces.ReachableRequestsAreSound | backend/routes/swaps.js:56-59 | in every reachable store, each request has different requester and target users and different slots, and each slot ends after it starts |
| Traces.ReachablePendingIsLinked | backend/routes/swaps.js:174-209 | with create and update corrected, every reachable store satisfies the pending link, and every PENDING request can be answered by its target user |
| Traces.TerminalIsFinal | backend/routes/swaps.js:169-172 | no route changes or removes an ACCEPTED or REJECTED request |
| Traces.TerminalIsFinalOnRuns | backend/routes/swaps.js:169-172 | a final request stays the same through any sequence of route calls |
| SwapFacts.SecondRespondFails | backend/routes/swaps.js:164-172 | after a successful answer, answering the same request again fails: 400 for its target user and 403 for anyone else |
| SwapFacts.AcceptExchangesOwners | backend/routes/swaps.js:174-194 | accept writes exactly the two slots, each with the other's owner and status BUSY, plus the request as ACCEPTED |
| SwapFacts.RejectReleasesSlots | backend/routes/swaps.js:195-209 | reject writes exactly the two slots as SWAPPABLE with their owners kept, plus the request as REJECTED |
| SwapFacts.ProposeThenRejectRestoresSlots | backend/routes/swaps.js:79-80 | a proposal followed by its rejection leaves every slot as it was before the proposal |
| SwapFacts.ProposeThenAcceptSwapsOwners | backend/routes/swaps.js:182-188 | a proposal followed by its acceptance gives the offered slot to the target's owner and the target slot to the proposer, both BUSY, and leaves every other slot as it was |
| SwapFacts.PinnedSlotCannotBeProposedAgain | backend/routes/swaps.js:62-68 | after a proposal, a second proposal that offers or targets either of its slots fails |
| SwapFacts.SecondProposalForTargetLoses | backend/routes/swaps.js:66-68 | of two proposals for the same target made one after the other, the second fails because the target is no longer SWAPPABLE |
| SwapFacts.ProposedRequestIsListed | backend/routes/swaps.js:104-133 | a new request is incoming for the target's owner, outgoing for the proposer, and not incoming for the proposer |
| SwapFacts.AnsweredRequestLeavesIncoming | backend/routes/swaps.js:104-133 | an answered request is incoming for nobody but stays outgoing for its requester |
| SlotFacts.CreatedPendingIffAsked | backend/routes/events.js:42 | a created slot is SWAP_PENDING exactly when the body asked for SWAP_PENDING |
| SlotFacts.CreateThenDeleteRestores | backend/routes/events.js:104-121 | deleting a slot right after creating it restores the slots and requests, unless it was created SWAP_PENDING, which the delete guard refuses |
| SlotFacts.DeleteAddedSlot | backend/routes/events.js:121 | deleting a slot that was added to a collection gives that collection back |
| SlotFacts.CreateStoresExactSlot | backend/routes/events.js:38-46 | a create with a trimmed title, ordered times and an enum status stores exactly that slot, owned by the caller, under the next id |
| SlotFacts.UpdateIdempotent | backend/routes/events.js:84-90 | repeating a successful update changes nothing more |
| SlotFacts.EmptyUpdateChangesNothing | backend/routes/events.js:84-88 | an update that supplies no field leaves the store unchanged |
| SlotFacts.StoredTitleIsTrimmed | backend/routes/events.js:26 | a created slot's title is trimmed and non-empty, and the title sent was not all whitespace |
| Scenarios.OneSlotByCreate | backend/routes/events.js:38-46 | Alice's create in the empty store stores her SWAPPABLE slot under id 0 |
| Scenarios.SecondSlotByCreate | backend/routes/events.js:38-46 | Bob's create then stores his SWAPPABLE slot under id 1 |
| Scenarios.TwoSlotsByCreate | backend/routes/events.js:38-46 | two creates from the empty store build the two-slot store used by the walk-throughs |
| Scenarios.TwoSlotsConsistent | backend/models/Event.js:32-38 | that store satisfies the schema invariants and the pending link |
| Scenarios.AcceptWalkThrough | backend/routes/swaps.js:174-194 | Alice proposes and Bob accepts: the request is ACCEPTED, Bob owns slot 0, Alice owns slot 1, both BUSY |
| Scenarios.RejectWalkThrough | backend/routes/swaps.js:195-209 | Alice proposes and Bob rejects: the request is REJECTED, the owners stay, both slots are SWAPPABLE |
| Scenarios.SelfSwapRefused | backend/routes/swaps.js:56-59 | a proposal that targets the caller's own slot fails with 400 |
| Scenarios.RacingProposals | backend/routes/swaps.js:66-68 | of Alice's and Carol's proposals for Bob's slot, whichever runs first wins and the other fails |
| Scenarios.UpdateUnpinsPendingSlot | backend/routes/events.js:84-88 | after a proposal, the owner can set the pinned slot to BUSY and then delete it, and the accept then fails with 500; the corrected update refuses the first step |
| Scenarios.UpdatePinsUnclaimedSlot | backend/routes/events.js:65 | update lets an owner set a slot that no request claims to SWAP_PENDING, breaking the pending link; the corrected update refuses it |
| Scenarios.CreatePinsUnclaimedSlot | backend/routes/events.js:42 | create stores a new slot as SWAP_PENDING with no request claiming it, after which its owner cannot delete it until they un-pin it through update; the corrected create refuses it |
| Scenarios.GymCreate | backend/routes/events.js:38-46 | Carol's create with status SWAP_PENDING stores the pinned slot under id 2 |
| Scenarios.GymUnpinnedByUpdate | backend/routes/events.js:84-90 | the owner of that pinned slot can set it to BUSY through update, after which the delete route accepts it |

## Left out

- Persistence, I/O and Mongoose itself. The store is two in-memory maps and a counter; `populate` joins and the user names and emails they add are display-only, so they are not modelled.
- The Express plumbing and the auth middleware. The authenticated user is the `caller` parameter, and HTTP status codes appear only as the typed errors listed above.
- Propose's body validation of `mySlotId` and `theirSlotId`, and malformed object ids (a cast error, so 500). Ids are naturals and are always given.
- Respond's validation of `accepted`. The flag is a boolean, so the 400 for a non-boolean value and the validator's acceptance of the strings "true" and "false" (the string "false" is truthy in the handler) are not modelled.
- ISO-8601 parsing and `Date` objects. A time field is `Absent`, `Malformed` or an integer instant.
- Whitespace beyond the characters listed in `Text.IsSpace`. The other Unicode space characters that JavaScript's trim also removes are not modelled.
- The `updatedAt` timestamps and the `createdAt` of slots, which no route reads. The request `createdAt` is the `createdSeq` stamp drawn from the store's counter.
- Concurrency. The non-transactional `Promise.all` writes are assumed atomic, and interleavings of two route calls are not modelled. `SwapFacts.SecondProposalForTargetLoses` and `Scenarios.RacingProposals` cover the sequential order of two proposals.
- The frontend, which only mirrors the backend rules.
- SwapRoutes.Incoming: the order of two requests with the same creation stamp is not stated. Stamps are unique in a well-formed store, so this never arises.
- SwapRoutes.Outgoing: the same holds for ties in the outgoing listing.
- SwapRoutes.SwappableSlots: the order of two slots with the same start is left open, as the source's sort leaves it.
- EventRoutes.ListMine: the same holds for ties in the caller's own listing.
- SwapRoutes.Respond: the owner exchange is stated only when the request's two slot ids differ. Propose never creates a request naming one slot twice, because it refuses a target the caller owns.

## Findings

| source | as written | input that shows it | evidently intended | confidence | as-written member | corrected member |
|---|---|---|---|---|---|---|
| backend/routes/events.js:84-88 | update edits a slot that a pending swap pins and lets its status be set back to BUSY or SWAPPABLE | Alice offers slot 0 for Bob's slot 1, sets slot 0 to BUSY through update, and deletes it; Bob's accept then fails with 500 and leaves his slot SWAP_PENDING. Through the frontend the slot stays stuck, because the dashboard offers no action on a SWAP_PENDING slot (frontend/src/pages/Dashboard.js:188-214); through the API only Bob's own update can un-pin it | a slot in SWAP_PENDING cannot be edited by its owner, as the delete guard already ensures for delete | not executed | Scenarios.UpdateUnpinsPendingSlot | EventRoutes.GuardedUpdate |
| backend/routes/events.js:65 | update accepts SWAP_PENDING as a new status | in the two-slot store, Alice sets her slot 0 to SWAP_PENDING; no request claims it, so the pending link is broken | only the swap routes move a slot into SWAP_PENDING | not executed | Scenarios.UpdatePinsUnclaimedSlot | EventRoutes.GuardedUpdate |
| backend/routes/events.js:42 | create stores any status of the enum, SWAP_PENDING included | Carol creates "Gym" with status SWAP_PENDING; the slot is pinned with no request claiming it, and the delete route refuses it. Through the frontend it stays stuck; through the API only Carol's own update can un-pin it | a slot starts as BUSY or SWAPPABLE | not executed | Scenarios.CreatePinsUnclaimedSlot | EventRoutes.GuardedCreate |

The corrected members are the ones `Traces.GuardedRun` uses, and
`Traces.ReachablePendingIsLinked` proves the pending link for every store they
can reach. The routes as written keep only the schema invariants
(`Traces.RunPreservesWellFormed`).
