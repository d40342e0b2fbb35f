/** Concrete runs of the routes: the accept and reject walk-throughs, a
    self-swap, two proposals racing for one slot, and the two ways the slot
    routes as written let a SWAP_PENDING slot lose its pending request. */
module Scenarios {
  import opened Common
  import opened Text
  import opened EventModel
  import opened SwapRequestModel
  import opened Store
  import opened EventRoutes
  import opened SwapRoutes
  import opened Invariants
  import opened SlotFacts

  const Alice: UserId := 1
  const Bob: UserId := 2
  const Carol: UserId := 3

  /** Alice's slot 0 (10:00-11:00) and Bob's slot 1 (14:00-15:00), both
      SWAPPABLE; times are minutes of the day. */
  const TwoSlots: State :=
    State(map[0 := Slot("Standup", 600, 660, Swappable, Alice),
              1 := Slot("Review", 840, 900, Swappable, Bob)], map[], 2)

  /** Alice's slot alone, as the create route stores it. */
  const OneSlot: State := State(map[0 := Slot("Standup", 600, 660, Swappable, Alice)], map[], 1)

  /** Alice's create from nothing stores her slot under id 0. */
  lemma OneSlotByCreate()
    ensures Create(Empty, Alice, "Standup", At(600), At(660), "SWAPPABLE") == Ok((OneSlot, 0))
  {
    CreateStoresExactSlot(Empty, Alice, "Standup", 600, 660, Swappable);
  }

  /** Bob's create then stores his slot under id 1. */
  lemma SecondSlotByCreate()
    ensures Create(OneSlot, Bob, "Review", At(840), At(900), "SWAPPABLE") == Ok((TwoSlots, 1))
  {
    CreateStoresExactSlot(OneSlot, Bob, "Review", 840, 900, Swappable);
  }

  /** So that store is what two calls of the create route build from nothing. */
  lemma TwoSlotsByCreate()
    ensures var r1 := Create(Empty, Alice, "Standup", At(600), At(660), "SWAPPABLE");
      && r1.Ok? && Create(r1.value.0, Bob, "Review", At(840), At(900), "SWAPPABLE").Ok?
      && Create(r1.value.0, Bob, "Review", At(840), At(900), "SWAPPABLE").value.0 == TwoSlots
  {
    OneSlotByCreate();
    SecondSlotByCreate();
  }

  lemma TwoSlotsConsistent()
    ensures WellFormed(TwoSlots) && PendingConsistent(TwoSlots)
  {
    var st := TwoSlots;
    assert !Pinned(st, 0) && !Pinned(st, 1);
  }

  /** Alice offers slot 0 for Bob's slot 1 and Bob accepts: the request is
      ACCEPTED, Bob owns slot 0, Alice owns slot 1, both BUSY. */
  lemma AcceptWalkThrough()
    ensures var r1 := Propose(TwoSlots, Alice, 0, 1);
      && r1.Ok? && r1.value.1 == 2
      && var st1 := r1.value.0;
      && st1.requests[2].status == Pending
      && st1.slots[0].status == SwapPending && st1.slots[1].status == SwapPending
      && var r2 := Respond(st1, Bob, 2, true);
      && r2.Ok?
      && r2.value.requests[2].status == Accepted
      && r2.value.slots[0].owner == Bob && r2.value.slots[1].owner == Alice
      && r2.value.slots[0].status == Busy && r2.value.slots[1].status == Busy
  {
  }

  /** Same proposal, Bob rejects: the request is REJECTED, the owners stay,
      both slots are SWAPPABLE again. */
  lemma RejectWalkThrough()
    ensures var st1 := Propose(TwoSlots, Alice, 0, 1).value.0;
      var r2 := Respond(st1, Bob, 2, false);
      && r2.Ok?
      && r2.value.requests[2].status == Rejected
      && r2.value.slots[0].owner == Alice && r2.value.slots[1].owner == Bob
      && r2.value.slots[0].status == Swappable && r2.value.slots[1].status == Swappable
  {
  }

  /** Alice targets her own second slot: refused, nothing created. */
  lemma SelfSwapRefused()
    ensures var st := TwoSlots.(slots := TwoSlots.slots[2 := Slot("Lunch", 720, 780, Swappable, Alice)],
                                  nextId := 3);
      Propose(st, Alice, 0, 2) == Err(InvalidOperation(SelfSwap))
  {
  }

  /** Alice and Carol both want Bob's slot 1; whichever proposal runs first
      wins and the other sees a target that is no longer SWAPPABLE. */
  lemma RacingProposals()
    ensures var st := TwoSlots.(slots := TwoSlots.slots[2 := Slot("Gym", 1080, 1140, Swappable, Carol)],
                                  nextId := 3);
      && Propose(st, Alice, 0, 1).Ok?
      && Propose(Propose(st, Alice, 0, 1).value.0, Carol, 2, 1) == Err(InvalidOperation(TargetNotSwappable))
      && Propose(st, Carol, 2, 1).Ok?
      && Propose(Propose(st, Carol, 2, 1).value.0, Alice, 0, 1) == Err(InvalidOperation(TargetNotSwappable))
  {
  }

  // ----- the pending link broken by the slot routes as written ---------------

  /** After Alice proposes, she sets her pinned slot back to BUSY through the
      update route, which accepts it; the request is still PENDING but its
      slot is not pinned any more. She can then delete the slot, and Bob's
      accept fails with a server error, leaving the request PENDING and his
      own slot SWAP_PENDING. The corrected update refuses the first step. */
  lemma UpdateUnpinsPendingSlot()
    ensures var st1 := Propose(TwoSlots, Alice, 0, 1).value.0;
      && PendingConsistent(st1)
      && var r2 := Update(st1, Alice, 0, None, Absent, Absent, Some("BUSY"));
      && r2.Ok?
      && !PendingConsistent(r2.value)
      && var r3 := Delete(r2.value, Alice, 0);
      && r3.Ok?
      && Respond(r3.value, Bob, 2, true) == Err(ServerError)
      && r3.value.requests[2].status == Pending
      && r3.value.slots[1].status == SwapPending
      && GuardedUpdate(st1, Alice, 0, None, Absent, Absent, Some("BUSY"))
           == Err(InvalidOperation(InPendingSwap))
  {
    TwoSlotsConsistent();
    ProposePreservesPending(TwoSlots, Alice, 0, 1);
    var st1 := Propose(TwoSlots, Alice, 0, 1).value.0;
    var st2 := Update(st1, Alice, 0, None, Absent, Absent, Some("BUSY")).value;
    assert PendingAt(st2, 2) && !Linked(st2, st2.requests[2]);
  }

  /** The update route also lets an owner pin a slot that no request
      claims, which the corrected update refuses. */
  lemma UpdatePinsUnclaimedSlot()
    ensures var r := Update(TwoSlots, Alice, 0, None, Absent, Absent, Some("SWAP_PENDING"));
      && r.Ok?
      && !PendingConsistent(r.value)
      && GuardedUpdate(TwoSlots, Alice, 0, None, Absent, Absent, Some("SWAP_PENDING")).Err?
  {
    var st := Update(TwoSlots, Alice, 0, None, Absent, Absent, Some("SWAP_PENDING")).value;
    assert Pinned(st, 0);
    assert st.requests == map[];
  }

  /** The store after Carol creates slot 2 as SWAP_PENDING. */
  const GymPinned: State :=
    TwoSlots.(slots := TwoSlots.slots[2 := Slot("Gym", 1080, 1140, SwapPending, Carol)], nextId := 3)

  /** The create route accepts SWAP_PENDING as a starting status: the new
      slot is pinned with no request claiming it, so it cannot be proposed
      and its owner cannot delete it until they un-pin it through update.
      The corrected create refuses it. */
  lemma CreatePinsUnclaimedSlot()
    ensures Create(TwoSlots, Carol, "Gym", At(1080), At(1140), "SWAP_PENDING") == Ok((GymPinned, 2))
    ensures !PendingConsistent(GymPinned)
    ensures Delete(GymPinned, Carol, 2) == Err(InvalidOperation(InPendingSwap))
    ensures GuardedCreate(TwoSlots, Carol, "Gym", At(1080), At(1140), "SWAP_PENDING").Err?
  {
    GymCreate();
    assert Pinned(GymPinned, 2);
  }

  /** Carol's create with status SWAP_PENDING stores the pinned slot. */
  lemma GymCreate()
    ensures Create(TwoSlots, Carol, "Gym", At(1080), At(1140), "SWAP_PENDING") == Ok((GymPinned, 2))
  {
    CreateStoresExactSlot(TwoSlots, Carol, "Gym", 1080, 1140, SwapPending);
  }

  /** The pinned slot is not stuck for its owner, though: update as
      written un-pins it, after which the delete route accepts it. */
  lemma GymUnpinnedByUpdate()
    ensures var r := Update(GymPinned, Carol, 2, None, Absent, Absent, Some("BUSY"));
      && r.Ok? && r.value.slots[2].status == Busy
      && Delete(r.value, Carol, 2).Ok?
  {
  }
}
