/** Properties of the swap routes that relate several calls: an answer is
    final, a reject undoes a proposal, an accept is an exact exchange of
    owners, a pinned slot cannot enter a second swap, and the listings see
    each request where its users expect it. */
module SwapFacts {
  import opened Common
  import opened EventModel
  import opened SwapRequestModel
  import opened Store
  import opened SwapRoutes
  import opened Invariants

  /** After a successful answer, answering the same request again fails
      without writing: with 400 for its target user, 403 for anyone else. */
  lemma SecondRespondFails(st: State, caller: UserId, rid: RequestId, accepted: bool,
                           caller2: UserId, accepted2: bool)
    requires Respond(st, caller, rid, accepted).Ok?
    ensures var st' := Respond(st, caller, rid, accepted).value;
      Respond(st', caller2, rid, accepted2)
        == (if caller2 == caller then Err(InvalidOperation(AlreadyProcessed)) else Err(Forbidden))
  {
  }

  /** Accepting exchanges exactly the owners of the two slots, makes both
      BUSY, keeps their titles and times, and touches no other slot. */
  lemma AcceptExchangesOwners(st: State, caller: UserId, rid: RequestId)
    requires WellFormed(st)
    requires Respond(st, caller, rid, true).Ok?
    ensures var q := st.requests[rid];
      var m, t := q.requesterSlot, q.targetSlot;
      var st' := Respond(st, caller, rid, true).value;
      && st'.slots == st.slots[m := st.slots[m].(owner := st.slots[t].owner, status := Busy)]
                              [t := st.slots[t].(owner := st.slots[m].owner, status := Busy)]
      && st'.requests == st.requests[rid := q.(status := Accepted)]
  {
    var q := st.requests[rid];
    assert q.requesterSlot != q.targetSlot;
  }

  /** Rejecting keeps both owners and makes both slots SWAPPABLE. */
  lemma RejectReleasesSlots(st: State, caller: UserId, rid: RequestId)
    requires Respond(st, caller, rid, false).Ok?
    ensures var q := st.requests[rid];
      var m, t := q.requesterSlot, q.targetSlot;
      var st' := Respond(st, caller, rid, false).value;
      && st'.slots == st.slots[m := st.slots[m].(status := Swappable)]
                              [t := st.slots[t].(status := Swappable)]
      && st'.requests == st.requests[rid := q.(status := Rejected)]
  {
  }

  /** A proposal followed by its rejection leaves every slot exactly as it
      was before the proposal; only the REJECTED request remains. */
  lemma ProposeThenRejectRestoresSlots(st: State, caller: UserId, mine: SlotId, theirs: SlotId)
    requires WellFormed(st)
    requires Propose(st, caller, mine, theirs).Ok?
    ensures var (st1, rid) := Propose(st, caller, mine, theirs).value;
      var r := Respond(st1, st.slots[theirs].owner, rid, false);
      && r.Ok?
      && r.value.slots == st.slots
      && r.value.requests == st1.requests[rid := st1.requests[rid].(status := Rejected)]
  {
    var (st1, rid) := Propose(st, caller, mine, theirs).value;
    var r := Respond(st1, st.slots[theirs].owner, rid, false);
    assert Persistable(st.slots[mine]) && Persistable(st.slots[theirs]);
    assert r.Ok?;
    assert r.value.slots.Keys == st.slots.Keys;
    forall k | k in st.slots ensures r.value.slots[k] == st.slots[k] {
    }
  }

  /** A proposal followed by its acceptance hands the offered slot to the
      target's owner and the target slot to the proposer, both BUSY;
      every other slot is as it was before the proposal. */
  lemma ProposeThenAcceptSwapsOwners(st: State, caller: UserId, mine: SlotId, theirs: SlotId)
    requires WellFormed(st)
    requires Propose(st, caller, mine, theirs).Ok?
    ensures var (st1, rid) := Propose(st, caller, mine, theirs).value;
      var other := st.slots[theirs].owner;
      var r := Respond(st1, other, rid, true);
      && r.Ok?
      && r.value.slots == st.slots[mine := st.slots[mine].(owner := other, status := Busy)]
                                  [theirs := st.slots[theirs].(owner := caller, status := Busy)]
  {
    var (st1, rid) := Propose(st, caller, mine, theirs).value;
    var other := st.slots[theirs].owner;
    var r := Respond(st1, other, rid, true);
    assert Persistable(st.slots[mine]) && Persistable(st.slots[theirs]);
    assert r.Ok?;
    var want := st.slots[mine := st.slots[mine].(owner := other, status := Busy)]
                        [theirs := st.slots[theirs].(owner := caller, status := Busy)];
    assert r.value.slots.Keys == want.Keys;
    forall k | k in want ensures r.value.slots[k] == want[k] {
    }
  }

  /** Once proposed, neither slot can be offered or targeted by another
      proposal until the request is answered: of two proposals touching the
      same slot, the later one fails. */
  lemma PinnedSlotCannotBeProposedAgain(st: State, caller: UserId, mine: SlotId, theirs: SlotId,
                                        caller2: UserId, mine2: SlotId, theirs2: SlotId)
    requires Propose(st, caller, mine, theirs).Ok?
    requires mine2 in {mine, theirs} || theirs2 in {mine, theirs}
    ensures Propose(Propose(st, caller, mine, theirs).value.0, caller2, mine2, theirs2).Err?
  {
  }

  /** Of two proposals for the same target made one after the other, the
      second, by a user who owns a SWAPPABLE slot of their own, is refused
      because the target is no longer SWAPPABLE. */
  lemma SecondProposalForTargetLoses(st: State, a: UserId, sa: SlotId, c: UserId, sc: SlotId, target: SlotId)
    requires Propose(st, a, sa, target).Ok?
    requires sc in st.slots && sc != sa && sc != target
    requires st.slots[sc].owner == c && st.slots[sc].status == Swappable
    requires c != st.slots[target].owner
    ensures Propose(Propose(st, a, sa, target).value.0, c, sc, target)
            == Err(InvalidOperation(TargetNotSwappable))
  {
  }

  /** A new request is listed as incoming for the target slot's owner and
      as outgoing for the proposer. */
  lemma ProposedRequestIsListed(st: State, caller: UserId, mine: SlotId, theirs: SlotId)
    requires Propose(st, caller, mine, theirs).Ok?
    ensures var (st1, rid) := Propose(st, caller, mine, theirs).value;
      && IsIncoming(st1.requests[rid], st.slots[theirs].owner)
      && IsOutgoing(st1.requests[rid], caller)
      && !IsIncoming(st1.requests[rid], caller)
  {
  }

  /** Once answered, a request leaves its target's incoming listing but
      stays in its requester's outgoing listing. */
  lemma AnsweredRequestLeavesIncoming(st: State, caller: UserId, rid: RequestId, accepted: bool)
    requires Respond(st, caller, rid, accepted).Ok?
    ensures var st' := Respond(st, caller, rid, accepted).value;
      && (forall u :: !IsIncoming(st'.requests[rid], u))
      && IsOutgoing(st'.requests[rid], st.requests[rid].requesterId)
  {
  }
}
