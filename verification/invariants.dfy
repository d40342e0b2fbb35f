/** Facts about every state the routes can reach: the schema invariants
    hold of every stored record, a request never pairs a user with
    themself, terminal requests are final, and — when owners cannot edit
    or create SWAP_PENDING slots — every SWAP_PENDING slot belongs to
    exactly one PENDING request. */
module Invariants {
  import opened Common
  import opened Text
  import opened EventModel
  import opened SwapRequestModel
  import opened Store
  import opened EventRoutes
  import opened SwapRoutes

  // ----- well-formed states -------------------------------------------------

  /** What propose establishes of a request and nothing later changes: two
      different users, two different slots, and references and a stamp
      the store has already issued. */
  predicate RequestOk(q: SwapRequest, nextId: nat) {
    && q.requesterId != q.targetUserId
    && q.requesterSlot != q.targetSlot
    && q.requesterSlot < nextId && q.targetSlot < nextId
    && q.createdSeq < nextId
  }

  /** Every stored slot passed the save check and every stored request is
      sound; ids and creation stamps are below the counter, and no two
      requests share a stamp. */
  predicate WellFormed(st: State) {
    && (forall id :: id in st.slots ==> id < st.nextId && Persistable(st.slots[id]))
    && (forall id :: id in st.requests ==> id < st.nextId && RequestOk(st.requests[id], st.nextId))
    && (forall i, j :: i in st.requests && j in st.requests && i != j
                       ==> st.requests[i].createdSeq != st.requests[j].createdSeq)
  }

  lemma EmptyWellFormed()
    ensures WellFormed(Empty)
  {
  }

  lemma CreatePreservesWellFormed(st: State, caller: UserId, title: string, start: TimeInput,
                                  end: TimeInput, status: string)
    requires WellFormed(st)
    requires Create(st, caller, title, start, end, status).Ok?
    ensures WellFormed(Create(st, caller, title, start, end, status).value.0)
  {
  }

  lemma UpdatePreservesWellFormed(st: State, caller: UserId, id: SlotId, title: Option<string>,
                                  start: TimeInput, end: TimeInput, status: Option<string>)
    requires WellFormed(st)
    requires Update(st, caller, id, title, start, end, status).Ok?
    ensures WellFormed(Update(st, caller, id, title, start, end, status).value)
  {
    var s' := Update(st, caller, id, title, start, end, status).value.slots[id];
    if title.Some? {
      assert s'.title == Trim(title.value);
    } else {
      assert s'.title == st.slots[id].title;
    }
    assert Persistable(s');
  }

  lemma DeletePreservesWellFormed(st: State, caller: UserId, id: SlotId)
    requires WellFormed(st)
    requires Delete(st, caller, id).Ok?
    ensures WellFormed(Delete(st, caller, id).value)
  {
  }

  lemma ProposePreservesWellFormed(st: State, caller: UserId, mine: SlotId, theirs: SlotId)
    requires WellFormed(st)
    requires Propose(st, caller, mine, theirs).Ok?
    ensures WellFormed(Propose(st, caller, mine, theirs).value.0)
  {
  }

  lemma RespondPreservesWellFormed(st: State, caller: UserId, rid: RequestId, accepted: bool)
    requires WellFormed(st)
    requires Respond(st, caller, rid, accepted).Ok?
    ensures WellFormed(Respond(st, caller, rid, accepted).value)
  {
    var st' := Respond(st, caller, rid, accepted).value;
    var q := st.requests[rid];
    forall k | k in st'.slots ensures Persistable(st'.slots[k]) {
      if !Mentions(q, k) {
        assert st'.slots[k] == st.slots[k];
      }
    }
  }

  /** In a well-formed store the only way propose fails is one of its
      guards: the save checks it runs cannot refuse. */
  lemma ProposeFailsOnlyByGuard(st: State, caller: UserId, mine: SlotId, theirs: SlotId)
    requires WellFormed(st)
    ensures Propose(st, caller, mine, theirs).Ok? <==> ProposeGuard(st, caller, mine, theirs).None?
    ensures ProposeGuard(st, caller, mine, theirs).Some?
            ==> Propose(st, caller, mine, theirs) == Err(ProposeGuard(st, caller, mine, theirs).value)
  {
    if ProposeGuard(st, caller, mine, theirs).None? {
      assert Persistable(st.slots[mine]) && Persistable(st.slots[theirs]);
    }
  }

  // ----- the pending link ---------------------------------------------------

  /** A pending request's two slots exist, are both SWAP_PENDING and are
      still owned by the two users it names. */
  predicate Linked(st: State, q: SwapRequest) {
    && q.requesterSlot in st.slots && q.targetSlot in st.slots
    && st.slots[q.requesterSlot].status == SwapPending
    && st.slots[q.targetSlot].status == SwapPending
    && st.slots[q.requesterSlot].owner == q.requesterId
    && st.slots[q.targetSlot].owner == q.targetUserId
  }

  /** The two requests share no slot. */
  predicate Disjoint(p: SwapRequest, q: SwapRequest) {
    !Mentions(q, p.requesterSlot) && !Mentions(q, p.targetSlot)
  }

  predicate PendingAt(st: State, rid: RequestId) {
    rid in st.requests && st.requests[rid].status == Pending
  }

  /** Every pending request is linked to its slots. */
  ghost predicate PendingLinked(st: State) {
    forall rid :: PendingAt(st, rid) ==> Linked(st, st.requests[rid])
  }

  /** The slot exists and is SWAP_PENDING. */
  predicate Pinned(st: State, sid: SlotId) {
    sid in st.slots && st.slots[sid].status == SwapPending
  }

  /** Every SWAP_PENDING slot is claimed by some pending request. */
  ghost predicate PinnedClaimed(st: State) {
    forall sid :: Pinned(st, sid) ==> exists rid :: PendingAt(st, rid) && Mentions(st.requests[rid], sid)
  }

  /** No slot is claimed by two different pending requests. */
  ghost predicate ClaimsDisjoint(st: State) {
    forall r1, r2 :: (PendingAt(st, r1) && PendingAt(st, r2) && r1 != r2)
                     ==> Disjoint(st.requests[r1], st.requests[r2])
  }

  /** The link between pinned slots and pending requests. */
  ghost predicate PendingConsistent(st: State) {
    PendingLinked(st) && PinnedClaimed(st) && ClaimsDisjoint(st)
  }

  /** So a SWAP_PENDING slot belongs to exactly one pending request. */
  lemma PendingSlotHasOneRequest(st: State, sid: SlotId)
    requires PendingConsistent(st)
    requires Pinned(st, sid)
    ensures exists rid :: PendingAt(st, rid) && Mentions(st.requests[rid], sid)
    ensures forall r1, r2 :: PendingAt(st, r1) && PendingAt(st, r2)
                             && Mentions(st.requests[r1], sid) && Mentions(st.requests[r2], sid)
                             ==> r1 == r2
  {
  }

  /** A slot that is missing or not SWAP_PENDING is mentioned by no
      pending request. */
  lemma UnpinnedSlotIsFree(st: State, sid: SlotId, rid: RequestId)
    requires PendingConsistent(st)
    requires !Pinned(st, sid)
    requires PendingAt(st, rid)
    ensures !Mentions(st.requests[rid], sid)
  {
    assert Linked(st, st.requests[rid]);
  }

  lemma EmptyPendingConsistent()
    ensures PendingConsistent(Empty)
  {
  }

  // Each route's effect on the two collections, stated without the route,
  // so that the preservation proofs below stay small.

  /** Propose's effect: one new pending request pins two SWAPPABLE slots,
      still owned by the users it names; nothing else changes. */
  ghost predicate PinEffect(st: State, st': State, rid: RequestId) {
    && rid !in st.requests && rid in st'.requests
    && var q := st'.requests[rid];
    && q.status == Pending
    && q.requesterSlot in st.slots && q.targetSlot in st.slots
    && st.slots[q.requesterSlot].status == Swappable
    && st.slots[q.targetSlot].status == Swappable
    && st'.requests.Keys == st.requests.Keys + {rid}
    && (forall k :: k in st.requests ==> st'.requests[k] == st.requests[k])
    && st'.slots.Keys == st.slots.Keys
    && Linked(st', q)
    && (forall k :: k in st.slots && !Mentions(q, k) ==> st'.slots[k] == st.slots[k])
  }

  /** Respond's effect: a pending request leaves PENDING and releases its
      two slots from SWAP_PENDING; nothing else changes. */
  ghost predicate ReleaseEffect(st: State, st': State, rid: RequestId) {
    && PendingAt(st, rid)
    && var q := st.requests[rid];
    && st'.requests.Keys == st.requests.Keys
    && st'.requests[rid].status != Pending
    && (forall k :: k in st.requests && k != rid ==> st'.requests[k] == st.requests[k])
    && st'.slots.Keys == st.slots.Keys
    && !Pinned(st', q.requesterSlot) && !Pinned(st', q.targetSlot)
    && (forall k :: k in st.slots && !Mentions(q, k) ==> st'.slots[k] == st.slots[k])
  }

  /** The effect of the slot routes: requests untouched, and one slot that
      is not SWAP_PENDING before or after is added, changed or removed. */
  ghost predicate FreeSlotEffect(st: State, st': State, id: SlotId) {
    && st'.requests == st.requests
    && !Pinned(st, id) && !Pinned(st', id)
    && (forall k :: k != id ==> (k in st'.slots <==> k in st.slots))
    && (forall k :: k in st.slots && k != id && k in st'.slots ==> st'.slots[k] == st.slots[k])
  }

  lemma PinEffectPreserves(st: State, st': State, rid: RequestId)
    requires PendingConsistent(st) && PinEffect(st, st', rid)
    ensures PendingConsistent(st')
  {
    var q := st'.requests[rid];
    forall r | PendingAt(st', r) ensures Linked(st', st'.requests[r]) {
      if r != rid {
        assert PendingAt(st, r);
        UnpinnedSlotIsFree(st, q.requesterSlot, r);
        UnpinnedSlotIsFree(st, q.targetSlot, r);
        assert Linked(st, st.requests[r]);
      }
    }
    forall sid | Pinned(st', sid)
      ensures exists r :: PendingAt(st', r) && Mentions(st'.requests[r], sid)
    {
      if Mentions(q, sid) {
        assert PendingAt(st', rid);
      } else {
        assert Pinned(st, sid);
        var r :| PendingAt(st, r) && Mentions(st.requests[r], sid);
        assert PendingAt(st', r);
      }
    }
    forall r1, r2 | PendingAt(st', r1) && PendingAt(st', r2) && r1 != r2
      ensures Disjoint(st'.requests[r1], st'.requests[r2])
    {
      if r1 == rid {
        UnpinnedSlotIsFree(st, q.requesterSlot, r2);
        UnpinnedSlotIsFree(st, q.targetSlot, r2);
      } else if r2 == rid {
        UnpinnedSlotIsFree(st, q.requesterSlot, r1);
        UnpinnedSlotIsFree(st, q.targetSlot, r1);
      } else {
        assert PendingAt(st, r1) && PendingAt(st, r2);
      }
    }
  }

  lemma ReleaseEffectPreserves(st: State, st': State, rid: RequestId)
    requires PendingConsistent(st) && ReleaseEffect(st, st', rid)
    ensures PendingConsistent(st')
  {
    var q := st.requests[rid];
    forall r | PendingAt(st', r) ensures Linked(st', st'.requests[r]) {
      assert PendingAt(st, r) && r != rid;
      assert Disjoint(st.requests[r], q);
      assert Linked(st, st.requests[r]);
    }
    forall sid | Pinned(st', sid)
      ensures exists r :: PendingAt(st', r) && Mentions(st'.requests[r], sid)
    {
      assert !Mentions(q, sid);
      assert Pinned(st, sid);
      var r :| PendingAt(st, r) && Mentions(st.requests[r], sid);
      assert PendingAt(st', r);
    }
    forall r1, r2 | PendingAt(st', r1) && PendingAt(st', r2) && r1 != r2
      ensures Disjoint(st'.requests[r1], st'.requests[r2])
    {
      assert PendingAt(st, r1) && PendingAt(st, r2);
    }
  }

  lemma FreeSlotEffectPreserves(st: State, st': State, id: SlotId)
    requires PendingConsistent(st) && FreeSlotEffect(st, st', id)
    ensures PendingConsistent(st')
  {
    forall r | PendingAt(st', r) ensures Linked(st', st'.requests[r]) {
      assert PendingAt(st, r) && Linked(st, st.requests[r]);
      assert !Mentions(st.requests[r], id);
    }
    forall sid | Pinned(st', sid)
      ensures exists r :: PendingAt(st', r) && Mentions(st'.requests[r], sid)
    {
      assert sid != id && Pinned(st, sid);
      var r :| PendingAt(st, r) && Mentions(st.requests[r], sid);
      assert PendingAt(st', r);
    }
  }

  lemma ProposePreservesPending(st: State, caller: UserId, mine: SlotId, theirs: SlotId)
    requires WellFormed(st) && PendingConsistent(st)
    requires Propose(st, caller, mine, theirs).Ok?
    ensures PendingConsistent(Propose(st, caller, mine, theirs).value.0)
  {
    var (st', rid) := Propose(st, caller, mine, theirs).value;
    assert PinEffect(st, st', rid);
    PinEffectPreserves(st, st', rid);
  }

  lemma RespondPreservesPending(st: State, caller: UserId, rid: RequestId, accepted: bool)
    requires PendingConsistent(st)
    requires Respond(st, caller, rid, accepted).Ok?
    ensures PendingConsistent(Respond(st, caller, rid, accepted).value)
  {
    var st' := Respond(st, caller, rid, accepted).value;
    assert ReleaseEffect(st, st', rid);
    ReleaseEffectPreserves(st, st', rid);
  }

  lemma DeletePreservesPending(st: State, caller: UserId, id: SlotId)
    requires PendingConsistent(st)
    requires Delete(st, caller, id).Ok?
    ensures PendingConsistent(Delete(st, caller, id).value)
  {
    FreeSlotEffectPreserves(st, Delete(st, caller, id).value, id);
  }

  lemma GuardedCreatePreservesPending(st: State, caller: UserId, title: string,
                                      start: TimeInput, end: TimeInput, status: string)
    requires WellFormed(st) && PendingConsistent(st)
    requires GuardedCreate(st, caller, title, start, end, status).Ok?
    ensures PendingConsistent(GuardedCreate(st, caller, title, start, end, status).value.0)
  {
    var (st', id) := GuardedCreate(st, caller, title, start, end, status).value;
    assert id !in st.slots;
    FreeSlotEffectPreserves(st, st', id);
  }

  lemma GuardedUpdatePreservesPending(st: State, caller: UserId, id: SlotId, title: Option<string>,
                                      start: TimeInput, end: TimeInput, status: Option<string>)
    requires PendingConsistent(st)
    requires GuardedUpdate(st, caller, id, title, start, end, status).Ok?
    ensures PendingConsistent(GuardedUpdate(st, caller, id, title, start, end, status).value)
  {
    FreeSlotEffectPreserves(st, GuardedUpdate(st, caller, id, title, start, end, status).value, id);
  }

  /** In any well-formed store, pending link or not, respond answers a
      PENDING request addressed to the caller whenever its two slots still
      exist, whatever their current status or owners: the route checks
      neither before rewriting them. */
  lemma RespondAnswersWhenSlotsExist(st: State, caller: UserId, rid: RequestId, accepted: bool)
    requires WellFormed(st)
    ensures Respond(st, caller, rid, accepted).Ok? <==>
              PendingAt(st, rid) && st.requests[rid].targetUserId == caller
              && st.requests[rid].requesterSlot in st.slots && st.requests[rid].targetSlot in st.slots
  {
    if PendingAt(st, rid) && st.requests[rid].targetUserId == caller
       && st.requests[rid].requesterSlot in st.slots && st.requests[rid].targetSlot in st.slots {
      var q := st.requests[rid];
      assert Persistable(st.slots[q.requesterSlot]) && Persistable(st.slots[q.targetSlot]);
    }
  }

  /** In a consistent store respond never reaches the missing-slot path,
      and its save checks cannot refuse: it fails only by its three guards. */
  lemma RespondFailsOnlyByGuard(st: State, caller: UserId, rid: RequestId, accepted: bool)
    requires WellFormed(st) && PendingConsistent(st)
    ensures Respond(st, caller, rid, accepted).Ok? <==>
              PendingAt(st, rid) && st.requests[rid].targetUserId == caller
  {
    if PendingAt(st, rid) && st.requests[rid].targetUserId == caller {
      var q := st.requests[rid];
      assert Linked(st, q);
      assert Persistable(st.slots[q.requesterSlot]) && Persistable(st.slots[q.targetSlot]);
    }
  }
}
