/** The swap negotiation routes: the marketplace listing, proposing a swap,
    the incoming and outgoing request listings, and answering a request.
    Each route is one atomic transition: either every record it writes is
    written, or it fails and nothing is. */
module SwapRoutes {
  import opened Common
  import opened EventModel
  import opened SwapRequestModel
  import opened Store
  import opened Listing

  /** Slots of other users that are open for exchange, earliest start first. */
  method SwappableSlots(st: State, caller: UserId) returns (ids: seq<SlotId>)
    ensures forall i :: 0 <= i < |ids| ==>
              ids[i] in st.slots && st.slots[ids[i]].status == Swappable
              && st.slots[ids[i]].owner != caller
    ensures forall id :: (id in st.slots && st.slots[id].status == Swappable
                          && st.slots[id].owner != caller) ==> id in ids
    ensures Distinct(ids)
    ensures forall i, j :: 0 <= i < j < |ids| ==> st.slots[ids[i]].start <= st.slots[ids[j]].start
  {
    ids := Select(st.slots, (s: Slot) => s.status == Swappable && s.owner != caller,
                  (s: Slot) => s.start);
  }

  // ----- propose ------------------------------------------------------------

  /** The guard of propose that fails first, if any: both slots must exist
      (404), the caller must own the offered slot (403), the target must not
      be the caller's (400), and the offered slot and then the target must
      be SWAPPABLE (400). */
  function ProposeGuard(st: State, caller: UserId, mine: SlotId, theirs: SlotId): Option<Error> {
    if mine !in st.slots || theirs !in st.slots then Some(NotFound)
    else if st.slots[mine].owner != caller then Some(Forbidden)
    else if st.slots[theirs].owner == caller then Some(InvalidOperation(SelfSwap))
    else if st.slots[mine].status != Swappable then Some(InvalidOperation(OfferedNotSwappable))
    else if st.slots[theirs].status != Swappable then Some(InvalidOperation(TargetNotSwappable))
    else None
  }

  /** Offers the caller's slot `mine` for the other user's slot `theirs`.
      On success the store holds exactly one new request, PENDING, from the
      caller to the target's owner, both slots are SWAP_PENDING, and
      nothing else changes. A save refused by the slot schema fails the
      route with a server error (the route does not single it out). */
  function Propose(st: State, caller: UserId, mine: SlotId, theirs: SlotId): (r: Result<(State, RequestId)>)
    ensures r == Err(NotFound) <==> mine !in st.slots || theirs !in st.slots
    ensures r == Err(Forbidden) <==>
              mine in st.slots && theirs in st.slots && st.slots[mine].owner != caller
    ensures r == Err(InvalidOperation(SelfSwap)) <==>
              mine in st.slots && theirs in st.slots && st.slots[mine].owner == caller
              && st.slots[theirs].owner == caller
    ensures (mine in st.slots && theirs in st.slots && st.slots[mine].owner == caller
             && st.slots[theirs].owner != caller && st.slots[mine].status != Swappable)
            ==> r == Err(InvalidOperation(OfferedNotSwappable))
    ensures (mine in st.slots && theirs in st.slots && st.slots[mine].owner == caller
             && st.slots[theirs].owner != caller && st.slots[mine].status == Swappable
             && st.slots[theirs].status != Swappable)
            ==> r == Err(InvalidOperation(TargetNotSwappable))
    ensures r == Err(ServerError) <==>
              ProposeGuard(st, caller, mine, theirs).None?
              && (SaveCheck(st.slots[mine].(status := SwapPending)).Some?
                  || SaveCheck(st.slots[theirs].(status := SwapPending)).Some?)
    ensures r.Ok? ==>
              mine in st.slots && theirs in st.slots && mine != theirs
              && st.slots[mine].owner == caller && st.slots[theirs].owner != caller
              && st.slots[mine].status == Swappable && st.slots[theirs].status == Swappable
    ensures r.Ok? ==>
      var (st', rid) := r.value;
      && rid == st.nextId && st'.nextId == st.nextId + 1
      && st'.requests.Keys == st.requests.Keys + {rid}
      && st'.requests[rid].status == Pending
      && st'.requests[rid].requesterSlot == mine && st'.requests[rid].targetSlot == theirs
      && st'.requests[rid].requesterId == caller
      && st'.requests[rid].targetUserId == st.slots[theirs].owner
      && st'.requests[rid].createdSeq == st.nextId
      && (forall k :: k in st.requests && k != rid ==> st'.requests[k] == st.requests[k])
      && st'.slots.Keys == st.slots.Keys
      && st'.slots[mine] == st.slots[mine].(status := SwapPending)
      && st'.slots[theirs] == st.slots[theirs].(status := SwapPending)
      && (forall k :: k in st.slots && k != mine && k != theirs ==> st'.slots[k] == st.slots[k])
  {
    match ProposeGuard(st, caller, mine, theirs)
    case Some(e) => Err(e)
    case None =>
      var a := st.slots[mine].(status := SwapPending);
      var b := st.slots[theirs].(status := SwapPending);
      if SaveCheck(a).Some? || SaveCheck(b).Some? then Err(ServerError)
      else
        var rid := st.nextId;
        var q := SwapRequest(mine, theirs, caller, st.slots[theirs].owner, Pending, st.nextId);
        Ok((State(st.slots[mine := a][theirs := b], st.requests[rid := q], st.nextId + 1), rid))
  }

  // ----- listings -----------------------------------------------------------

  /** Is this request one the user must still answer? */
  predicate IsIncoming(q: SwapRequest, user: UserId) {
    q.targetUserId == user && q.status == Pending
  }

  /** Is this request one the user made, in any state? */
  predicate IsOutgoing(q: SwapRequest, user: UserId) {
    q.requesterId == user
  }

  /** The pending requests addressed to the caller, newest first. */
  method Incoming(st: State, caller: UserId) returns (ids: seq<RequestId>)
    ensures forall i :: 0 <= i < |ids| ==> ids[i] in st.requests && IsIncoming(st.requests[ids[i]], caller)
    ensures forall id :: id in st.requests && IsIncoming(st.requests[id], caller) ==> id in ids
    ensures Distinct(ids)
    ensures forall i, j :: 0 <= i < j < |ids| ==>
              st.requests[ids[i]].createdSeq >= st.requests[ids[j]].createdSeq
  {
    ids := Select(st.requests, (q: SwapRequest) => IsIncoming(q, caller),
                  (q: SwapRequest) => 0 - q.createdSeq as int);
  }

  /** Every request the caller made, whatever its status, newest first. */
  method Outgoing(st: State, caller: UserId) returns (ids: seq<RequestId>)
    ensures forall i :: 0 <= i < |ids| ==> ids[i] in st.requests && IsOutgoing(st.requests[ids[i]], caller)
    ensures forall id :: id in st.requests && IsOutgoing(st.requests[id], caller) ==> id in ids
    ensures Distinct(ids)
    ensures forall i, j :: 0 <= i < j < |ids| ==>
              st.requests[ids[i]].createdSeq >= st.requests[ids[j]].createdSeq
  {
    ids := Select(st.requests, (q: SwapRequest) => IsOutgoing(q, caller),
                  (q: SwapRequest) => 0 - q.createdSeq as int);
  }

  // ----- respond ------------------------------------------------------------

  /** The two slots after an answer: an accept hands each slot to the other
      slot's current owner and makes both BUSY; a reject keeps the owners
      and makes both SWAPPABLE again. */
  function Answered(a: Slot, b: Slot, accepted: bool): (Slot, Slot) {
    if accepted then (a.(owner := b.owner, status := Busy), b.(owner := a.owner, status := Busy))
    else (a.(status := Swappable), b.(status := Swappable))
  }

  /** Answers request `rid`. Checked in order: it exists (404), the caller
      is its target user (403), it is still PENDING (400). The route then
      works on the two slots as loaded with the request; when one of them
      no longer exists it dereferences nothing and fails with a server
      error before writing. Otherwise the request becomes ACCEPTED or
      REJECTED and the two slots are rewritten by `Answered`. */
  function Respond(st: State, caller: UserId, rid: RequestId, accepted: bool): (r: Result<State>)
    ensures r == Err(NotFound) <==> rid !in st.requests
    ensures r == Err(Forbidden) <==> rid in st.requests && st.requests[rid].targetUserId != caller
    ensures r == Err(InvalidOperation(AlreadyProcessed)) <==>
              rid in st.requests && st.requests[rid].targetUserId == caller
              && IsTerminal(st.requests[rid].status)
    ensures (rid in st.requests && st.requests[rid].targetUserId == caller
             && st.requests[rid].status == Pending
             && (st.requests[rid].requesterSlot !in st.slots || st.requests[rid].targetSlot !in st.slots))
            ==> r == Err(ServerError)
    ensures r == Err(ServerError) <==>
              rid in st.requests && st.requests[rid].targetUserId == caller
              && st.requests[rid].status == Pending
              && (st.requests[rid].requesterSlot !in st.slots || st.requests[rid].targetSlot !in st.slots
                  || (var (a, b) := Answered(st.slots[st.requests[rid].requesterSlot],
                                            st.slots[st.requests[rid].targetSlot], accepted);
                      SaveCheck(a).Some? || SaveCheck(b).Some?))
    ensures r.Ok? ==>
      && rid in st.requests && st.requests[rid].status == Pending
      && st.requests[rid].targetUserId == caller
      && st.requests[rid].requesterSlot in st.slots && st.requests[rid].targetSlot in st.slots
    ensures r.Ok? ==>
      var q := st.requests[rid];
      var st' := r.value;
      && st'.requests.Keys == st.requests.Keys
      && st'.requests[rid] == q.(status := if accepted then Accepted else Rejected)
      && (forall k :: k in st.requests && k != rid ==> st'.requests[k] == st.requests[k])
      && st'.slots.Keys == st.slots.Keys
      && (forall k :: k in st.slots && !Mentions(q, k) ==> st'.slots[k] == st.slots[k])
      && st'.nextId == st.nextId
    ensures r.Ok? ==>
      var q := st.requests[rid];
      var a, b := st.slots[q.requesterSlot], st.slots[q.targetSlot];
      var a', b' := r.value.slots[q.requesterSlot], r.value.slots[q.targetSlot];
      && (q.requesterSlot != q.targetSlot ==>
            && a'.owner == (if accepted then b.owner else a.owner)
            && b'.owner == (if accepted then a.owner else b.owner))
      && a'.status == (if accepted then Busy else Swappable)
      && b'.status == (if accepted then Busy else Swappable)
      && a'.title == a.title && a'.start == a.start && a'.end == a.end
      && b'.title == b.title && b'.start == b.start && b'.end == b.end
  {
    if rid !in st.requests then Err(NotFound)
    else
      var q := st.requests[rid];
      if q.targetUserId != caller then Err(Forbidden)
      else if q.status != Pending then Err(InvalidOperation(AlreadyProcessed))
      else if q.requesterSlot !in st.slots || q.targetSlot !in st.slots then Err(ServerError)
      else
        var (a, b) := Answered(st.slots[q.requesterSlot], st.slots[q.targetSlot], accepted);
        if SaveCheck(a).Some? || SaveCheck(b).Some? then Err(ServerError)
        else
          var q' := q.(status := if accepted then Accepted else Rejected);
          Ok(State(st.slots[q.requesterSlot := a][q.targetSlot := b],
                   st.requests[rid := q'], st.nextId))
  }
}
