/** The swap request record (the `SwapRequest` schema): four required
    references, a status enum defaulting to PENDING, and a creation stamp. */
module SwapRequestModel {
  import opened Common

  datatype RequestStatus = Pending | Accepted | Rejected

  /** ACCEPTED and REJECTED are final: no route moves a request out of them. */
  predicate IsTerminal(s: RequestStatus) {
    s != Pending
  }

  /** A request. The four references are plain fields, so none of them can
      be absent; `createdSeq` stands for the `createdAt` timestamp and grows
      with every record the store creates. */
  datatype SwapRequest = SwapRequest(
    requesterSlot: SlotId,
    targetSlot: SlotId,
    requesterId: UserId,
    targetUserId: UserId,
    status: RequestStatus,
    createdSeq: nat)

  /** Does the request refer to this slot, on either side? */
  predicate Mentions(q: SwapRequest, slot: SlotId) {
    q.requesterSlot == slot || q.targetSlot == slot
  }
}
