/** The persistent state the routes read and write: the slot collection,
    the swap request collection, and the counter the store draws new ids
    and creation stamps from. */
module Store {
  import opened Common
  import opened EventModel
  import opened SwapRequestModel

  /** `nextId` is the next id the store will hand out; ids are never reused,
      as database object ids are not. */
  datatype State = State(
    slots: map<SlotId, Slot>,
    requests: map<RequestId, SwapRequest>,
    nextId: nat)

  /** The store before any record exists. */
  const Empty: State := State(map[], map[], 0)
}
