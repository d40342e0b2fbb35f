/** Properties of the slot routes that relate several calls. */
module SlotFacts {
  import opened Common
  import opened Text
  import opened EventModel
  import opened Store
  import opened EventRoutes
  import opened Invariants

  /** A created slot is SWAP_PENDING exactly when the body asked for that
      status by name. */
  lemma CreatedPendingIffAsked(st: State, caller: UserId, title: string, start: TimeInput,
                               end: TimeInput, status: string)
    requires Create(st, caller, title, start, end, status).Ok?
    ensures var (st1, id) := Create(st, caller, title, start, end, status).value;
      st1.slots[id].status == SwapPending <==> status == StatusName(SwapPending)
  {
    var (st1, id) := Create(st, caller, title, start, end, status).value;
    ParseStatusName(SwapPending);
    if status != "" {
      assert StatusName(st1.slots[id].status) == status;
    }
  }

  /** Deleting a slot right after creating it gives back the original slot
      collection, unless it was created SWAP_PENDING (which the delete
      guard refuses). Only the counter's freshness is needed, which every
      well-formed store has. */
  lemma CreateThenDeleteRestores(st: State, caller: UserId, title: string, start: TimeInput,
                                 end: TimeInput, status: string)
    requires st.nextId !in st.slots
    requires Create(st, caller, title, start, end, status).Ok?
    ensures var (st1, id) := Create(st, caller, title, start, end, status).value;
      var r := Delete(st1, caller, id);
      && (status != StatusName(SwapPending) ==>
            r.Ok? && r.value.slots == st.slots && r.value.requests == st.requests)
      && (status == StatusName(SwapPending) ==> r == Err(InvalidOperation(InPendingSwap)))
  {
    CreatedPendingIffAsked(st, caller, title, start, end, status);
    var (st1, id) := Create(st, caller, title, start, end, status).value;
    if status != StatusName(SwapPending) {
      DeleteAddedSlot(st1, caller, id, st.slots);
    }
  }

  /** Deleting a slot that was added to `before` gives `before` back. */
  lemma DeleteAddedSlot(st: State, caller: UserId, id: SlotId, before: map<SlotId, Slot>)
    requires id in st.slots && id !in before && st.slots.Keys == before.Keys + {id}
    requires forall k :: k in before ==> st.slots[k] == before[k]
    requires st.slots[id].owner == caller && st.slots[id].status != SwapPending
    ensures Delete(st, caller, id) == Ok(st.(slots := before))
  {
    assert st.slots - {id} == before;
  }

  /** A create whose title is already trimmed and whose times are in order
      stores exactly the slot it was sent, owned by the caller, under the
      next id, and changes nothing else. */
  lemma CreateStoresExactSlot(st: State, caller: UserId, title: string, start: int, end: int,
                              s: SlotStatus)
    requires title != [] && Trimmed(title) && start < end
    ensures Create(st, caller, title, At(start), At(end), StatusName(s))
            == Ok((st.(slots := st.slots[st.nextId := Slot(title, start, end, s, caller)],
                       nextId := st.nextId + 1), st.nextId))
  {
    TrimmedIsFixed(title);
    ParseStatusName(s);
  }

  /** Repeating an update that succeeded changes nothing more. */
  lemma UpdateIdempotent(st: State, caller: UserId, id: SlotId, title: Option<string>,
                         start: TimeInput, end: TimeInput, status: Option<string>)
    requires Update(st, caller, id, title, start, end, status).Ok?
    ensures var st1 := Update(st, caller, id, title, start, end, status).value;
      Update(st1, caller, id, title, start, end, status) == Ok(st1)
  {
    var st1 := Update(st, caller, id, title, start, end, status).value;
    assert Apply(st1.slots[id], title, start, end, status) == st1.slots[id];
    assert st1.slots[id := st1.slots[id]] == st1.slots;
  }

  /** An update that supplies no field stores the slot unchanged (when it
      passes the save check), so only supplied fields are ever written. */
  lemma EmptyUpdateChangesNothing(st: State, caller: UserId, id: SlotId)
    requires WellFormed(st)
    requires id in st.slots && st.slots[id].owner == caller
    ensures Update(st, caller, id, None, Absent, Absent, None) == Ok(st)
  {
    assert Apply(st.slots[id], None, Absent, Absent, None) == st.slots[id];
    assert st.slots[id := st.slots[id]] == st.slots;
  }

  /** A title that is stored is trimmed and non-empty, whatever was sent. */
  lemma StoredTitleIsTrimmed(st: State, caller: UserId, title: string, start: TimeInput,
                             end: TimeInput, status: string)
    requires Create(st, caller, title, start, end, status).Ok?
    ensures var (st1, id) := Create(st, caller, title, start, end, status).value;
      && Trim(st1.slots[id].title) == st1.slots[id].title
      && st1.slots[id].title != []
      && !AllSpace(title)
  {
    var (st1, id) := Create(st, caller, title, start, end, status).value;
    TrimIdempotent(title);
    TrimEmptyIffAllSpace(title);
  }
}
