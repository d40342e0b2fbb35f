/** The slot-management routes: list the caller's slots, create, update and
    delete a slot. Body validation runs before the handler, so its errors
    come before the lookups; a save that the schema refuses writes nothing. */
module EventRoutes {
  import opened Common
  import opened Text
  import opened EventModel
  import opened SwapRequestModel
  import opened Store
  import opened Listing

  /** A time field of a request body: left out, present but not a valid
      ISO-8601 instant, or a valid instant. */
  datatype TimeInput = Absent | Malformed | At(t: int)

  /** The caller's own slots, each once, earliest start first. */
  method ListMine(st: State, caller: UserId) returns (ids: seq<SlotId>)
    ensures forall i :: 0 <= i < |ids| ==> ids[i] in st.slots && st.slots[ids[i]].owner == caller
    ensures forall id :: id in st.slots && st.slots[id].owner == caller ==> id in ids
    ensures Distinct(ids)
    ensures forall i, j :: 0 <= i < j < |ids| ==> st.slots[ids[i]].start <= st.slots[ids[j]].start
  {
    ids := Select(st.slots, (s: Slot) => s.owner == caller, (s: Slot) => s.start);
  }

  // ----- create -------------------------------------------------------------

  /** The body fields the create validator refuses: a title that is empty
      once trimmed, and a start or end that is missing or malformed. */
  function CreateInputErrors(title: string, start: TimeInput, end: TimeInput): set<Field> {
    (if Trim(title) == [] then {TitleField} else {})
    + (if start.At? then {} else {StartField})
    + (if end.At? then {} else {EndField})
  }

  /** The status a new slot gets: the default when the body's status is
      absent or empty (`status` is "" then), else the named status, or
      nothing when the name is outside the enum. */
  function CreatedStatus(status: string): Option<SlotStatus> {
    if status == "" then Some(DefaultStatus) else ParseStatus(status)
  }

  /** Creates a slot owned by the caller under the next free id.
      A bad title or time is a validation error naming every bad field; a
      status outside the enum fails the schema's enum validation, which the
      route reports as a server error; an end at or before the start fails
      the pre-save hook, which the route reports as a validation error. */
  function Create(st: State, caller: UserId, title: string, start: TimeInput, end: TimeInput,
                  status: string): (r: Result<(State, SlotId)>)
    ensures r.Ok? <==> Trim(title) != [] && start.At? && end.At? && start.t < end.t
                       && CreatedStatus(status).Some?
    ensures CreateInputErrors(title, start, end) != {}
            ==> r == Err(Validation(CreateInputErrors(title, start, end)))
    ensures CreateInputErrors(title, start, end) == {} && CreatedStatus(status).None?
            ==> r == Err(ServerError)
    ensures (CreateInputErrors(title, start, end) == {} && CreatedStatus(status).Some?
             && end.t <= start.t) ==> r == Err(Validation({Interval}))
    ensures r.Ok? ==>
      var (st', id) := r.value;
      && id == st.nextId && st'.nextId == st.nextId + 1
      && st'.slots.Keys == st.slots.Keys + {id}
      && st'.slots[id].owner == caller
      && st'.slots[id].title == Trim(title)
      && st'.slots[id].start == start.t && st'.slots[id].end == end.t
      && (status == "" ==> st'.slots[id].status == Busy)
      && (status != "" ==> ParseStatus(status) == Some(st'.slots[id].status))
      && Persistable(st'.slots[id])
      && (forall k :: k in st.slots && k != id ==> st'.slots[k] == st.slots[k])
      && st'.requests == st.requests
  {
    var errs := CreateInputErrors(title, start, end);
    if errs != {} then Err(Validation(errs))
    else
      var status' := CreatedStatus(status);
      if status'.None? then Err(ServerError)
      else
        var slot := Slot(Trim(title), start.t, end.t, status'.value, caller);
        match SaveCheck(slot)
        case Some(EndNotAfterStart) => Err(Validation({Interval}))
        case Some(TitleMissing) => Err(ServerError)
        case None =>
          var id := st.nextId;
          Ok((st.(slots := st.slots[id := slot], nextId := id + 1), id))
  }

  // ----- update -------------------------------------------------------------

  /** The body fields the update validator refuses: only supplied fields are
      checked, a supplied title must survive trimming, supplied times must
      be valid instants and a supplied status must be in the enum. */
  function UpdateInputErrors(title: Option<string>, start: TimeInput, end: TimeInput,
                             status: Option<string>): set<Field> {
    (if title.Some? && Trim(title.value) == [] then {TitleField} else {})
    + (if start.Malformed? then {StartField} else {})
    + (if end.Malformed? then {EndField} else {})
    + (if status.Some? && ParseStatus(status.value).None? then {StatusField} else {})
  }

  /** The slot with every supplied field overwritten. */
  function Apply(s: Slot, title: Option<string>, start: TimeInput, end: TimeInput,
                 status: Option<string>): Slot
    requires UpdateInputErrors(title, start, end, status) == {}
  {
    s.(title := if title.Some? then Trim(title.value) else s.title,
       start := if start.At? then start.t else s.start,
       end := if end.At? then end.t else s.end,
       status := if status.Some? then ParseStatus(status.value).value else s.status)
  }

  /** Updates the caller's slot. Checked in order: the body (400), the slot
      exists (404), the caller owns it (403), then the save check on the
      merged slot (400 for the interval rule). Any status of the enum is
      accepted, SWAP_PENDING included, and a slot that is pinned by a
      pending swap may be edited. */
  function Update(st: State, caller: UserId, id: SlotId, title: Option<string>,
                  start: TimeInput, end: TimeInput, status: Option<string>): (r: Result<State>)
    ensures UpdateInputErrors(title, start, end, status) != {}
            ==> r == Err(Validation(UpdateInputErrors(title, start, end, status)))
    ensures UpdateInputErrors(title, start, end, status) == {} ==>
      && (r == Err(NotFound) <==> id !in st.slots)
      && (r == Err(Forbidden) <==> id in st.slots && st.slots[id].owner != caller)
    ensures (UpdateInputErrors(title, start, end, status) == {}
             && id in st.slots && st.slots[id].owner == caller
             && SaveCheck(Apply(st.slots[id], title, start, end, status)) == Some(EndNotAfterStart))
            ==> r == Err(Validation({Interval}))
    ensures r.Ok? <==>
      && UpdateInputErrors(title, start, end, status) == {}
      && id in st.slots && st.slots[id].owner == caller
      && SaveCheck(Apply(st.slots[id], title, start, end, status)).None?
    ensures r.Ok? ==> id in st.slots && r.value.slots.Keys == st.slots.Keys
    ensures r.Ok? ==>
      var s := st.slots[id];
      var s' := r.value.slots[id];
      && s'.title == (if title.Some? then Trim(title.value) else s.title)
      && s'.start == (if start.At? then start.t else s.start)
      && s'.end == (if end.At? then end.t else s.end)
      && (status.Some? ==> ParseStatus(status.value) == Some(s'.status))
      && (status.None? ==> s'.status == s.status)
      && s'.owner == s.owner
      && s'.start < s'.end
      && (forall k :: k in st.slots && k != id ==> r.value.slots[k] == st.slots[k])
      && r.value.requests == st.requests && r.value.nextId == st.nextId
  {
    var errs := UpdateInputErrors(title, start, end, status);
    if errs != {} then Err(Validation(errs))
    else if id !in st.slots then Err(NotFound)
    else if st.slots[id].owner != caller then Err(Forbidden)
    else
      var s' := Apply(st.slots[id], title, start, end, status);
      match SaveCheck(s')
      case Some(EndNotAfterStart) => Err(Validation({Interval}))
      case Some(TitleMissing) => Err(ServerError)
      case None => Ok(st.(slots := st.slots[id := s']))
  }

  // ----- delete -------------------------------------------------------------

  /** The delete guard: a slot may go unless a pending swap pins it. */
  predicate CanDelete(s: Slot) {
    s.status != SwapPending
  }

  /** Deletes the caller's slot: 404 when it is missing, 403 when it is not
      the caller's, 400 while it is SWAP_PENDING; otherwise exactly that
      slot is removed and nothing else changes. Requests that mention the
      slot are left as they are. */
  function Delete(st: State, caller: UserId, id: SlotId): (r: Result<State>)
    ensures r == Err(NotFound) <==> id !in st.slots
    ensures r == Err(Forbidden) <==> id in st.slots && st.slots[id].owner != caller
    ensures r == Err(InvalidOperation(InPendingSwap))
            <==> id in st.slots && st.slots[id].owner == caller && st.slots[id].status == SwapPending
    ensures r.Ok? <==> id in st.slots && st.slots[id].owner == caller && CanDelete(st.slots[id])
    ensures r.Ok? ==> r.value.slots.Keys == st.slots.Keys - {id}
                      && (forall k :: k in r.value.slots ==> r.value.slots[k] == st.slots[k])
                      && r.value.requests == st.requests && r.value.nextId == st.nextId
  {
    if id !in st.slots then Err(NotFound)
    else if st.slots[id].owner != caller then Err(Forbidden)
    else if !CanDelete(st.slots[id]) then Err(InvalidOperation(InPendingSwap))
    else Ok(st.(slots := st.slots - {id}))
  }

  // ----- corrected routes ---------------------------------------------------

  /** Create as the rest of the system intends it: an owner may only start
      a slot as BUSY or SWAPPABLE, so SWAP_PENDING is refused as a bad
      status; every other input behaves as in `Create`. */
  function GuardedCreate(st: State, caller: UserId, title: string, start: TimeInput,
                         end: TimeInput, status: string): (r: Result<(State, SlotId)>)
    ensures status == StatusName(SwapPending) ==> r.Err?
    ensures status != StatusName(SwapPending) ==> r == Create(st, caller, title, start, end, status)
    ensures r.Ok? ==> r.value.0.slots[r.value.1].status != SwapPending
  {
    if status == StatusName(SwapPending) then
      Err(Validation(CreateInputErrors(title, start, end) + {StatusField}))
    else Create(st, caller, title, start, end, status)
  }

  /** Update as the rest of the system intends it: SWAP_PENDING is not a
      status an owner may set, and a slot pinned by a pending swap cannot be
      edited (400, after the 404 and 403 checks). */
  function GuardedUpdate(st: State, caller: UserId, id: SlotId, title: Option<string>,
                         start: TimeInput, end: TimeInput, status: Option<string>): (r: Result<State>)
    ensures status == Some(StatusName(SwapPending)) ==> r.Err?
    ensures id in st.slots && st.slots[id].status == SwapPending ==> r.Err?
    ensures r.Ok? ==> r == Update(st, caller, id, title, start, end, status)
                      && r.value.slots[id].status != SwapPending
    ensures status != Some(StatusName(SwapPending))
            && !(id in st.slots && st.slots[id].status == SwapPending)
            ==> r == Update(st, caller, id, title, start, end, status)
  {
    if status == Some(StatusName(SwapPending)) then
      Err(Validation(UpdateInputErrors(title, start, end, status) + {StatusField}))
    else if UpdateInputErrors(title, start, end, status) == {} && id in st.slots
            && st.slots[id].owner == caller && st.slots[id].status == SwapPending then
      Err(InvalidOperation(InPendingSwap))
    else Update(st, caller, id, title, start, end, status)
  }
}
