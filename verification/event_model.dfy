/** The slot record (the `Event` schema): its status enum with its default,
    its required fields, the trimmed title, and the save-time rule that a
    slot must end strictly after it starts. */
module EventModel {
  import opened Common
  import Text

  datatype SlotStatus = Busy | Swappable | SwapPending

  /** A slot created without a status is BUSY. */
  const DefaultStatus: SlotStatus := Busy

  /** The wire name of each status. */
  function StatusName(s: SlotStatus): string {
    match s
    case Busy => "BUSY"
    case Swappable => "SWAPPABLE"
    case SwapPending => "SWAP_PENDING"
  }

  /** Reads a status name; any string outside the enum is refused. */
  function ParseStatus(name: string): (r: Option<SlotStatus>)
    ensures r.Some? ==> StatusName(r.value) == name
    ensures r.None? ==> forall s :: StatusName(s) != name
  {
    if name == "BUSY" then Some(Busy)
    else if name == "SWAPPABLE" then Some(Swappable)
    else if name == "SWAP_PENDING" then Some(SwapPending)
    else None
  }

  /** Reading the name of a status gives that status back. */
  lemma ParseStatusName(s: SlotStatus)
    ensures ParseStatus(StatusName(s)) == Some(s)
  {
  }

  /** The three names are the whole enum: a string parses exactly when it
      is one of them. */
  lemma ParseStatusAccepts(name: string)
    ensures ParseStatus(name).Some? <==> name in {"BUSY", "SWAPPABLE", "SWAP_PENDING"}
  {
  }

  /** A stored slot. Times are instants as integers; `owner` is `userId`. */
  datatype Slot = Slot(title: string, start: int, end: int, status: SlotStatus, owner: UserId)

  /** How saving a slot can fail: the schema's required-title validation,
      or the pre-save hook's interval rule. */
  datatype SaveFailure = TitleMissing | EndNotAfterStart

  /** The checks run on every save of a slot: first the schema validation
      (the title is required and must not be empty), then the pre-save hook,
      which refuses an end at or before the start. */
  function SaveCheck(s: Slot): (r: Option<SaveFailure>)
    ensures r.None? <==> s.title != [] && s.start < s.end
    ensures r == Some(EndNotAfterStart) <==> s.title != [] && s.end <= s.start
  {
    if s.title == [] then Some(TitleMissing)
    else if s.end <= s.start then Some(EndNotAfterStart)
    else None
  }

  /** What holds of every slot that a save accepted and stores: a trimmed,
      non-empty title and an end strictly after the start. */
  predicate Persistable(s: Slot) {
    s.title != [] && Text.Trimmed(s.title) && s.start < s.end
  }

  /** The save check only looks at the title and the two times, so the
      status and owner writes made by a swap never change its verdict. */
  lemma SaveCheckIgnoresStatusAndOwner(s: Slot, status: SlotStatus, owner: UserId)
    ensures SaveCheck(s.(status := status, owner := owner)) == SaveCheck(s)
  {
  }
}
