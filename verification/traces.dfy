/** Sequences of route calls. Each call is one atomic step; a call that
    fails leaves the store exactly as it was. `Run` replays the routes as
    written; `GuardedRun` replays them with the corrected create and update
    routes, under which the pending link is an invariant. */
module Traces {
  import opened Common
  import opened EventModel
  import opened SwapRequestModel
  import opened Store
  import opened EventRoutes
  import opened SwapRoutes
  import opened Invariants

  /** One call of a route, with its caller and body. */
  datatype Op =
    | CreateSlot(caller: UserId, title: string, start: TimeInput, end: TimeInput, status: string)
    | UpdateSlot(caller: UserId, id: SlotId, newTitle: Option<string>, newStart: TimeInput,
                 newEnd: TimeInput, newStatus: Option<string>)
    | DeleteSlot(caller: UserId, id: SlotId)
    | ProposeSwap(caller: UserId, mine: SlotId, theirs: SlotId)
    | RespondSwap(caller: UserId, rid: RequestId, accepted: bool)

  /** The store after one call of a route as written. */
  function Step(st: State, op: Op): State {
    match op
    case CreateSlot(c, t, s, e, status) =>
      var r := Create(st, c, t, s, e, status); if r.Ok? then r.value.0 else st
    case UpdateSlot(c, id, t, s, e, status) =>
      var r := Update(st, c, id, t, s, e, status); if r.Ok? then r.value else st
    case DeleteSlot(c, id) =>
      var r := Delete(st, c, id); if r.Ok? then r.value else st
    case ProposeSwap(c, m, t) =>
      var r := Propose(st, c, m, t); if r.Ok? then r.value.0 else st
    case RespondSwap(c, rid, a) =>
      var r := Respond(st, c, rid, a); if r.Ok? then r.value else st
  }

  /** The store after one call, with the corrected create and update. */
  function GuardedStep(st: State, op: Op): State {
    match op
    case CreateSlot(c, t, s, e, status) =>
      var r := GuardedCreate(st, c, t, s, e, status); if r.Ok? then r.value.0 else st
    case UpdateSlot(c, id, t, s, e, status) =>
      var r := GuardedUpdate(st, c, id, t, s, e, status); if r.Ok? then r.value else st
    case _ => Step(st, op)
  }

  function Run(st: State, ops: seq<Op>): State
    decreases |ops|
  {
    if ops == [] then st else Run(Step(st, ops[0]), ops[1..])
  }

  function GuardedRun(st: State, ops: seq<Op>): State
    decreases |ops|
  {
    if ops == [] then st else GuardedRun(GuardedStep(st, ops[0]), ops[1..])
  }

  /** Every route as written keeps the store well-formed. */
  lemma StepPreservesWellFormed(st: State, op: Op)
    requires WellFormed(st)
    ensures WellFormed(Step(st, op))
  {
    match op
    case CreateSlot(c, t, s, e, status) =>
      if Create(st, c, t, s, e, status).Ok? { CreatePreservesWellFormed(st, c, t, s, e, status); }
    case UpdateSlot(c, id, t, s, e, status) =>
      if Update(st, c, id, t, s, e, status).Ok? { UpdatePreservesWellFormed(st, c, id, t, s, e, status); }
    case DeleteSlot(c, id) =>
      if Delete(st, c, id).Ok? { DeletePreservesWellFormed(st, c, id); }
    case ProposeSwap(c, m, t) =>
      if Propose(st, c, m, t).Ok? { ProposePreservesWellFormed(st, c, m, t); }
    case RespondSwap(c, rid, a) =>
      if Respond(st, c, rid, a).Ok? { RespondPreservesWellFormed(st, c, rid, a); }
  }

  /** Every route, with the corrected create and update, keeps the store
      well-formed and keeps the pending link. */
  lemma GuardedStepPreserves(st: State, op: Op)
    requires WellFormed(st) && PendingConsistent(st)
    ensures WellFormed(GuardedStep(st, op)) && PendingConsistent(GuardedStep(st, op))
  {
    match op
    case CreateSlot(c, t, s, e, status) =>
      if GuardedCreate(st, c, t, s, e, status).Ok? {
        CreatePreservesWellFormed(st, c, t, s, e, status);
        GuardedCreatePreservesPending(st, c, t, s, e, status);
      }
    case UpdateSlot(c, id, t, s, e, status) =>
      if GuardedUpdate(st, c, id, t, s, e, status).Ok? {
        UpdatePreservesWellFormed(st, c, id, t, s, e, status);
        GuardedUpdatePreservesPending(st, c, id, t, s, e, status);
      }
    case DeleteSlot(c, id) =>
      if Delete(st, c, id).Ok? {
        DeletePreservesWellFormed(st, c, id);
        DeletePreservesPending(st, c, id);
      }
    case ProposeSwap(c, m, t) =>
      if Propose(st, c, m, t).Ok? {
        ProposePreservesWellFormed(st, c, m, t);
        ProposePreservesPending(st, c, m, t);
      }
    case RespondSwap(c, rid, a) =>
      if Respond(st, c, rid, a).Ok? {
        RespondPreservesWellFormed(st, c, rid, a);
        RespondPreservesPending(st, c, rid, a);
      }
  }

  lemma {:induction false} RunPreservesWellFormed(st: State, ops: seq<Op>)
    requires WellFormed(st)
    ensures WellFormed(Run(st, ops))
    decreases |ops|
  {
    if ops != [] {
      StepPreservesWellFormed(st, ops[0]);
      RunPreservesWellFormed(Step(st, ops[0]), ops[1..]);
    }
  }

  lemma {:induction false} GuardedRunPreserves(st: State, ops: seq<Op>)
    requires WellFormed(st) && PendingConsistent(st)
    ensures WellFormed(GuardedRun(st, ops)) && PendingConsistent(GuardedRun(st, ops))
    decreases |ops|
  {
    if ops != [] {
      GuardedStepPreserves(st, ops[0]);
      GuardedRunPreserves(GuardedStep(st, ops[0]), ops[1..]);
    }
  }

  /** In every store the routes as written can build from nothing, each
      request pairs two different users and two different slots, and every
      slot ends after it starts. */
  lemma ReachableRequestsAreSound(ops: seq<Op>)
    ensures var st := Run(Empty, ops);
      && (forall rid :: rid in st.requests ==>
            st.requests[rid].requesterId != st.requests[rid].targetUserId
            && st.requests[rid].requesterSlot != st.requests[rid].targetSlot)
      && (forall sid :: sid in st.slots ==> st.slots[sid].start < st.slots[sid].end)
  {
    EmptyWellFormed();
    RunPreservesWellFormed(Empty, ops);
  }

  /** With the corrected create and update, every reachable SWAP_PENDING
      slot belongs to exactly one pending request, and every pending request
      can be answered by its target user without reaching the missing-slot
      path. */
  lemma ReachablePendingIsLinked(ops: seq<Op>)
    ensures var st := GuardedRun(Empty, ops);
      && PendingConsistent(st)
      && (forall rid, a :: PendingAt(st, rid)
            ==> Respond(st, st.requests[rid].targetUserId, rid, a).Ok?)
  {
    EmptyWellFormed();
    EmptyPendingConsistent();
    GuardedRunPreserves(Empty, ops);
    var st := GuardedRun(Empty, ops);
    forall rid, a | PendingAt(st, rid)
      ensures Respond(st, st.requests[rid].targetUserId, rid, a).Ok?
    {
      RespondFailsOnlyByGuard(st, st.requests[rid].targetUserId, rid, a);
    }
  }

  /** A request that is ACCEPTED or REJECTED is never changed or removed by
      any route. */
  lemma TerminalIsFinal(st: State, op: Op, rid: RequestId)
    requires WellFormed(st)
    requires rid in st.requests && IsTerminal(st.requests[rid].status)
    ensures rid in Step(st, op).requests && Step(st, op).requests[rid] == st.requests[rid]
  {
    match op
    case ProposeSwap(c, m, t) =>
      if Propose(st, c, m, t).Ok? {
        assert rid != st.nextId;
      }
    case RespondSwap(c, r, a) =>
      if Respond(st, c, r, a).Ok? {
        assert r != rid;
      }
    case _ =>
  }

  lemma {:induction false} TerminalIsFinalOnRuns(st: State, ops: seq<Op>, rid: RequestId)
    requires WellFormed(st)
    requires rid in st.requests && IsTerminal(st.requests[rid].status)
    ensures rid in Run(st, ops).requests && Run(st, ops).requests[rid] == st.requests[rid]
    decreases |ops|
  {
    if ops != [] {
      TerminalIsFinal(st, ops[0], rid);
      StepPreservesWellFormed(st, ops[0]);
      TerminalIsFinalOnRuns(Step(st, ops[0]), ops[1..], rid);
    }
  }
}
