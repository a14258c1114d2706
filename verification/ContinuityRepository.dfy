// The durable continuity repository of one project: operation rows, canonical handoff rows and
// the active-session pointer, with the transactions the coordinator calls. Each transaction is
// a function from the state it reads to the state it commits.

module ContinuityRepository {
  import opened Options

  // Identifiers and times are opaque tokens.
  type OperationId = nat
  type HandoffId = nat
  type SessionId = nat
  type AdapterId = nat
  type Key = nat

  datatype State =
    | Idle | CheckpointPreparing | CheckpointPersisted
    | SuccessorCreating | SuccessorCreated | BootstrapSending
    | Acknowledged | PredecessorSealing | Completed
    | RetryWait | FailedRecoverable | Cancelling | Cancelled

  predicate IsTerminal(s: State) { s == Completed || s == Cancelled }

  predicate IsRetryResumeState(s: State) {
    s == CheckpointPreparing || s == SuccessorCreating || s == BootstrapSending || s == PredecessorSealing
  }

  predicate IsAllowedTransition(from: State, to: State) {
    if from == to || IsTerminal(from) then false
    else if to == Cancelling then true
    else if to == FailedRecoverable && from != Cancelling && from != RetryWait then true
    else
      match from
      case Idle => to == CheckpointPreparing
      case CheckpointPreparing => to == CheckpointPersisted
      case CheckpointPersisted => to == SuccessorCreating
      case SuccessorCreating => to == SuccessorCreated
      case SuccessorCreated => to == BootstrapSending
      case BootstrapSending => to == Acknowledged
      case Acknowledged => to == PredecessorSealing
      case PredecessorSealing => to == Completed
      case FailedRecoverable => to == RetryWait
      case RetryWait => IsRetryResumeState(to)
      case Cancelling => to == Cancelled
      case Completed => false
      case Cancelled => false
  }

  /** A canonical handoff document; `payload` stands for everything the protocol does not read.
      Its SHA-256 digest is represented by the document itself. */
  datatype Handoff = Handoff(
    handoffId: HandoffId, operationId: OperationId, predecessor: SessionId,
    successor: Option<SessionId>, adapterId: AdapterId, payload: nat)

  datatype HandoffRow = HandoffRow(document: Handoff, acknowledged: Option<SessionId>)

  datatype Operation = Operation(
    operationId: OperationId, predecessor: SessionId, successor: Option<SessionId>,
    handoffId: HandoffId, state: State, attempt: nat, adapterId: AdapterId, key: Key,
    acknowledgedSession: Option<SessionId>, acknowledgedHandoff: Option<HandoffId>,
    retryAt: Option<int>, retryResumeState: Option<State>)

  datatype Acknowledgement = Acknowledgement(
    handoffId: HandoffId, successor: SessionId, adapterId: AdapterId, digest: Handoff)

  datatype Durable = Durable(
    ops: map<OperationId, Operation>, byKey: map<Key, OperationId>,
    rows: map<HandoffId, HandoffRow>, active: Option<SessionId>)

  datatype ErrorCode =
    | NotFound | Conflict | InvalidRequest | IntegrityFailure | LimitExceeded
    | Busy | CapabilityUnavailable | StepLimit | Fault

  datatype Outcome = Committed(d: Durable, op: Operation) | Failed(error: ErrorCode)

  const MAX_TRANSITIONS: nat := 4096

  function Fresh(h: Handoff, key: Key): Operation {
    Operation(h.operationId, h.predecessor, None, h.handoffId, Idle, 0, h.adapterId, key, None, None, None, None)
  }

  predicate SameOperation(op: Operation, h: Handoff) {
    && op.operationId == h.operationId && op.handoffId == h.handoffId
    && op.predecessor == h.predecessor && op.adapterId == h.adapterId
  }

  predicate HasActive(d: Durable) {
    exists id | id in d.ops :: !IsTerminal(d.ops[id].state)
  }

  /** Idempotent by key; otherwise refused while another operation of the project is active. */
  function CreateOperation(d: Durable, h: Handoff, key: Key): Outcome {
    if key in d.byKey && d.byKey[key] in d.ops then
      var existing := d.ops[d.byKey[key]];
      if SameOperation(existing, h) then Committed(d, existing) else Failed(Conflict)
    else if HasActive(d) || h.operationId in d.ops || h.handoffId in d.rows then Failed(Conflict)
    else
      var op := Fresh(h, key);
      Committed(d.(ops := d.ops[h.operationId := op], byKey := d.byKey[key := h.operationId],
                   rows := d.rows[h.handoffId := HandoffRow(h, None)]), op)
  }

  function StoreHandoff(d: Durable, h: Handoff): Outcome {
    if h.operationId !in d.ops then Failed(NotFound)
    else
      var op := d.ops[h.operationId];
      if !SameOperation(op, h) || (op.state != Idle && op.state != CheckpointPreparing) then Failed(Conflict)
      else if h.handoffId in d.rows then
        if d.rows[h.handoffId].document != h then Failed(Conflict) else Committed(d, op)
      else Committed(d.(rows := d.rows[h.handoffId := HandoffRow(h, None)]), op)
  }

  predicate ExactlyAcknowledged(op: Operation, successor: Option<SessionId>) {
    && successor.Some? && op.acknowledgedSession == successor
    && op.acknowledgedHandoff == Some(op.handoffId)
  }

  function CompareAndSet(d: Durable, id: OperationId, expected: State, next: State, supplied: Option<SessionId>): Outcome {
    if id !in d.ops then Failed(NotFound)
    else
      var op := d.ops[id];
      var successor := if supplied.Some? then supplied else op.successor;
      if op.state == next then
        if supplied.Some? && op.successor != supplied then Failed(Conflict) else Committed(d, op)
      else if op.state != expected then Failed(Conflict)
      else if !IsAllowedTransition(expected, next) then Failed(InvalidRequest)
      else if expected == RetryWait && op.retryResumeState != Some(next) then Failed(Conflict)
      else if next == SuccessorCreated && successor == None then Failed(InvalidRequest)
      else if next == CheckpointPersisted && op.handoffId !in d.rows then Failed(IntegrityFailure)
      else if (next == PredecessorSealing || next == Completed) && !ExactlyAcknowledged(op, successor) then
        Failed(IntegrityFailure)
      else if op.attempt >= MAX_TRANSITIONS - 1 then Failed(LimitExceeded)
      else if next == SuccessorCreated && (op.handoffId !in d.rows || d.rows[op.handoffId].acknowledged.Some?) then
        Failed(IntegrityFailure)
      else
        var op' := op.(state := next, attempt := op.attempt + 1, successor := successor,
                       retryAt := None, retryResumeState := None);
        var rows' := if next == SuccessorCreated
                     then d.rows[op.handoffId := d.rows[op.handoffId].(
                            document := d.rows[op.handoffId].document.(successor := successor))]
                     else d.rows;
        Committed(d.(ops := d.ops[id := op'], rows := rows',
                     active := if next == Completed && successor.Some? then successor else d.active), op')
  }

  /** The acknowledgement names this operation's handoff, successor, adapter and exact document. */
  predicate IsExactAcknowledgement(op: Operation, h: Handoff, ack: Acknowledgement) {
    && SameOperation(op, h)
    && op.successor.Some? && op.successor == h.successor
    && ack == Acknowledgement(op.handoffId, op.successor.value, op.adapterId, h)
  }

  function Acknowledge(d: Durable, id: OperationId, ack: Acknowledgement): Outcome {
    if id !in d.ops then Failed(NotFound)
    else
      var op := d.ops[id];
      if op.handoffId !in d.rows || !IsExactAcknowledgement(op, d.rows[op.handoffId].document, ack) then
        Failed(IntegrityFailure)
      else if op.state == Acknowledged || op.state == PredecessorSealing || op.state == Completed then
        if op.acknowledgedSession != Some(ack.successor) || op.acknowledgedHandoff != Some(ack.handoffId)
        then Failed(Conflict) else Committed(d, op)
      else if op.state != BootstrapSending then Failed(Conflict)
      else if op.attempt >= MAX_TRANSITIONS - 1 then Failed(LimitExceeded)
      else
        var row := d.rows[op.handoffId];
        if row.acknowledged.Some? && row.acknowledged != Some(ack.successor) then Failed(IntegrityFailure)
        else
          var op' := op.(state := Acknowledged, attempt := op.attempt + 1,
                         acknowledgedSession := Some(ack.successor), acknowledgedHandoff := Some(ack.handoffId),
                         retryAt := None, retryResumeState := None);
          Committed(d.(ops := d.ops[id := op'],
                       rows := d.rows[op.handoffId := row.(acknowledged := Some(ack.successor))]), op')
  }

  /** Two transitions in one transaction: recoverable failure, then retry wait bound to the
      state it came from. */
  function RecordRetry(d: Durable, id: OperationId, resume: State, retryAt: int): Outcome {
    if !IsRetryResumeState(resume) then Failed(InvalidRequest)
    else if id !in d.ops then Failed(NotFound)
    else
      var op := d.ops[id];
      if op.state == RetryWait then
        if op.retryResumeState != Some(resume) then Failed(Conflict)
        else
          var op' := op.(retryAt := Some(retryAt));
          Committed(d.(ops := d.ops[id := op']), op')
      else if op.state != resume || !IsAllowedTransition(op.state, FailedRecoverable) || op.attempt > MAX_TRANSITIONS - 3 then
        Failed(Conflict)
      else
        var op' := op.(state := RetryWait, attempt := op.attempt + 2,
                       retryAt := Some(retryAt), retryResumeState := Some(resume));
        Committed(d.(ops := d.ops[id := op']), op')
  }

  /** Cancelling recovery cannot leave retry wait: the repository binds a retry-wait row to its
      resume state, which is never the cancelling state. */
  lemma RetryWaitIsNotCancellable(d: Durable, id: OperationId, supplied: Option<SessionId>)
    requires id in d.ops && d.ops[id].state == RetryWait
    requires d.ops[id].retryResumeState.Some? && IsRetryResumeState(d.ops[id].retryResumeState.value)
    ensures CompareAndSet(d, id, RetryWait, Cancelling, supplied) == Failed(Conflict)
  {
  }
}
