// Safety of the continuity handoff protocol over every interleaving of coordinator calls.

module ContinuityProtocol {
  import opened Options
  import opened ContinuityRepository

  // ----- Shared state: the repository and the session host -----

  datatype HostSession = HostSession(id: SessionId, operationId: OperationId, predecessor: SessionId, key: Key)

  datatype Capabilities = Capabilities(create: bool, bootstrap: bool, resume: bool, idempotency: bool, query: bool)

  datatype Shared = Shared(d: Durable, host: set<HostSession>)

  /** The transitions coordinators ask for by compare-and-set. Acknowledgement and retry have
      transactions of their own. */
  predicate IsCoordinatorEdge(from: State, to: State) {
    || (from == RetryWait && IsRetryResumeState(to))
    || (from == Idle && to == CheckpointPreparing)
    || (from == CheckpointPreparing && to == CheckpointPersisted)
    || (from == CheckpointPersisted && to == SuccessorCreating)
    || (from == SuccessorCreating && to == SuccessorCreated)
    || (from == SuccessorCreated && to == BootstrapSending)
    || (from == Acknowledged && to == PredecessorSealing)
    || (from == PredecessorSealing && to == Completed)
    || (from != Cancelling && to == Cancelling)
    || (from == Cancelling && to == Cancelled)
  }

  datatype Event =
    | Create(h: Handoff, key: Key)
    | Store(h: Handoff)
    | Swap(id: OperationId, expected: State, next: State, supplied: Option<SessionId>)
    | Ack(id: OperationId, ack: Acknowledgement)
    | Retry(id: OperationId, resume: State, retryAt: int)
    | HostCreate(session: HostSession)

  /** What a coordinator is entitled to ask for: it never invents a transition, supplies a
      successor only when recording the one the host created for the operation or repeating the
      durable one, and asks the host only for operations that are past their checkpoint. */
  ghost predicate MayIssue(s: Shared, e: Event) {
    match e
    case Create(_, _) => true
    case Store(_) => true
    case Swap(id, expected, next, supplied) =>
      && IsCoordinatorEdge(expected, next)
      && (supplied.Some? && next != SuccessorCreated ==> id in s.d.ops && s.d.ops[id].successor == supplied)
      && (next == SuccessorCreated ==>
            supplied.Some? && HostCreated(s.host, supplied.value, id))
    case Ack(_, _) => true
    case Retry(_, _, _) => true
    case HostCreate(session) =>
      && session.operationId in s.d.ops && Reached(s.d.ops[session.operationId])
      && session.key == s.d.ops[session.operationId].key
      && session.predecessor == s.d.ops[session.operationId].predecessor
  }

  function Effect(d: Durable, e: Event): Outcome
    requires !e.HostCreate?
  {
    match e
    case Create(h, key) => CreateOperation(d, h, key)
    case Store(h) => StoreHandoff(d, h)
    case Swap(id, expected, next, supplied) => CompareAndSet(d, id, expected, next, supplied)
    case Ack(id, ack) => Acknowledge(d, id, ack)
    case Retry(id, resume, retryAt) => RecordRetry(d, id, resume, retryAt)
  }

  /** One atomic action of some coordinator; a failed transaction changes nothing. `honest` hosts
      create at most one session for an idempotency key. */
  ghost predicate Step(s: Shared, e: Event, t: Shared, honest: bool) {
    && MayIssue(s, e)
    && match e
       case HostCreate(session) =>
         && t.d == s.d
         && (if honest && exists h | h in s.host :: h.key == session.key then t.host == s.host
             else t.host == s.host + {session})
       case _ =>
         && t.host == s.host
         && t.d == match Effect(s.d, e) case Committed(d, _) => d case Failed(_) => s.d
  }

  // ----- The invariant -----

  /** A retry-wait operation stands where its resume state stands. */
  function Phase(op: Operation): State {
    if op.state == RetryWait && op.retryResumeState.Some? then op.retryResumeState.value else op.state
  }

  /** The operation is past its checkpoint, or was cancelled: coordinators ask the host for a session
      only from SuccessorCreating on. */
  predicate Reached(op: Operation) {
    Phase(op) !in {Idle, CheckpointPreparing, CheckpointPersisted}
  }

  predicate BeforeSuccessor(s: State) {
    s in {Idle, CheckpointPreparing, CheckpointPersisted, SuccessorCreating}
  }

  predicate AfterSuccessor(s: State) {
    s in {SuccessorCreated, BootstrapSending, Acknowledged, PredecessorSealing, Completed}
  }

  predicate AfterAcknowledgement(s: State) {
    s in {Acknowledged, PredecessorSealing, Completed}
  }

  predicate OperationInv(d: Durable, op: Operation) {
    && op.handoffId in d.rows
    && var row := d.rows[op.handoffId];
    && SameOperation(op, row.document)
    && (op.state == RetryWait <==> op.retryResumeState.Some?)
    && (op.state == RetryWait ==> op.retryAt.Some? && IsRetryResumeState(op.retryResumeState.value))
    && op.state != FailedRecoverable
    && (BeforeSuccessor(Phase(op)) ==> op.successor.None?)
    && (AfterSuccessor(Phase(op)) ==> op.successor.Some?)
    && (op.successor.Some? ==> row.document.successor == op.successor)
    && (AfterAcknowledgement(Phase(op)) ==> op.acknowledgedSession.Some?)
    && (op.acknowledgedSession.Some? ==> ExactlyAcknowledged(op, op.successor))
    && (Phase(op) in {SuccessorCreated, BootstrapSending} || BeforeSuccessor(Phase(op)) ==> op.acknowledgedSession.None?)
    && row.acknowledged == op.acknowledgedSession
  }

  ghost predicate OperationsInv(d: Durable) {
    forall id | id in d.ops :: d.ops[id].operationId == id && OperationInv(d, d.ops[id])
  }

  ghost predicate RowsInv(d: Durable) {
    forall h | h in d.rows ::
      d.rows[h].document.operationId in d.ops && d.ops[d.rows[h].document.operationId].handoffId == h
  }

  ghost predicate KeysInv(d: Durable) {
    && (forall k | k in d.byKey :: d.byKey[k] in d.ops && d.ops[d.byKey[k]].key == k)
    && (forall id | id in d.ops :: d.ops[id].key in d.byKey && d.byKey[d.ops[id].key] == id)
  }

  ghost predicate OneActiveOperation(d: Durable) {
    forall a, b | a in d.ops && b in d.ops :: !IsTerminal(d.ops[a].state) && !IsTerminal(d.ops[b].state) ==> a == b
  }

  /** Once an operation is completed there is an active session: the successor of a completed operation. */
  ghost predicate ActivePointerInv(d: Durable) {
    && (d.active.Some? ==> exists id | id in d.ops :: d.ops[id].state == Completed && d.ops[id].successor == d.active)
    && (forall id | id in d.ops && d.ops[id].state == Completed :: d.active.Some?)
  }

  ghost predicate HostCreated(host: set<HostSession>, session: SessionId, id: OperationId) {
    exists h | h in host :: h.id == session && h.operationId == id
  }

  ghost predicate HostInv(s: Shared) {
    && (forall h | h in s.host ::
          h.operationId in s.d.ops && h.key == s.d.ops[h.operationId].key
          && h.predecessor == s.d.ops[h.operationId].predecessor)
    && (forall id | id in s.d.ops && s.d.ops[id].successor.Some? ::
          HostCreated(s.host, s.d.ops[id].successor.value, id))
  }

  ghost predicate Inv(s: Shared) {
    && OperationsInv(s.d) && RowsInv(s.d) && KeysInv(s.d)
    && OneActiveOperation(s.d) && ActivePointerInv(s.d) && HostInv(s)
  }

  /** At most one host session per idempotency key. */
  ghost predicate OneSessionPerKey(s: Shared) {
    forall g, h | g in s.host && h in s.host && g.key == h.key :: g == h
  }

  // ----- What never changes -----

  /** `later` is the same operation at a later time. */
  predicate Continues(op: Operation, later: Operation) {
    && later.operationId == op.operationId && later.predecessor == op.predecessor
    && later.handoffId == op.handoffId && later.adapterId == op.adapterId && later.key == op.key
    && (op.successor.Some? ==> later.successor == op.successor)
    && (op.acknowledgedSession.Some? ==> later.acknowledgedSession == op.acknowledgedSession
                                         && later.acknowledgedHandoff == op.acknowledgedHandoff)
    && (IsTerminal(op.state) ==> later == op)
    && op.attempt <= later.attempt
    && (Reached(op) ==> Reached(later))
  }

  predicate SuccessorBound(d: Durable, h: HandoffId) {
    && h in d.rows && d.rows[h].document.operationId in d.ops
    && d.ops[d.rows[h].document.operationId].successor.Some?
  }

  /** A handoff only ever receives its successor, once. */
  predicate HandoffContinues(d: Durable, e: Durable, h: HandoffId)
    requires h in d.rows
  {
    && h in e.rows
    && e.rows[h].document == d.rows[h].document.(successor := e.rows[h].document.successor)
    && (SuccessorBound(d, h) ==> e.rows[h].document == d.rows[h].document)
  }

  /** The operation was completed between the two. */
  predicate Completes(d: Durable, e: Durable, id: OperationId) {
    id in e.ops && e.ops[id].state == Completed && !(id in d.ops && d.ops[id].state == Completed)
  }

  ghost predicate CompletesSome(d: Durable, e: Durable) {
    exists id :: Completes(d, e, id)
  }

  /** The active-session pointer moves with completions and with nothing else: to the successor of an
      operation completed in between. */
  ghost predicate PointerFollows(d: Durable, e: Durable) {
    if CompletesSome(d, e)
    then exists id :: Completes(d, e, id) && e.active.Some? && e.active == e.ops[id].successor
    else e.active == d.active
  }

  ghost predicate Evolves(s: Shared, t: Shared) {
    && (forall id | id in s.d.ops :: id in t.d.ops && Continues(s.d.ops[id], t.d.ops[id]))
    && (forall h | h in s.d.rows :: HandoffContinues(s.d, t.d, h))
    && s.host <= t.host && PointerFollows(s.d, t.d)
  }

  lemma EvolvesReflexive(s: Shared)
    ensures Evolves(s, s)
  {
  }

  lemma EvolvesTransitive(s: Shared, t: Shared, u: Shared)
    requires Evolves(s, t) && Evolves(t, u) && Inv(s) && Inv(t)
    ensures Evolves(s, u)
  {
    forall h | h in s.d.rows
      ensures HandoffContinues(s.d, u.d, h)
    {
      assert HandoffContinues(s.d, t.d, h) && HandoffContinues(t.d, u.d, h);
    }
    PointerFollowsOn(s, t, u);
  }

  lemma PointerFollowsOn(s: Shared, t: Shared, u: Shared)
    requires forall id | id in s.d.ops :: id in t.d.ops && Continues(s.d.ops[id], t.d.ops[id])
    requires forall id | id in t.d.ops :: id in u.d.ops && Continues(t.d.ops[id], u.d.ops[id])
    requires PointerFollows(s.d, t.d) && PointerFollows(t.d, u.d)
    ensures PointerFollows(s.d, u.d)
  {
    forall id
      ensures Completes(s.d, u.d, id) <==> Completes(s.d, t.d, id) || Completes(t.d, u.d, id)
    {
    }
    if id :| Completes(t.d, u.d, id) {
      var last :| Completes(t.d, u.d, last) && u.d.active.Some? && u.d.active == u.d.ops[last].successor;
      assert Completes(s.d, u.d, last);
    } else if id :| Completes(s.d, t.d, id) {
      var last :| Completes(s.d, t.d, last) && t.d.active.Some? && t.d.active == t.d.ops[last].successor;
      assert Completes(s.d, u.d, last) && u.d.ops[last] == t.d.ops[last];
    }
  }

  // ----- Every step keeps the invariant -----

  lemma OperationInvFrame(d: Durable, e: Durable, op: Operation)
    requires OperationInv(d, op) && op.handoffId in e.rows && e.rows[op.handoffId] == d.rows[op.handoffId]
    ensures OperationInv(e, op)
  {
  }

  lemma HandoffOf(d: Durable, id: OperationId)
    requires OperationsInv(d) && id in d.ops
    ensures d.ops[id].handoffId in d.rows && d.rows[d.ops[id].handoffId].document.operationId == id
  {
    assert OperationInv(d, d.ops[id]);
  }

  /** `t` differs from `s` in one live operation and, possibly, its handoff row. */
  ghost predicate Replaces(s: Shared, t: Shared, id: OperationId, op': Operation, row': HandoffRow) {
    && id in s.d.ops && !IsTerminal(s.d.ops[id].state) && s.d.ops[id].handoffId in s.d.rows
    && t.host == s.host && t.d.byKey == s.d.byKey
    && t.d.ops == s.d.ops[id := op'] && t.d.rows == s.d.rows[op'.handoffId := row']
    && Continues(s.d.ops[id], op')
    && var doc := s.d.rows[s.d.ops[id].handoffId].document;
       && row'.document == doc.(successor := row'.document.successor)
       && (s.d.ops[id].successor.Some? ==> row'.document == doc)
  }

  lemma ReplaceKeepsOperations(s: Shared, t: Shared, id: OperationId, op': Operation, row': HandoffRow)
    requires OperationsInv(s.d) && Replaces(s, t, id, op', row') && OperationInv(t.d, op')
    ensures OperationsInv(t.d)
  {
    hide OperationInv;
    HandoffOf(s.d, id);
    forall other | other in t.d.ops
      ensures t.d.ops[other].operationId == other && OperationInv(t.d, t.d.ops[other])
    {
      if other != id {
        HandoffOf(s.d, other);
        OperationInvFrame(s.d, t.d, s.d.ops[other]);
      }
    }
  }

  lemma ReplaceKeepsRows(s: Shared, t: Shared, id: OperationId, op': Operation, row': HandoffRow)
    requires OperationsInv(s.d) && RowsInv(s.d) && Replaces(s, t, id, op', row')
    ensures RowsInv(t.d)
    ensures forall h | h in s.d.rows :: HandoffContinues(s.d, t.d, h)
  {
    HandoffOf(s.d, id);
    hide OperationInv;
    var h0 := op'.handoffId;
    assert row'.document.operationId == id;
    forall h | h in s.d.rows
      ensures HandoffContinues(s.d, t.d, h)
    {
      if h != h0 { assert t.d.rows[h] == s.d.rows[h]; }
    }
  }

  lemma ReplaceKeepsKeys(s: Shared, t: Shared, id: OperationId, op': Operation, row': HandoffRow)
    requires KeysInv(s.d) && Replaces(s, t, id, op', row')
    ensures KeysInv(t.d)
  {
  }

  lemma ReplaceKeepsOneActive(s: Shared, t: Shared, id: OperationId, op': Operation, row': HandoffRow)
    requires OneActiveOperation(s.d) && Replaces(s, t, id, op', row')
    ensures OneActiveOperation(t.d)
    ensures forall x | x in s.d.ops :: x in t.d.ops && Continues(s.d.ops[x], t.d.ops[x])
  {
  }

  lemma ReplaceKeepsHost(s: Shared, t: Shared, id: OperationId, op': Operation, row': HandoffRow)
    requires HostInv(s) && Replaces(s, t, id, op', row')
    requires op'.successor.Some? && s.d.ops[id].successor.None? ==> HostCreated(s.host, op'.successor.value, id)
    ensures HostInv(t) && s.host == t.host
  {
    hide HostCreated;
  }

  lemma ReplaceKeepsPointer(s: Shared, t: Shared, id: OperationId, op': Operation, row': HandoffRow)
    requires ActivePointerInv(s.d) && Replaces(s, t, id, op', row')
    requires t.d.active == (if op'.state == Completed then op'.successor else s.d.active)
    requires op'.state == Completed ==> op'.successor.Some?
    ensures ActivePointerInv(t.d) && PointerFollows(s.d, t.d)
  {
    assert t.d.ops[id] == op';
    assert Completes(s.d, t.d, id) <==> op'.state == Completed;
    assert forall x | x != id :: !Completes(s.d, t.d, x);
    if t.d.active == s.d.active && s.d.active.Some? {
      var w :| w in s.d.ops && s.d.ops[w].state == Completed && s.d.ops[w].successor == s.d.active;
      assert t.d.ops[w] == s.d.ops[w];
    }
  }

  lemma ReplaceKeepsInv(s: Shared, t: Shared, id: OperationId, op': Operation, row': HandoffRow)
    requires Inv(s) && Replaces(s, t, id, op', row') && OperationInv(t.d, op')
    requires op'.successor.Some? && s.d.ops[id].successor.None? ==> HostCreated(s.host, op'.successor.value, id)
    requires t.d.active == (if op'.state == Completed then op'.successor else s.d.active)
    requires op'.state == Completed ==> op'.successor.Some?
    ensures Inv(t) && Evolves(s, t)
  {
    hide PointerFollows, OperationInv, HandoffContinues, HostCreated, Continues, Replaces, OperationsInv, RowsInv,
      KeysInv,
         OneActiveOperation, ActivePointerInv, HostInv;
    ReplaceKeepsOperations(s, t, id, op', row');
    ReplaceKeepsRows(s, t, id, op', row');
    ReplaceKeepsKeys(s, t, id, op', row');
    ReplaceKeepsOneActive(s, t, id, op', row');
    ReplaceKeepsPointer(s, t, id, op', row');
    ReplaceKeepsHost(s, t, id, op', row');
  }

  lemma CreateKeepsOperations(d: Durable, h: Handoff, key: Key, e: Durable)
    requires OperationsInv(d) && RowsInv(d) && h.operationId !in d.ops && h.handoffId !in d.rows
    requires e.ops == d.ops[h.operationId := Fresh(h, key)] && e.rows == d.rows[h.handoffId := HandoffRow(h, None)]
    ensures OperationsInv(e) && RowsInv(e)
    ensures forall g | g in d.rows :: HandoffContinues(d, e, g)
  {
    forall other | other in e.ops
      ensures e.ops[other].operationId == other && OperationInv(e, e.ops[other])
    {
      if other != h.operationId {
        HandoffOf(d, other);
        OperationInvFrame(d, e, d.ops[other]);
      }
    }
    forall g | g in d.rows
      ensures HandoffContinues(d, e, g)
    {
      assert e.rows[g] == d.rows[g];
    }
  }

  /** `e` is `d` with one new operation under a new key. */
  ghost predicate Adds(d: Durable, e: Durable, id: OperationId, op: Operation) {
    && id !in d.ops && op.key !in d.byKey && e.active == d.active
    && e.ops == d.ops[id := op] && e.byKey == d.byKey[op.key := id]
  }

  lemma AddKeepsKeys(d: Durable, e: Durable, id: OperationId, op: Operation)
    requires KeysInv(d) && Adds(d, e, id, op)
    ensures KeysInv(e)
  {
  }

  lemma AddKeepsOneActive(d: Durable, e: Durable, id: OperationId, op: Operation)
    requires !HasActive(d) && Adds(d, e, id, op)
    ensures OneActiveOperation(e)
  {
    forall a, b | a in e.ops && b in e.ops && !IsTerminal(e.ops[a].state) && !IsTerminal(e.ops[b].state)
      ensures a == b
    {
      assert a == id && b == id;
    }
  }

  lemma AddKeepsPointer(d: Durable, e: Durable, id: OperationId, op: Operation)
    requires ActivePointerInv(d) && Adds(d, e, id, op) && op.state != Completed
    ensures ActivePointerInv(e) && PointerFollows(d, e)
  {
    assert forall x :: !Completes(d, e, x);
    if d.active.Some? {
      var w :| w in d.ops && d.ops[w].state == Completed && d.ops[w].successor == d.active;
      assert e.ops[w] == d.ops[w];
    }
  }

  lemma AddKeepsHost(s: Shared, t: Shared, id: OperationId, op: Operation)
    requires HostInv(s) && Adds(s.d, t.d, id, op) && t.host == s.host && op.successor.None?
    ensures HostInv(t)
    ensures forall x | x in s.d.ops :: x in t.d.ops && t.d.ops[x] == s.d.ops[x]
  {
    hide HostCreated;
  }

  lemma CreateKeepsInv(s: Shared, h: Handoff, key: Key, t: Shared, honest: bool)
    requires Inv(s) && Step(s, Create(h, key), t, honest)
    ensures Inv(t) && Evolves(s, t)
  {
    hide OperationInv, HandoffContinues, HostCreated, OneActiveOperation, ActivePointerInv, HostInv, RowsInv,
      OperationsInv;
    if key in s.d.byKey || HasActive(s.d) || h.operationId in s.d.ops || h.handoffId in s.d.rows {
      assert t == s;
      EvolvesReflexive(s);
    } else {
      CreateKeepsOperations(s.d, h, key, t.d);
      var op := Fresh(h, key);
      AddKeepsKeys(s.d, t.d, h.operationId, op);
      AddKeepsOneActive(s.d, t.d, h.operationId, op);
      AddKeepsPointer(s.d, t.d, h.operationId, op);
      AddKeepsHost(s, t, h.operationId, op);
    }
  }

  /** What a transaction on one live operation leaves behind. */
  ghost predicate UpdatesOne(s: Shared, id: OperationId, result: Outcome) {
    && id in s.d.ops && result.Committed?
    && var op := s.d.ops[id];
    && op.handoffId in s.d.rows && op.handoffId in result.d.rows
    && Replaces(s, Shared(result.d, s.host), id, result.op, result.d.rows[op.handoffId])
    && OperationInv(result.d, result.op)
    && (result.op.successor.Some? && op.successor.None? ==> HostCreated(s.host, result.op.successor.value, id))
    && result.d.active == (if result.op.state == Completed then result.op.successor else s.d.active)
    && (result.op.state == Completed ==> result.op.successor.Some?)
  }

  lemma UpdateKeepsInv(s: Shared, id: OperationId, result: Outcome)
    requires Inv(s) && UpdatesOne(s, id, result)
    ensures Inv(Shared(result.d, s.host)) && Evolves(s, Shared(result.d, s.host))
  {
    hide Inv, Evolves, Replaces, OperationInv, HostCreated;
    ReplaceKeepsInv(s, Shared(result.d, s.host), id, result.op, result.d.rows[s.d.ops[id].handoffId]);
  }

  lemma RecordingKeepsOperation(d: Durable, e: Event)
    requires OperationsInv(d) && e.Swap? && IsCoordinatorEdge(e.expected, e.next) && Effect(d, e).Committed?
    requires e.next == SuccessorCreated && e.supplied.Some? && d.ops[e.id].state != e.next
    ensures OperationInv(Effect(d, e).d, Effect(d, e).op)
  {
    assert OperationInv(d, d.ops[e.id]);
  }

  lemma MovingKeepsOperation(d: Durable, e: Event)
    requires OperationsInv(d) && e.Swap? && IsCoordinatorEdge(e.expected, e.next) && Effect(d, e).Committed?
    requires e.next != SuccessorCreated && d.ops[e.id].state != e.next
    requires e.supplied.Some? ==> d.ops[e.id].successor == e.supplied
    ensures OperationInv(Effect(d, e).d, Effect(d, e).op)
  {
    assert OperationInv(d, d.ops[e.id]);
  }

  lemma SwapKeepsOperation(s: Shared, e: Event)
    requires OperationsInv(s.d) && e.Swap? && MayIssue(s, e) && Effect(s.d, e).Committed?
    requires s.d.ops[e.id].state != e.next
    ensures OperationInv(Effect(s.d, e).d, Effect(s.d, e).op)
  {
    hide OperationInv, OperationsInv, Effect, HostCreated, IsCoordinatorEdge;
    if e.next == SuccessorCreated {
      RecordingKeepsOperation(s.d, e);
    } else {
      MovingKeepsOperation(s.d, e);
    }
  }

  /** A compare-and-set rewrites one operation, and at most its own handoff row. */
  lemma SwapReplaces(s: Shared, e: Event)
    requires OperationsInv(s.d) && e.Swap? && MayIssue(s, e) && Effect(s.d, e).Committed?
    requires s.d.ops[e.id].state != e.next
    ensures var op, result := s.d.ops[e.id], Effect(s.d, e);
            && op.handoffId in s.d.rows && op.handoffId in result.d.rows
            && Replaces(s, Shared(result.d, s.host), e.id, result.op, result.d.rows[op.handoffId])
  {
    hide HostCreated, IsCoordinatorEdge, AfterSuccessor, AfterAcknowledgement;
    var op, result := s.d.ops[e.id], Effect(s.d, e);
    assert OperationInv(s.d, op);
    assert result.d.rows == s.d.rows[op.handoffId := result.d.rows[op.handoffId]];
  }

  lemma SwapUpdates(s: Shared, e: Event)
    requires OperationsInv(s.d) && e.Swap? && MayIssue(s, e) && Effect(s.d, e).Committed?
    requires s.d.ops[e.id].state != e.next
    ensures UpdatesOne(s, e.id, Effect(s.d, e))
  {
    hide HostCreated, OperationInv, OperationsInv, Replaces, IsCoordinatorEdge;
    SwapKeepsOperation(s, e);
    SwapReplaces(s, e);
  }

  lemma AckUpdates(s: Shared, e: Event)
    requires OperationsInv(s.d) && e.Ack? && Effect(s.d, e).Committed?
    requires !AfterAcknowledgement(s.d.ops[e.id].state)
    ensures UpdatesOne(s, e.id, Effect(s.d, e))
  {
    assert OperationInv(s.d, s.d.ops[e.id]);
  }

  lemma RetryUpdates(s: Shared, e: Event)
    requires OperationsInv(s.d) && e.Retry? && Effect(s.d, e).Committed?
    ensures UpdatesOne(s, e.id, Effect(s.d, e))
  {
    var op, result := s.d.ops[e.id], Effect(s.d, e);
    assert OperationInv(s.d, op);
    assert result.d.rows == s.d.rows[op.handoffId := result.d.rows[op.handoffId]];
  }

  /** A transaction that fails, or finds its work already done, leaves everything as it was. */
  lemma TransactionKeepsInv(s: Shared, e: Event, t: Shared, honest: bool)
    requires Inv(s) && (e.Swap? || e.Ack? || e.Retry?) && Step(s, e, t, honest)
    ensures Inv(t) && Evolves(s, t)
  {
    var result := Effect(s.d, e);
    if result.Committed? && result.d != s.d {
      match e {
        case Swap(_, _, _, _) => SwapUpdates(s, e);
        case Ack(_, _) => AckUpdates(s, e);
        case Retry(_, _, _) => RetryUpdates(s, e);
      }
      assert t == Shared(result.d, s.host);
      hide *;
      UpdateKeepsInv(s, e.id, result);
    } else {
      assert t == s;
      EvolvesReflexive(s);
    }
  }

  lemma StoreKeepsInv(s: Shared, e: Event, t: Shared, honest: bool)
    requires Inv(s) && e.Store? && Step(s, e, t, honest)
    ensures t == s
  {
    if Effect(s.d, e).Committed? {
      assert OperationInv(s.d, s.d.ops[e.h.operationId]);
    }
  }

  lemma HostKeepsInv(s: Shared, e: Event, t: Shared, honest: bool)
    requires Inv(s) && e.HostCreate? && Step(s, e, t, honest)
    ensures Inv(t) && Evolves(s, t)
  {
    forall id | id in t.d.ops && t.d.ops[id].successor.Some?
      ensures exists h | h in t.host :: h.id == t.d.ops[id].successor.value && h.operationId == id
    {
      var h :| h in s.host && h.id == s.d.ops[id].successor.value && h.operationId == id;
      assert h in t.host;
    }
  }

  lemma StepKeepsInv(s: Shared, e: Event, t: Shared, honest: bool)
    requires Inv(s) && Step(s, e, t, honest)
    ensures Inv(t) && Evolves(s, t)
    ensures honest && OneSessionPerKey(s) ==> OneSessionPerKey(t)
  {
    hide Inv, Evolves, MayIssue, Effect;
    match e {
      case Create(h, key) => CreateKeepsInv(s, h, key, t, honest);
      case Store(_) => StoreKeepsInv(s, e, t, honest); EvolvesReflexive(s);
      case Swap(_, _, _, _) => TransactionKeepsInv(s, e, t, honest);
      case Ack(_, _) => TransactionKeepsInv(s, e, t, honest);
      case Retry(_, _, _) => TransactionKeepsInv(s, e, t, honest);
      case HostCreate(_) => HostKeepsInv(s, e, t, honest);
    }
  }

  // ----- Runs: any number of coordinators, interleaved and crashing anywhere -----

  const EMPTY: Shared := Shared(Durable(map[], map[], map[], None), {})

  /** A run is a sequence of atomic actions. Which coordinator takes which action, and where one
      stops for good between two actions, does not matter. */
  ghost predicate IsRun(states: seq<Shared>, events: seq<Event>, honest: bool) {
    && |states| == |events| + 1
    && forall i | 0 <= i < |events| :: Step(states[i], events[i], states[i + 1], honest)
  }

  lemma {:induction false} RunKeepsInv(states: seq<Shared>, events: seq<Event>, honest: bool)
    requires IsRun(states, events, honest) && Inv(states[0])
    ensures Inv(states[|events|]) && Evolves(states[0], states[|events|])
    ensures honest && OneSessionPerKey(states[0]) ==> OneSessionPerKey(states[|events|])
    decreases |events|
  {
    var n := |events|;
    if n == 0 {
      EvolvesReflexive(states[0]);
    } else {
      var before, asked := states[..n], events[..n - 1];
      assert forall i | 0 <= i < n - 1 :: Step(before[i], asked[i], before[i + 1], honest);
      RunKeepsInv(before, asked, honest);
      StepKeepsInv(states[n - 1], events[n - 1], states[n], honest);
      EvolvesTransitive(states[0], states[n - 1], states[n]);
    }
  }

  /** What the protocol promises of every operation of every reachable state. */
  ghost predicate HandoffSafe(s: Shared, id: OperationId)
    requires id in s.d.ops
  {
    var op := s.d.ops[id];
    var phase := Phase(op);
    // a durable handoff of exactly this operation
    && (phase !in {Idle, CheckpointPreparing} ==>
          op.handoffId in s.d.rows && SameOperation(op, s.d.rows[op.handoffId].document))
    // a successor, bound into the handoff, that the host created for this operation
    && (AfterSuccessor(phase) ==>
          && op.successor.Some? && s.d.rows[op.handoffId].document.successor == op.successor
          && exists h | h in s.host :: h.id == op.successor.value && h.operationId == id && h.key == op.key)
    // an acknowledgement of exactly that successor and handoff
    && (AfterAcknowledgement(phase) ==>
          && op.acknowledgedSession == op.successor && op.acknowledgedHandoff == Some(op.handoffId)
          && s.d.rows[op.handoffId].acknowledged == op.successor)
    // the failed state is never durable; a retry resumes only where it came from
    && op.state != FailedRecoverable
    && (op.state == RetryWait ==> IsRetryResumeState(phase))
  }

  /** Safety of every reachable state, however checkpoint, rollover, resume and cancelling
      recovery of any number of coordinators are interleaved and wherever they crash. */
  lemma HandoffSafety(states: seq<Shared>, events: seq<Event>, honest: bool)
    requires IsRun(states, events, honest) && states[0] == EMPTY
    ensures var s := states[|events|];
            && (forall id | id in s.d.ops :: HandoffSafe(s, id))
            && (forall a, b | a in s.d.ops && b in s.d.ops ::
                  !IsTerminal(s.d.ops[a].state) && !IsTerminal(s.d.ops[b].state) ==> a == b)
            && (s.d.active.Some? ==>
                  exists id | id in s.d.ops ::
                    s.d.ops[id].state == Completed && s.d.ops[id].acknowledgedSession == s.d.active)
            && (forall id | id in s.d.ops && s.d.ops[id].state == Completed :: s.d.active.Some?)
  {
    RunKeepsInv(states, events, honest);
    var s := states[|events|];
    forall id | id in s.d.ops
      ensures HandoffSafe(s, id)
    {
      assert OperationInv(s.d, s.d.ops[id]);
    }
    if s.d.active.Some? {
      var id :| id in s.d.ops && s.d.ops[id].state == Completed && s.d.ops[id].successor == s.d.active;
      assert OperationInv(s.d, s.d.ops[id]);
    }
  }

  /** Every step that completes an operation makes its successor the active session, and no other step moves
      the pointer. */
  lemma StepMovesPointer(s: Shared, e: Event, t: Shared, honest: bool)
    requires Inv(s) && Step(s, e, t, honest)
    ensures forall id | Completes(s.d, t.d, id) :: t.d.active.Some? && t.d.active == t.d.ops[id].successor
    ensures !CompletesSome(s.d, t.d) ==> t.d.active == s.d.active
  {
    StepKeepsInv(s, e, t, honest);
    forall id, other | Completes(s.d, t.d, id) && Completes(s.d, t.d, other)
      ensures id == other
    {
      assert !IsTerminal(s.d.ops[id].state) && !IsTerminal(s.d.ops[other].state) by {
        hide Inv;
        OneAtATime(s, e, t, honest, id);
        OneAtATime(s, e, t, honest, other);
      }
    }
  }

  /** What a step completes was there, and unfinished. */
  lemma OneAtATime(s: Shared, e: Event, t: Shared, honest: bool, id: OperationId)
    requires Step(s, e, t, honest) && Completes(s.d, t.d, id) && Evolves(s, t)
    ensures id in s.d.ops && !IsTerminal(s.d.ops[id].state)
  {
    hide HandoffContinues, IsAllowedTransition, IsExactAcknowledgement, MayIssue, PointerFollows, ExactlyAcknowledged,
      HasActive;
  }

  /** In every run, the active session is the successor of the operation completed last. */
  lemma PointerNamesLastCompleted(states: seq<Shared>, events: seq<Event>, honest: bool) returns (i: nat, last: OperationId)
    requires IsRun(states, events, honest) && states[0] == EMPTY
    requires exists id | id in states[|events|].d.ops :: states[|events|].d.ops[id].state == Completed
    ensures i < |events| && Completes(states[i].d, states[i + 1].d, last)
    ensures forall j | i < j < |events| :: !CompletesSome(states[j].d, states[j + 1].d)
    ensures var d := states[|events|].d;
            last in d.ops && d.active.Some? && d.active == d.ops[last].successor
  {
    i, last := LastCompletedBy(states, events, honest, |events|);
  }

  lemma {:induction false} LastCompletedBy(states: seq<Shared>, events: seq<Event>, honest: bool, m: nat)
    returns (i: nat, last: OperationId)
    requires IsRun(states, events, honest) && states[0] == EMPTY && m <= |events|
    requires exists id | id in states[m].d.ops :: states[m].d.ops[id].state == Completed
    ensures i < m && Completes(states[i].d, states[i + 1].d, last)
    ensures forall j | i < j < m :: !CompletesSome(states[j].d, states[j + 1].d)
    ensures last in states[m].d.ops && states[m].d.active.Some? && states[m].d.active == states[m].d.ops[last].successor
    decreases m
  {
    hide Step, IsRun, Completes, CompletesSome, Inv;
    StepOfRun(states, events, honest, m - 1);
    var s, t := states[m - 1], states[m];
    StepMovesPointer(s, events[m - 1], t, honest);
    if CompletesSome(s.d, t.d) {
      i := m - 1;
      last := Newest(s.d, t.d);
    } else {
      CompletedBefore(s.d, t.d);
      i, last := LastCompletedBy(states, events, honest, m - 1);
      SuccessorStays(states, events, honest, m - 1, m, last);
    }
  }

  lemma Newest(d: Durable, e: Durable) returns (id: OperationId)
    requires CompletesSome(d, e)
    ensures Completes(d, e, id) && id in e.ops
  {
    id :| Completes(d, e, id);
  }

  lemma StepOfRun(states: seq<Shared>, events: seq<Event>, honest: bool, i: nat)
    requires IsRun(states, events, honest) && states[0] == EMPTY && i < |events|
    ensures |states| == |events| + 1 && Inv(states[i]) && Step(states[i], events[i], states[i + 1], honest)
  {
    hide Step;
    EmptyInv();
    LaterStates(states, events, honest, i, i + 1);
  }

  lemma CompletedBefore(d: Durable, e: Durable)
    requires !CompletesSome(d, e)
    ensures forall id | id in e.ops && e.ops[id].state == Completed :: id in d.ops && d.ops[id].state == Completed
  {
    forall id | id in e.ops && e.ops[id].state == Completed
      ensures id in d.ops && d.ops[id].state == Completed
    {
      assert !Completes(d, e, id);
    }
  }

  lemma SuccessorStays(states: seq<Shared>, events: seq<Event>, honest: bool, i: nat, j: nat, id: OperationId)
    requires IsRun(states, events, honest) && states[0] == EMPTY && i <= j <= |events|
    requires id in states[i].d.ops && states[i].d.ops[id].successor.Some?
    ensures id in states[j].d.ops && states[j].d.ops[id].successor == states[i].d.ops[id].successor
  {
    hide Step;
    RecordedFactsAreFinal(states, events, honest, i, j, id);
  }

  // ----- Where operations, handoffs and acknowledgements come from -----

  /** The event asked for this operation, under its key, with its handoff but for the successor. */
  predicate Requested(d: Durable, id: OperationId, e: Event) {
    && id in d.ops && d.ops[id].handoffId in d.rows && e.Create? && e.key == d.ops[id].key && e.h.operationId == id
    && var document := d.rows[d.ops[id].handoffId].document;
       document == e.h.(successor := document.successor)
  }

  /** The event is an acknowledgement of exactly the operation's handoff, successor, adapter and document. */
  predicate AcknowledgedBy(d: Durable, id: OperationId, e: Event) {
    && id in d.ops && d.ops[id].handoffId in d.rows && d.ops[id].successor.Some? && e.Ack? && e.id == id
    && e.ack.handoffId == d.ops[id].handoffId && e.ack.successor == d.ops[id].successor.value
    && e.ack.adapterId == d.ops[id].adapterId && e.ack.digest == d.rows[d.ops[id].handoffId].document
  }

  lemma RequestStays(s: Shared, t: Shared, id: OperationId, e: Event)
    requires Evolves(s, t) && Requested(s.d, id, e)
    ensures Requested(t.d, id, e)
  {
    assert Continues(s.d.ops[id], t.d.ops[id]) && HandoffContinues(s.d, t.d, s.d.ops[id].handoffId);
  }

  lemma AcknowledgementStays(s: Shared, t: Shared, id: OperationId, e: Event)
    requires Inv(s) && Evolves(s, t) && AcknowledgedBy(s.d, id, e)
    ensures AcknowledgedBy(t.d, id, e)
  {
    assert OperationInv(s.d, s.d.ops[id]);
    assert Continues(s.d.ops[id], t.d.ops[id]) && HandoffContinues(s.d, t.d, s.d.ops[id].handoffId);
    assert SuccessorBound(s.d, s.d.ops[id].handoffId);
  }

  lemma NewIsRequested(s: Shared, e: Event, t: Shared, honest: bool, id: OperationId)
    requires Inv(s) && Step(s, e, t, honest) && id in t.d.ops && id !in s.d.ops
    ensures Requested(t.d, id, e)
  {
    hide MayIssue, IsAllowedTransition, IsExactAcknowledgement, ExactlyAcknowledged, OperationInv, RowsInv, KeysInv,
      HostInv,
      OneActiveOperation, ActivePointerInv;
  }

  lemma NewIsAcknowledged(s: Shared, e: Event, t: Shared, honest: bool, id: OperationId)
    requires Inv(s) && Step(s, e, t, honest) && id in s.d.ops && id in t.d.ops
    requires s.d.ops[id].acknowledgedSession.None? && t.d.ops[id].acknowledgedSession.Some?
    ensures AcknowledgedBy(t.d, id, e)
  {
    hide MayIssue, IsAllowedTransition, RowsInv, KeysInv, HostInv, OneActiveOperation, ActivePointerInv, OperationInv;
  }

  /** In every run, each operation was asked for, with its handoff. */
  lemma {:induction false} HandoffsAreRequested(states: seq<Shared>, events: seq<Event>, honest: bool, m: nat, id: OperationId)
    returns (i: nat)
    requires IsRun(states, events, honest) && states[0] == EMPTY && m <= |events| && id in states[m].d.ops
    ensures i < m && Requested(states[m].d, id, events[i])
    decreases m
  {
    hide Step, IsRun, Inv, Requested, Evolves;
    StepOfRun(states, events, honest, m - 1);
    var s, t := states[m - 1], states[m];
    if id in s.d.ops {
      i := HandoffsAreRequested(states, events, honest, m - 1, id);
      StepKeepsInv(s, events[m - 1], t, honest);
      RequestStays(s, t, id, events[i]);
    } else {
      i := m - 1;
      NewIsRequested(s, events[m - 1], t, honest, id);
    }
  }

  /** In every run, each acknowledged operation was acknowledged for exactly its durable document. */
  lemma {:induction false} AcknowledgementsAreExact(states: seq<Shared>, events: seq<Event>, honest: bool, m: nat,
                                                    id: OperationId)
    returns (i: nat)
    requires IsRun(states, events, honest) && states[0] == EMPTY && m <= |events| && id in states[m].d.ops
    requires states[m].d.ops[id].acknowledgedSession.Some?
    ensures i < m && AcknowledgedBy(states[m].d, id, events[i])
    decreases m
  {
    hide Step, IsRun, Inv, AcknowledgedBy, Evolves;
    StepOfRun(states, events, honest, m - 1);
    var s, t := states[m - 1], states[m];
    NewIsUnacknowledged(s, events[m - 1], t, honest, id);
    if id in s.d.ops && s.d.ops[id].acknowledgedSession.Some? {
      i := AcknowledgementsAreExact(states, events, honest, m - 1, id);
      StepKeepsInv(s, events[m - 1], t, honest);
      AcknowledgementStays(s, t, id, events[i]);
    } else {
      i := m - 1;
      NewIsAcknowledged(s, events[m - 1], t, honest, id);
    }
  }

  lemma NewIsUnacknowledged(s: Shared, e: Event, t: Shared, honest: bool, id: OperationId)
    requires Inv(s) && Step(s, e, t, honest) && id in t.d.ops
    ensures id !in s.d.ops ==> t.d.ops[id].acknowledgedSession.None?
  {
    hide MayIssue, IsAllowedTransition, IsExactAcknowledgement, ExactlyAcknowledged, OperationInv, RowsInv, KeysInv,
      HostInv,
      OneActiveOperation, ActivePointerInv;
  }

  lemma EmptyInv()
    ensures Inv(EMPTY) && OneSessionPerKey(EMPTY)
  {
  }

  lemma RunPrefix(states: seq<Shared>, events: seq<Event>, honest: bool, i: nat)
    requires IsRun(states, events, honest) && i <= |events|
    ensures IsRun(states[..i + 1], events[..i], honest)
  {
    RunSegment(states, events, honest, 0, i);
    assert states[0..i + 1] == states[..i + 1] && events[0..i] == events[..i];
  }

  lemma RunSegment(states: seq<Shared>, events: seq<Event>, honest: bool, i: nat, j: nat)
    requires IsRun(states, events, honest) && i <= j <= |events|
    ensures IsRun(states[i..j + 1], events[i..j], honest)
  {
    hide Step;
    forall k | 0 <= k < j - i
      ensures Step(states[i..j + 1][k], events[i..j][k], states[i..j + 1][k + 1], honest)
    {
      assert Step(states[i + k], events[i + k], states[i + k + 1], honest);
    }
  }

  lemma LaterStates(states: seq<Shared>, events: seq<Event>, honest: bool, i: nat, j: nat)
    requires IsRun(states, events, honest) && Inv(states[0]) && i <= j <= |events|
    ensures Inv(states[i]) && Inv(states[j]) && Evolves(states[i], states[j])
  {
    RunPrefix(states, events, honest, i);
    RunSegment(states, events, honest, i, j);
    hide IsRun, Inv, Evolves, OneSessionPerKey;
    var a, b := states[..i + 1], states[i..j + 1];
    assert a[0] == states[0] && a[i] == states[i] && b[0] == states[i] && b[j - i] == states[j];
    RunKeepsInv(a, events[..i], honest);
    RunKeepsInv(b, events[i..j], honest);
  }

  /** A durable successor, acknowledgement and terminal outcome, once recorded, are final. */
  lemma RecordedFactsAreFinal(states: seq<Shared>, events: seq<Event>, honest: bool, i: nat, j: nat, id: OperationId)
    requires IsRun(states, events, honest) && states[0] == EMPTY && i <= j <= |events|
    requires id in states[i].d.ops
    ensures id in states[j].d.ops
    ensures states[i].d.ops[id].successor.Some? ==>
              states[j].d.ops[id].successor == states[i].d.ops[id].successor
    ensures states[i].d.ops[id].acknowledgedSession.Some? ==>
              states[j].d.ops[id].acknowledgedSession == states[i].d.ops[id].acknowledgedSession
    ensures IsTerminal(states[i].d.ops[id].state) ==> states[j].d.ops[id] == states[i].d.ops[id]
  {
    EmptyInv();
    LaterStates(states, events, honest, i, j);
    assert Continues(states[i].d.ops[id], states[j].d.ops[id]);
  }

  /** With a host that honours the idempotency key, an operation has at most one host session,
      and a recorded successor is that session. */
  lemma OneSuccessorPerOperation(states: seq<Shared>, events: seq<Event>)
    requires IsRun(states, events, true) && states[0] == EMPTY
    ensures var s := states[|events|];
            && (forall g, h | g in s.host && h in s.host && g.operationId == h.operationId :: g == h)
            && (forall h | h in s.host ::
                  h.operationId in s.d.ops
                  && (s.d.ops[h.operationId].successor.Some? ==> s.d.ops[h.operationId].successor == Some(h.id)))
  {
    RunKeepsInv(states, events, true);
    var s := states[|events|];
    forall h | h in s.host && s.d.ops[h.operationId].successor.Some?
      ensures s.d.ops[h.operationId].successor == Some(h.id)
    {
      var g :| g in s.host && g.id == s.d.ops[h.operationId].successor.value && g.operationId == h.operationId;
    }
  }

  /** One operation, its handoff, and no host session. */
  function Alone(h: Handoff, op: Operation): Shared {
    Shared(Durable(map[op.operationId := op], map[op.key := op.operationId], map[h.handoffId := HandoffRow(h, None)], None), {})
  }

  lemma CreatesAlone(h: Handoff, key: Key)
    ensures Step(EMPTY, Create(h, key), Alone(h, Fresh(h, key)), false)
    ensures Step(EMPTY, Create(h, key), Alone(h, Fresh(h, key)), true)
  {
  }

  lemma StoresAlone(h: Handoff, op: Operation, honest: bool)
    requires SameOperation(op, h) && op.state == Idle
    ensures Step(Alone(h, op), Store(h), Alone(h, op), honest)
  {
  }

  /** A transition before the successor exists. */
  lemma SwapsAlone(h: Handoff, op: Operation, next: State, honest: bool)
    requires SameOperation(op, h) && op.attempt < 10 && IsCoordinatorEdge(op.state, next)
    requires op.state in {Idle, CheckpointPreparing, CheckpointPersisted} && next != Cancelling
    ensures var op' := op.(state := next, attempt := op.attempt + 1, retryAt := None, retryResumeState := None);
            Step(Alone(h, op), Swap(op.operationId, op.state, next, None), Alone(h, op'), honest)
  {
    var op' := op.(state := next, attempt := op.attempt + 1, retryAt := None, retryResumeState := None);
    var s := Alone(h, op);
    assert s.d.ops[op.operationId := op'] == Alone(h, op').d.ops;
  }

  lemma RetriesAlone(h: Handoff, op: Operation, at: int, honest: bool)
    requires SameOperation(op, h) && op.attempt < 10 && op.state == CheckpointPreparing
    ensures var op' := op.(state := RetryWait, attempt := op.attempt + 2, retryAt := Some(at),
                           retryResumeState := Some(CheckpointPreparing));
            Step(Alone(h, op), Retry(op.operationId, CheckpointPreparing, at), Alone(h, op'), honest)
  {
    var op' := op.(state := RetryWait, attempt := op.attempt + 2, retryAt := Some(at),
                   retryResumeState := Some(CheckpointPreparing));
    assert Alone(h, op).d.ops[op.operationId := op'] == Alone(h, op').d.ops;
  }

  /** A run that the coordinator's own transactions take to the preparation of a checkpoint. */
  lemma ToPreparation(h: Handoff, key: Key, honest: bool)
    returns (states: seq<Shared>, events: seq<Event>, op: Operation)
    ensures IsRun(states, events, honest) && states[0] == EMPTY && |states| == 4 && |events| == 3
    ensures op == Fresh(h, key).(state := CheckpointPreparing, attempt := 1) && states[3] == Alone(h, op)
  {
    hide Step, Alone, IsCoordinatorEdge;
    var idle := Fresh(h, key);
    op := idle.(state := CheckpointPreparing, attempt := 1);
    CreatesAlone(h, key);
    StoresAlone(h, idle, honest);
    assert IsCoordinatorEdge(Idle, CheckpointPreparing) by { FirstEdges(); }
    SwapsAlone(h, idle, CheckpointPreparing, honest);
    events := [Create(h, key), Store(h), Swap(h.operationId, Idle, CheckpointPreparing, None)];
    states := [EMPTY, Alone(h, idle), Alone(h, idle), Alone(h, op)];
  }

  lemma FirstEdges()
    ensures IsCoordinatorEdge(Idle, CheckpointPreparing) && IsCoordinatorEdge(CheckpointPreparing, CheckpointPersisted)
    ensures IsCoordinatorEdge(CheckpointPersisted, SuccessorCreating)
  {
  }

  lemma RunGrows(states: seq<Shared>, events: seq<Event>, honest: bool, e: Event, t: Shared)
    requires IsRun(states, events, honest) && Step(states[|events|], e, t, honest)
    ensures IsRun(states + [t], events + [e], honest)
  {
    hide Step;
    var more, asked := states + [t], events + [e];
    forall i | 0 <= i < |asked|
      ensures Step(more[i], asked[i], more[i + 1], honest)
    {
      if i < |events| {
        assert Step(states[i], events[i], states[i + 1], honest);
      }
    }
  }

  /** Without the key being honoured the guarantee is lost: two coordinators that both found no
      session for an operation in SuccessorCreating leave two sessions for it. */
  lemma WithoutIdempotencyTwoSessions() returns (states: seq<Shared>, events: seq<Event>)
    ensures IsRun(states, events, false) && states[0] == EMPTY
    ensures exists g, h | g in states[|events|].host && h in states[|events|].host ::
              g.operationId == h.operationId && g != h
    ensures 1 in states[|events|].d.ops && states[|events|].d.ops[1].state == SuccessorCreating
  {
    hide IsRun, Step, Alone, IsCoordinatorEdge;
    var h, a, b := Handoff(1, 1, 7, None, 3, 0), HostSession(10, 1, 7, 5), HostSession(11, 1, 7, 5);
    var op;
    states, events, op := ToPreparation(h, 5, false);
    FirstEdges();
    SwapsAlone(h, op, CheckpointPersisted, false);
    var persisted := op.(state := CheckpointPersisted, attempt := 2);
    states, events := Grown(states, events, false, Swap(1, CheckpointPreparing, CheckpointPersisted, None), Alone(h, persisted));
    SwapsAlone(h, persisted, SuccessorCreating, false);
    var creating := persisted.(state := SuccessorCreating, attempt := 3);
    states, events := Grown(states, events, false, Swap(1, CheckpointPersisted, SuccessorCreating, None), Alone(h, creating));
    AsksTwice(h, creating, a, b);
    states, events := Grown(states, events, false, HostCreate(a), Alone(h, creating).(host := {a}));
    states, events := Grown(states, events, false, HostCreate(b), Alone(h, creating).(host := {a, b}));
    assert a in states[|events|].host && b in states[|events|].host;
  }

  lemma AsksTwice(h: Handoff, op: Operation, a: HostSession, b: HostSession)
    requires op.state == SuccessorCreating && op.retryResumeState.None?
    requires a.operationId == b.operationId == op.operationId && a.key == b.key == op.key
    requires a.predecessor == b.predecessor == op.predecessor
    ensures var s := Alone(h, op);
            && Step(s, HostCreate(a), s.(host := {a}), false)
            && Step(s.(host := {a}), HostCreate(b), s.(host := {a, b}), false)
            && op.operationId in s.d.ops && s.d.ops[op.operationId] == op
  {
    assert {a} + {b} == {a, b};
  }

  lemma Grown(states: seq<Shared>, events: seq<Event>, honest: bool, e: Event, t: Shared)
    returns (more: seq<Shared>, asked: seq<Event>)
    requires |states| == |events| + 1 && IsRun(states, events, honest) && Step(states[|events|], e, t, honest)
    ensures more == states + [t] && asked == events + [e] && IsRun(more, asked, honest) && |more| == |asked| + 1
  {
    RunGrows(states, events, honest, e, t);
    more, asked := states + [t], events + [e];
  }

  // ----- Cancelling -----

  /** Exactly when cancelling recovery can leave a state: not from retry wait, and only while
      transitions are left. */
  lemma CancellableExactly(s: Shared, id: OperationId)
    requires Inv(s) && id in s.d.ops
    requires var state := s.d.ops[id].state; !IsTerminal(state) && state != Cancelling
    ensures var op := s.d.ops[id];
            Effect(s.d, Swap(id, op.state, Cancelling, op.successor)).Committed? <==>
              op.state != RetryWait && op.attempt < MAX_TRANSITIONS - 1
  {
    assert OperationInv(s.d, s.d.ops[id]);
  }

  /** The same of every reachable state. */
  lemma CancellableInRuns(states: seq<Shared>, events: seq<Event>, honest: bool, id: OperationId)
    requires IsRun(states, events, honest) && states[0] == EMPTY && id in states[|events|].d.ops
    requires var state := states[|events|].d.ops[id].state; !IsTerminal(state) && state != Cancelling
    ensures var s := states[|events|];
            var op := s.d.ops[id];
            Effect(s.d, Swap(id, op.state, Cancelling, op.successor)).Committed? <==>
              op.state != RetryWait && op.attempt < MAX_TRANSITIONS - 1
  {
    hide Inv;
    EmptyInv();
    RunKeepsInv(states, events, honest);
    CancellableExactly(states[|events|], id);
  }

  /** A run that ends in retry wait and refuses to cancel: a checkpoint is created, its preparation
      fails, the failure is noted for retry, and recovery asks for the cancellation. */
  lemma RetryWaitRefusesRecovery() returns (states: seq<Shared>, events: seq<Event>)
    ensures IsRun(states, events, true) && states[0] == EMPTY && |events| == 5
    ensures events[4] == Swap(1, RetryWait, Cancelling, None)
    ensures 1 in states[4].d.ops && states[4].d.ops[1].state == RetryWait
    ensures Effect(states[4].d, events[4]) == Failed(Conflict) && states[5] == states[4]
  {
    hide IsRun, Step, Alone;
    var h, op := Handoff(1, 1, 7, None, 3, 0), Fresh(Handoff(1, 1, 7, None, 3, 0), 5);
    states, events, op := ToPreparation(h, 5, true);
    RetriesAlone(h, op, 10, true);
    var waiting := op.(state := RetryWait, attempt := 3, retryAt := Some(10), retryResumeState := Some(CheckpointPreparing));
    states, events := Grown(states, events, true, Retry(1, CheckpointPreparing, 10), Alone(h, waiting));
    RefusesAlone(h, waiting);
    states, events := Grown(states, events, true, Swap(1, RetryWait, Cancelling, None), Alone(h, waiting));
  }

  lemma RefusesAlone(h: Handoff, op: Operation)
    requires op.state == RetryWait && op.retryResumeState == Some(CheckpointPreparing)
    ensures var s, e := Alone(h, op), Swap(op.operationId, RetryWait, Cancelling, None);
            && op.operationId in s.d.ops && s.d.ops[op.operationId] == op
            && Effect(s.d, e) == Failed(Conflict) && Step(s, e, s, true)
  {
  }
}
