// The coordinator's checkpoint, rollover, resume and recovery, run step by step against a
// repository and a session host that other coordinators use at the same time. Every call on
// the shared state is one atomic action; between two calls anything the protocol allows may happen.

module ContinuityCoordinator {
  import opened Options
  import opened ContinuityRepository
  import opened ContinuityProtocol

  const MAX_STATE_MACHINE_STEPS: nat := 32
  const RETRY_DELAY: int := 1

  datatype Result<+T> = Success(value: T) | Failure(error: ErrorCode)

  datatype CheckpointOutcome = CheckpointOutcome(op: Operation, handoff: Handoff)
  datatype RolloverOutcome =
    RolloverOutcome(op: Operation, successor: Option<HostSession>, acknowledged: bool, predecessorSealed: bool)
  datatype ResumeOutcome = ResumeOutcome(op: Operation, handoff: Handoff, session: HostSession)
  datatype RecoveryReport = RecoveryReport(inspected: nat, resumed: nat, cancelled: nat, failed: nat)

  predicate HostCanReconcile(caps: Capabilities) {
    caps.create && caps.bootstrap && (caps.idempotency || caps.query)
  }

  /** Progress of an operation through rollover. Retry wait ranks lowest: it can only be where
      a rollover starts. */
  function Rank(s: State): nat {
    match s
    case RetryWait => 0
    case Idle => 1
    case CheckpointPreparing => 2
    case CheckpointPersisted => 3
    case SuccessorCreating => 4
    case SuccessorCreated => 5
    case BootstrapSending => 6
    case Acknowledged => 7
    case PredecessorSealing => 8
    case Completed => 9
    case Cancelling => 10
    case Cancelled => 11
    case FailedRecoverable => 12
  }

  /** `t` can be reached from `s` by actions of any number of other coordinators. */
  ghost predicate Reaches(s: Shared, t: Shared, honest: bool) {
    exists states: seq<Shared>, events: seq<Event> ::
      IsRun(states, events, honest) && states[0] == s && states[|events|] == t
  }

  lemma ReachesKeepsInv(s: Shared, t: Shared, honest: bool)
    requires Inv(s) && Reaches(s, t, honest)
    ensures Inv(t) && Evolves(s, t)
    ensures honest && OneSessionPerKey(s) ==> OneSessionPerKey(t)
  {
    var states: seq<Shared>, events: seq<Event> :|
      IsRun(states, events, honest) && states[0] == s && states[|events|] == t;
    RunKeepsInv(states, events, honest);
  }

  /** The local copy of an operation: some earlier durable version of it. */
  ghost predicate IsVersion(op: Operation, d: Durable) {
    && op.operationId in d.ops && Continues(op, d.ops[op.operationId])
    && op.state != FailedRecoverable
    && (op.state == RetryWait ==>
          op.retryAt.Some? && op.retryResumeState.Some? && IsRetryResumeState(op.retryResumeState.value))
    && (AfterSuccessor(op.state) ==> op.successor.Some?)
    && (AfterAcknowledgement(op.state) ==> op.acknowledgedSession.Some?)
    && (op.acknowledgedSession.Some? ==> ExactlyAcknowledged(op, op.successor))
  }

  lemma DurableIsVersion(s: Shared, id: OperationId)
    requires Inv(s) && id in s.d.ops
    ensures s.d.ops[id].operationId == id && IsVersion(s.d.ops[id], s.d)
    ensures s.d.ops[id].handoffId in s.d.rows && SameOperation(s.d.ops[id], s.d.rows[s.d.ops[id].handoffId].document)
  {
    assert OperationInv(s.d, s.d.ops[id]);
  }

  lemma VersionsLast(op: Operation, s: Shared, t: Shared)
    requires IsVersion(op, s.d) && Evolves(s, t)
    ensures IsVersion(op, t.d)
  {
  }

  /** A committed transaction answers with the row it leaves. */
  lemma AnswerIsDurable(s: Shared, e: Event, t: Shared, honest: bool)
    requires Inv(s) && !e.HostCreate? && Step(s, e, t, honest) && Effect(s.d, e).Committed?
    ensures var op := Effect(s.d, e).op;
            op.operationId in t.d.ops && t.d.ops[op.operationId] == op
    ensures e.Swap? ==> Effect(s.d, e).op.operationId == e.id && Effect(s.d, e).op.state == e.next
    ensures e.Ack? ==> Effect(s.d, e).op.operationId == e.id && AfterAcknowledgement(Effect(s.d, e).op.state)
    ensures e.Create? ==> SameOperation(Effect(s.d, e).op, e.h)
  {
    hide OperationInv, RowsInv, OneActiveOperation, ActivePointerInv, HostInv, MayIssue;
    hide IsAllowedTransition, IsExactAcknowledgement;
    if e.Create? {
      if e.key in s.d.byKey {
        assert s.d.ops[s.d.byKey[e.key]].operationId == s.d.byKey[e.key];
      }
    } else {
      var id := if e.Store? then e.h.operationId else e.id;
      assert s.d.ops[id].operationId == id;
    }
  }

  /** A session found under an operation's key was created for that operation. */
  lemma BindingOf(s: Shared, op: Operation, h: HostSession)
    requires Inv(s) && IsVersion(op, s.d) && h in s.host && h.key == op.key
    ensures h.operationId == op.operationId && h.predecessor == op.predecessor
  {
  }

  /** The session is the recorded successor of the operation, as the host made it. */
  ghost predicate IsSuccessor(s: Shared, session: HostSession, id: OperationId) {
    && session in s.host && session.operationId == id && id in s.d.ops
    && s.d.ops[id].successor == Some(session.id)
    && session.key == s.d.ops[id].key && session.predecessor == s.d.ops[id].predecessor
  }

  lemma SuccessorLasts(s: Shared, t: Shared, session: HostSession, id: OperationId)
    requires Evolves(s, t) && IsSuccessor(s, session, id)
    ensures IsSuccessor(t, session, id)
  {
    assert Continues(s.d.ops[id], t.d.ops[id]);
  }

  /** A session found for the operation is its successor once a version of the operation says so. */
  lemma NamedSuccessor(s: Shared, session: HostSession, op: Operation)
    requires session in s.host && session.operationId == op.operationId && session.key == op.key
    requires session.predecessor == op.predecessor && IsVersion(op, s.d) && op.successor == Some(session.id)
    ensures IsSuccessor(s, session, op.operationId)
  {
  }

  /** The versions of one operation agree on what is never rewritten. */
  lemma VersionsAgree(a: Operation, b: Operation, d: Durable)
    requires IsVersion(a, d) && IsVersion(b, d) && a.operationId == b.operationId
    ensures a.key == b.key && a.predecessor == b.predecessor && a.handoffId == b.handoffId && a.adapterId == b.adapterId
    ensures a.successor.Some? && b.successor.Some? ==> a.successor == b.successor
  {
  }

  /** A committed acknowledgement names the durable document, which a version of the operation was given. */
  lemma ExactlyAnswered(s: Shared, op: Operation, h: Handoff, ack: Acknowledgement)
    requires Inv(s) && IsVersion(op, s.d) && Effect(s.d, Ack(op.operationId, ack)).Committed?
    requires op.handoffId in s.d.rows && op.successor.Some? && h.successor == op.successor
    requires s.d.rows[op.handoffId].document.(successor := h.successor) == h
    ensures ack == Acknowledgement(op.handoffId, op.successor.value, op.adapterId, h)
  {
    var durable := s.d.ops[op.operationId];
    assert durable.handoffId == op.handoffId && durable.successor == op.successor;
    assert IsExactAcknowledgement(durable, s.d.rows[op.handoffId].document, ack);
  }

  lemma StaysDurable(s: Shared, t: Shared, h: HandoffId)
    requires Evolves(s, t) && h in s.d.rows
    ensures h in t.d.rows && t.d.rows[h].document == s.d.rows[h].document.(successor := t.d.rows[h].document.successor)
  {
    assert HandoffContinues(s.d, t.d, h);
  }

  lemma HostOnlyGrows(s: Shared, t: Shared)
    requires Evolves(s, t)
    ensures s.host <= t.host
  {
  }

  lemma SwapRecords(d: Durable, e: Event)
    requires e.Swap? && e.supplied.Some? && Effect(d, e).Committed?
    ensures Effect(d, e).op.successor == e.supplied
  {
  }

  /** The operation a transaction is about. */
  function Target(e: Event): OperationId
    requires !e.HostCreate?
  {
    match e
    case Create(h, _) => h.operationId
    case Store(h) => h.operationId
    case Swap(id, _, _, _) => id
    case Ack(id, _) => id
    case Retry(id, _, _) => id
  }

  /** The other operations of the project. */
  function Rest(d: Durable, id: OperationId): map<OperationId, Operation> {
    d.ops - {id}
  }

  lemma OthersStay(d: Durable, e: Event)
    requires !e.HostCreate? && Effect(d, e).Committed?
    ensures Rest(Effect(d, e).d, Target(e)) == Rest(d, Target(e))
    ensures e.Store? ==> Effect(d, e).d.ops == d.ops
  {
  }

  predicate Done(d: Durable, id: OperationId) {
    id in d.ops && d.ops[id].state == Completed
  }

  /** A completion that nobody else's came between moves the active-session pointer to this successor. */
  lemma PointerIsSuccessor(s: Shared, t: Shared, id: OperationId)
    requires Evolves(s, t) && Rest(t.d, id) == Rest(s.d, id) && Done(t.d, id) && !Done(s.d, id)
    ensures t.d.active.Some? && t.d.active == t.d.ops[id].successor
  {
    assert Completes(s.d, t.d, id);
    assert CompletesSome(s.d, t.d);
    var x :| Completes(s.d, t.d, x) && t.d.active.Some? && t.d.active == t.d.ops[x].successor;
    assert forall y | y in t.d.ops && y != id :: y in Rest(t.d, id);
    assert forall y | y in Rest(t.d, id) :: y in Rest(s.d, id) && Rest(s.d, id)[y] == t.d.ops[y];
  }

  lemma TransactionStep(s: Shared, e: Event, honest: bool)
    requires !e.HostCreate? && MayIssue(s, e)
    ensures Step(s, e, if Effect(s.d, e).Committed? then s.(d := Effect(s.d, e).d) else s, honest)
    ensures Effect(s.d, e).Failed? ==> Effect(s.d, e).error != StepLimit && Effect(s.d, e).error != Fault
  {
  }

  class Coordinator {
    var shared: Shared
    var clock: int
    const caps: Capabilities
    const adapterId: AdapterId
    /** No call of this coordinator is lost or answered by a fault. */
    const reliable: bool
    /** No other coordinator acts while this one runs. */
    ghost const quiet: bool

    /** A host that declares idempotency honours it. */
    ghost predicate Valid()
      reads this
    {
      Inv(shared) && (caps.idempotency ==> OneSessionPerKey(shared))
    }

    constructor (initial: Shared, clock: int, caps: Capabilities, adapterId: AdapterId, reliable: bool, ghost quiet: bool)
      requires Inv(initial) && (caps.idempotency ==> OneSessionPerKey(initial))
      ensures Valid() && shared == initial
    {
      this.shared, this.clock, this.caps, this.adapterId := initial, clock, caps, adapterId;
      this.reliable, this.quiet := reliable, quiet;
    }

    // ----- The environment -----

    /** Time passes and other coordinators act, any number of times. */
    method Interfere()
      requires Valid()
      modifies this
      ensures Reaches(old(shared), shared, caps.idempotency) && clock >= old(clock)
      ensures quiet ==> shared == old(shared)
    {
      ghost var states: seq<Shared>, events: seq<Event> := [shared], [];
      assert IsRun(states, events, caps.idempotency);
      var elapsed := *;
      clock := clock + if elapsed > 0 then elapsed else 0;
    }

    method Yield()
      requires Valid()
      modifies this
      ensures Valid() && Evolves(old(shared), shared) && clock >= old(clock)
      ensures quiet ==> shared == old(shared)
    {
      Interfere();
      ReachesKeepsInv(old(shared), shared, caps.idempotency);
    }

    method Faulty() returns (lost: bool)
      ensures reliable ==> !lost
    {
      lost := *;
      lost := lost && !reliable;
    }

    /** The transaction itself, atomically. */
    method Commit(e: Event) returns (effect: Outcome)
      requires Valid() && !e.HostCreate? && MayIssue(shared, e)
      modifies this
      ensures Valid() && Step(old(shared), e, shared, caps.idempotency) && Evolves(old(shared), shared)
      ensures clock == old(clock) && effect == Effect(old(shared).d, e) && shared.host == old(shared).host
      ensures match effect
              case Failed(error) => shared == old(shared) && error != StepLimit
              case Committed(d, op) =>
                && shared.d == d && IsVersion(op, d) && op.operationId in d.ops && d.ops[op.operationId] == op
                && (e.Swap? ==> op.operationId == e.id && op.state == e.next)
                && (e.Ack? ==> op.operationId == e.id && AfterAcknowledgement(op.state))
                && (e.Create? ==> SameOperation(op, e.h))
                && Rest(d, Target(e)) == Rest(old(shared).d, Target(e)) && (e.Store? ==> d.ops == old(shared).d.ops)
    {
      hide Inv, Evolves, Effect, Step, OneSessionPerKey, MayIssue, IsVersion, Rest, Target;
      ghost var before := shared;
      effect := Effect(shared.d, e);
      if effect.Committed? {
        OthersStay(shared.d, e);
      }
      TransactionStep(before, e, caps.idempotency);
      if effect.Committed? {
        shared := shared.(d := effect.d);
        AnswerIsDurable(before, e, shared, caps.idempotency);
      }
      StepKeepsInv(before, e, shared, caps.idempotency);
      if effect.Committed? {
        DurableIsVersion(shared, effect.op.operationId);
      }
    }

    /** One repository transaction, then the environment's turn. It may be lost before or after
        it takes effect; the caller then only sees a fault. */
    method Transact(e: Event) returns (r: Result<Operation>)
      requires Valid() && !e.HostCreate? && MayIssue(shared, e)
      modifies this
      ensures Valid() && Evolves(old(shared), shared) && clock >= old(clock)
      ensures r.Success? ==> && Effect(old(shared).d, e).Committed? && r.value == Effect(old(shared).d, e).op
                             && IsVersion(r.value, shared.d)
      ensures r.Success? && e.Swap? ==> r.value.operationId == e.id && r.value.state == e.next
      ensures r.Success? && e.Ack? ==> r.value.operationId == e.id && AfterAcknowledgement(r.value.state)
      ensures r.Success? && e.Create? ==> SameOperation(r.value, e.h)
      ensures quiet && r.Success? ==>
                r.value.operationId in shared.d.ops && shared.d.ops[r.value.operationId] == r.value
      ensures quiet && reliable ==>
                && shared.host == old(shared).host
                && (match Effect(old(shared).d, e)
                    case Committed(d, op) =>
                      shared.d == d && r == Success(op) && op.operationId in d.ops && d.ops[op.operationId] == op
                    case Failed(error) => shared == old(shared) && r == Failure(error))
      ensures r.Failure? ==> r.error != StepLimit
      ensures quiet ==> Rest(shared.d, Target(e)) == old(Rest(shared.d, Target(e)))
      ensures quiet && e.Store? ==> shared.d.ops == old(shared).d.ops
    {
      hide Inv, Evolves, Effect, Step, OneSessionPerKey, MayIssue, IsVersion, Rest, Target;
      var lostBefore := Faulty();
      if lostBefore {
        Yield();
        return Failure(Fault);
      }
      ghost var before := shared;
      var effect := Commit(e);
      ghost var after := shared;
      Yield();
      EvolvesTransitive(before, after, shared);
      if effect.Failed? {
        return Failure(effect.error);
      }
      VersionsLast(effect.op, after, shared);
      var lostAfter := Faulty();
      if lostAfter {
        return Failure(Fault);
      }
      return Success(effect.op);
    }

    // ----- The session host -----

    method QuerySession(key: Key) returns (r: Result<Option<HostSession>>)
      requires Valid()
      ensures r.Success? && r.value.Some? ==> r.value.value in shared.host && r.value.value.key == key
      ensures r.Success? && r.value.None? ==> forall h | h in shared.host :: h.key != key
      ensures reliable ==> r.Success?
      ensures r.Failure? ==> r.error == Fault
    {
      var lost := Faulty();
      if lost {
        return Failure(Fault);
      }
      if h :| h in shared.host && h.key == key {
        return Success(Some(h));
      }
      return Success(None);
    }

    /** A host that honours the key answers with the session it has; any other host makes one. */
    method CreateSession(op: Operation) returns (r: Result<HostSession>)
      requires Valid() && IsVersion(op, shared.d) && Reached(op)
      modifies this
      ensures Valid() && Evolves(old(shared), shared) && shared.d == old(shared).d && clock == old(clock)
      ensures r.Success? ==> r.value in shared.host && r.value.key == op.key
      ensures reliable ==> r.Success?
      ensures r.Failure? ==> r.error == Fault
      ensures caps.idempotency && (exists h | h in old(shared).host :: h.key == op.key) ==> shared == old(shared)
    {
      hide Inv, Evolves, OneSessionPerKey;
      var lost := Faulty();
      if lost {
        EvolvesReflexive(shared);
        return Failure(Fault);
      }
      if caps.idempotency {
        if h :| h in shared.host && h.key == op.key {
          EvolvesReflexive(shared);
          return Success(h);
        }
      }
      var id: nat := *;
      var session := HostSession(id, op.operationId, op.predecessor, op.key);
      ghost var before := shared;
      shared := shared.(host := shared.host + {session});
      StepKeepsInv(before, HostCreate(session), shared, caps.idempotency);
      return Success(session);
    }

    /** reconcileSession: find the operation's session by its key, or create it. */
    method ReconcileSession(op: Operation) returns (r: Result<HostSession>)
      requires Valid() && IsVersion(op, shared.d) && Reached(op)
      modifies this
      ensures Valid() && Evolves(old(shared), shared) && clock >= old(clock) && IsVersion(op, shared.d)
      ensures r.Success? ==> && r.value in shared.host && r.value.operationId == op.operationId
                             && r.value.predecessor == op.predecessor && r.value.key == op.key
      ensures quiet ==> shared.d == old(shared).d
      ensures quiet && (caps.query || caps.idempotency) && (exists h | h in old(shared).host :: h.key == op.key) ==>
                shared == old(shared)
      ensures quiet && reliable && HostCanReconcile(caps) ==> r.Success?
      ensures r.Failure? ==> r.error == Fault || r.error == CapabilityUnavailable
    {
      hide Inv, Evolves, OneSessionPerKey, IsVersion;
      ghost var start := shared;
      EvolvesReflexive(start);
      var session: Option<HostSession> := None;
      if caps.query {
        var queried := QuerySession(op.key);
        if queried.Failure? {
          return Failure(queried.error);
        }
        session := queried.value;
        ghost var asked := shared;
        if session.Some? {
          BindingOf(shared, op, session.value);
        }
        Yield();
        VersionsLast(op, asked, shared);
        HostOnlyGrows(asked, shared);
      }
      if session.None? {
        if !caps.create {
          return Failure(CapabilityUnavailable);
        }
        if !caps.query && !caps.idempotency {
          return Failure(CapabilityUnavailable);
        }
        ghost var asked := shared;
        var created := CreateSession(op);
        EvolvesTransitive(start, asked, shared);
        ghost var made := shared;
        if created.Success? {
          VersionsLast(op, asked, made);
          BindingOf(made, op, created.value);
        }
        Yield();
        EvolvesTransitive(start, made, shared);
        VersionsLast(op, asked, made);
        VersionsLast(op, made, shared);
        HostOnlyGrows(made, shared);
        if created.Failure? {
          return Failure(created.error);
        }
        return created;
      }
      return Success(session.value);
    }

    /** The session is sent the handoff, unless the call is lost. */
    method Bootstrap(session: HostSession, h: Handoff) returns (lost: bool, ghost sent: Option<(HostSession, Handoff)>)
      ensures reliable ==> !lost
      ensures sent == if lost then None else Some((session, h))
    {
      lost := Faulty();
      sent := if lost then None else Some((session, h));
    }

    /** The acknowledgement is whatever the host says; a reliable host binds the exact document. */
    method AwaitAcknowledgement(session: HostSession, h: Handoff) returns (r: Result<Acknowledgement>)
      ensures reliable ==> r == Success(Acknowledgement(h.handoffId, session.id, adapterId, h))
      ensures r.Failure? ==> r.error == Fault
    {
      var lost := Faulty();
      if lost {
        return Failure(Fault);
      }
      if reliable {
        return Success(Acknowledgement(h.handoffId, session.id, adapterId, h));
      }
      var ack: Acknowledgement := *;
      return Success(ack);
    }

    /** A durable handoff, but for the successor it may have received since. */
    ghost predicate IsDurable(h: Handoff)
      reads this
    {
      && h.handoffId in shared.d.rows
      && var document := shared.d.rows[h.handoffId].document;
         document.(successor := h.successor) == h
    }

    /** Repository reads, then the environment's turn. */
    method ReadHandoff(op: Operation) returns (r: Result<Option<Handoff>>)
      requires Valid() && IsVersion(op, shared.d)
      modifies this
      ensures Valid() && Evolves(old(shared), shared) && clock >= old(clock) && IsVersion(op, shared.d)
      ensures quiet ==> shared == old(shared)
      ensures r.Success? ==> r.value.Some? && SameOperation(op, r.value.value) && IsDurable(r.value.value)
                             && r.value == Some(old(shared).d.rows[op.handoffId].document)
      ensures reliable ==> r.Success?
      ensures r.Failure? ==> r.error == Fault
    {
      hide Inv, Evolves, OneSessionPerKey;
      ghost var start := shared;
      DurableIsVersion(shared, op.operationId);
      var found := if op.handoffId in shared.d.rows then Some(shared.d.rows[op.handoffId].document) else None;
      var lost := Faulty();
      Yield();
      StaysDurable(start, shared, op.handoffId);
      hide IsVersion;
      VersionsLast(op, start, shared);
      if lost {
        return Failure(Fault);
      }
      return Success(found);
    }

    // ----- Checkpoint -----

    /** The operation is the current durable row, bound to handoff `h`. */
    ghost predicate Holds(op: Operation, h: Handoff)
      reads this
    {
      && op.operationId in shared.d.ops && shared.d.ops[op.operationId] == op
      && SameOperation(op, h) && op.handoffId in shared.d.rows && shared.d.rows[op.handoffId].document == h
    }

    /** The operation of `key` stands before its checkpoint and `h` is its durable handoff. */
    ghost predicate AtCheckpoint(h: Handoff, key: Key)
      reads this
    {
      && h.operationId in shared.d.ops
      && var op := shared.d.ops[h.operationId];
         Holds(op, h) && op.key == key && op.state in {Idle, CheckpointPreparing} && op.attempt + 2 < MAX_TRANSITIONS
    }

    /** The project has nothing unfinished, and neither the key nor the identities are taken. */
    ghost predicate CanStart(h: Handoff, key: Key)
      reads this
    {
      && key !in shared.d.byKey && h.operationId !in shared.d.ops && h.handoffId !in shared.d.rows
      && forall id | id in shared.d.ops :: IsTerminal(shared.d.ops[id].state)
    }

    lemma CreateStarts(h: Handoff, key: Key)
      requires CanStart(h, key)
      ensures var effect := Effect(shared.d, Create(h, key));
              && effect.Committed? && effect.op == Fresh(h, key) && effect.op.state == Idle && effect.op.attempt == 0
              && h.operationId in effect.d.ops && effect.d.ops[h.operationId] == effect.op && SameOperation(effect.op, h)
              && h.handoffId in effect.d.rows && effect.d.rows[h.handoffId].document == h
    {
    }

    lemma CreateFinds(op: Operation, h: Handoff)
      requires Valid() && Holds(op, h)
      ensures Effect(shared.d, Create(h, op.key)) == Committed(shared.d, op)
    {
      assert op.key in shared.d.byKey;
    }

    lemma StoreFinds(op: Operation, h: Handoff)
      requires Valid() && Holds(op, h) && op.state in {Idle, CheckpointPreparing}
      ensures Effect(shared.d, Store(h)) == Committed(shared.d, op)
    {
    }

    static lemma EdgeCommits(d: Durable, op: Operation, next: State, supplied: Option<SessionId>)
      requires op.operationId in d.ops && d.ops[op.operationId] == op && OperationInv(d, op)
      requires op.attempt + 1 < MAX_TRANSITIONS && IsCoordinatorEdge(op.state, next) && next !in {SuccessorCreated, Cancelling}
      requires op.state == RetryWait ==> op.retryResumeState == Some(next)
      requires supplied.Some? ==> supplied == op.successor
      ensures var op' := op.(state := next, attempt := op.attempt + 1, retryAt := None, retryResumeState := None);
              var effect := Effect(d, Swap(op.operationId, op.state, next, supplied));
              effect.Committed? && effect.op == op' && effect.d.ops == d.ops[op.operationId := op'] && effect.d.rows == d.rows
    {
    }

    /** The coordinator's compare-and-sets that need no successor commit when nobody interferes. */
    lemma SwapCommits(op: Operation, h: Handoff, next: State, supplied: Option<SessionId>)
      requires Valid() && Holds(op, h) && op.attempt + 1 < MAX_TRANSITIONS
      requires IsCoordinatorEdge(op.state, next) && next !in {SuccessorCreated, Cancelling}
      requires op.state == RetryWait ==> op.retryResumeState == Some(next)
      requires supplied.Some? ==> supplied == op.successor
      ensures var op' := op.(state := next, attempt := op.attempt + 1, retryAt := None, retryResumeState := None);
              var effect := Effect(shared.d, Swap(op.operationId, op.state, next, supplied));
              effect.Committed? && effect.op == op' && effect.d.ops == shared.d.ops[op.operationId := op']
              && effect.d.rows == shared.d.rows
    {
      hide RowsInv, KeysInv, OneActiveOperation, ActivePointerInv, HostInv, OneSessionPerKey, Effect;
      assert OperationInv(shared.d, op);
      EdgeCommits(shared.d, op, next, supplied);
    }

    method ResumeCheckpoint(operation: Operation) returns (r: Result<Operation>)
      requires Valid() && IsVersion(operation, shared.d) && operation.state == RetryWait
      modifies this
      ensures Valid() && Evolves(old(shared), shared) && clock >= old(clock)
      ensures quiet ==> Rest(shared.d, operation.operationId) == old(Rest(shared.d, operation.operationId))
      ensures r.Success? ==> IsVersion(r.value, shared.d) && r.value.state == CheckpointPreparing
                             && r.value.operationId == operation.operationId
      ensures r.Failure? ==> r.error != StepLimit
    {
      hide Rest, Inv, Evolves, OneSessionPerKey, Effect;
      if operation.retryResumeState != Some(CheckpointPreparing) || operation.retryAt.None?
         || operation.retryAt.value > clock {
        EvolvesReflexive(shared);
        return Failure(Busy);
      }
      r := Transact(Swap(operation.operationId, RetryWait, CheckpointPreparing, None));
    }

    method RecordCheckpointIntent(h: Handoff, operation: Operation) returns (r: Result<Operation>)
      requires Valid() && IsVersion(operation, shared.d) && operation.state == Idle
      modifies this
      ensures Valid() && Evolves(old(shared), shared) && clock >= old(clock)
      ensures quiet ==> Rest(shared.d, operation.operationId) == old(Rest(shared.d, operation.operationId))
      ensures r.Success? ==> IsVersion(r.value, shared.d) && r.value.state == CheckpointPreparing
                             && r.value.operationId == operation.operationId
      ensures r.Failure? ==> r.error != StepLimit
      ensures quiet && reliable && old(Holds(operation, h)) && operation.attempt + 1 < MAX_TRANSITIONS ==>
                r == Success(operation.(state := CheckpointPreparing, attempt := operation.attempt + 1,
                                        retryAt := None, retryResumeState := None))
                && shared.d.ops == old(shared).d.ops[operation.operationId := r.value]
                && shared.d.rows == old(shared).d.rows && shared.host == old(shared).host
    {
      hide Inv, Evolves, OneSessionPerKey, Effect;
      ghost var start := shared;
      if Holds(operation, h) {
        StoreFinds(operation, h);
      }
      var stored := Transact(Store(h));
      ghost var now := shared;
      if stored.Failure? {
        return Failure(stored.error);
      }
      if quiet && reliable && old(Holds(operation, h)) && operation.attempt + 1 < MAX_TRANSITIONS {
        SwapCommits(operation, h, CheckpointPreparing, None);
      }
      r := Transact(Swap(operation.operationId, Idle, CheckpointPreparing, None));
      EvolvesTransitive(start, now, shared);
    }

    method PersistCheckpoint(h: Handoff, operation: Operation) returns (r: Result<Operation>)
      requires Valid() && IsVersion(operation, shared.d) && operation.state == CheckpointPreparing
      modifies this
      ensures Valid() && Evolves(old(shared), shared) && clock >= old(clock)
      ensures quiet ==> Rest(shared.d, operation.operationId) == old(Rest(shared.d, operation.operationId))
      ensures r.Success? ==> IsVersion(r.value, shared.d) && r.value.state == CheckpointPersisted
                             && r.value.operationId == operation.operationId
      ensures r.Failure? ==> r.error != StepLimit
      ensures quiet && reliable && old(Holds(operation, h)) && operation.attempt + 1 < MAX_TRANSITIONS ==>
                r == Success(operation.(state := CheckpointPersisted, attempt := operation.attempt + 1,
                                        retryAt := None, retryResumeState := None))
                && shared.d.ops == old(shared).d.ops[operation.operationId := r.value]
                && shared.d.rows == old(shared).d.rows && shared.host == old(shared).host
    {
      hide Inv, Evolves, OneSessionPerKey, Effect;
      ghost var start := shared;
      if Holds(operation, h) {
        StoreFinds(operation, h);
      }
      var stored := Transact(Store(h));
      ghost var now := shared;
      if stored.Failure? {
        var ignored := Transact(Retry(operation.operationId, CheckpointPreparing, clock + RETRY_DELAY));
        EvolvesTransitive(start, now, shared);
        return Failure(stored.error);
      }
      if quiet && reliable && old(Holds(operation, h)) && operation.attempt + 1 < MAX_TRANSITIONS {
        SwapCommits(operation, h, CheckpointPersisted, None);
      }
      r := Transact(Swap(operation.operationId, CheckpointPreparing, CheckpointPersisted, None));
      EvolvesTransitive(start, now, shared);
    }

    /** A version of the row that createOperation returned is bound to the requested handoff. */
    lemma SameIdSameBinding(a: Operation, b: Operation, h: Handoff, d: Durable)
      requires IsVersion(a, d) && IsVersion(b, d) && a.operationId == b.operationId && SameOperation(a, h)
      ensures SameOperation(b, h)
    {
    }

    /** checkpoint: whatever the row's state, it comes back past preparation, out of retry wait and
        bound to a durable handoff; undisturbed, a fresh operation becomes CheckpointPersisted. */
    method Checkpoint(h: Handoff, key: Key) returns (r: Result<CheckpointOutcome>)
      requires Valid()
      modifies this
      ensures Valid() && Evolves(old(shared), shared) && clock >= old(clock)
      ensures quiet ==> Rest(shared.d, h.operationId) == old(Rest(shared.d, h.operationId))
      ensures r.Success? ==>
                && IsVersion(r.value.op, shared.d) && SameOperation(r.value.op, h)
                && r.value.op.state !in {Idle, CheckpointPreparing, RetryWait}
                && SameOperation(r.value.op, r.value.handoff) && IsDurable(r.value.handoff)
      ensures r.Failure? ==> r.error != StepLimit
      ensures quiet && reliable && old(AtCheckpoint(h, key)) ==>
                && r.Success? && r.value.op.state == CheckpointPersisted && r.value.handoff == h
                && r.value.op.attempt + Rank(old(shared).d.ops[h.operationId].state)
                   <= old(shared).d.ops[h.operationId].attempt + Rank(r.value.op.state)
                && r.value.op == old(shared).d.ops[h.operationId].(
                     state := CheckpointPersisted, attempt := r.value.op.attempt, retryAt := None, retryResumeState := None)
                && shared.d.ops == old(shared).d.ops[h.operationId := r.value.op]
                && shared.d.rows == old(shared).d.rows && shared.host == old(shared).host
      // A new handoff of a project with nothing unfinished is made durable as it is.
      ensures quiet && reliable && old(CanStart(h, key)) ==>
                && r.Success? && r.value.op.state == CheckpointPersisted && r.value.op.key == key && r.value.handoff == h
    {
      hide Rest, Inv, Evolves, OneSessionPerKey, Effect, IsVersion;
      ghost var start := shared;
      if AtCheckpoint(h, key) {
        CreateFinds(shared.d.ops[h.operationId], h);
      }
      if CanStart(h, key) {
        CreateStarts(h, key);
      }
      var created := Transact(Create(h, key));
      if created.Failure? {
        return Failure(created.error);
      }
      var operation := created.value;
      ghost var first := operation;
      ghost var now := shared;
      if operation.state == RetryWait {
        var resumed := ResumeCheckpoint(operation);
        EvolvesTransitive(start, now, shared);
        VersionsLast(first, now, shared);
        now := shared;
        if resumed.Failure? {
          return Failure(resumed.error);
        }
        operation := resumed.value;
      }
      if operation.state == Idle {
        var intent := RecordCheckpointIntent(h, operation);
        EvolvesTransitive(start, now, shared);
        VersionsLast(first, now, shared);
        now := shared;
        if intent.Failure? {
          return Failure(intent.error);
        }
        operation := intent.value;
      }
      if operation.state == CheckpointPreparing {
        var persisted := PersistCheckpoint(h, operation);
        EvolvesTransitive(start, now, shared);
        VersionsLast(first, now, shared);
        now := shared;
        if persisted.Failure? {
          return Failure(persisted.error);
        }
        operation := persisted.value;
      }
      SameIdSameBinding(first, operation, h, shared.d);
      var durable := ReadHandoff(operation);
      EvolvesTransitive(start, now, shared);
      if durable.Failure? {
        return Failure(durable.error);
      }
      // A checkpointed operation always has its handoff: the integrity failure is dead.
      assert durable.value.Some?;
      return Success(CheckpointOutcome(operation, durable.value.value));
    }

    // ----- Rollover -----

    /** Nothing stands between the operation and its completion: it is the current row, of this
        host's adapter, due if it waits, and with enough transitions left. */
    ghost predicate Unobstructed(op: Operation)
      reads this
    {
      && quiet && reliable && caps.idempotency && HostCanReconcile(caps)
      && op.operationId in shared.d.ops && shared.d.ops[op.operationId] == op
      && op.adapterId == adapterId
      && op.attempt + 14 <= MAX_TRANSITIONS + Rank(op.state)
      && (op.state == RetryWait ==> op.retryAt.Some? && op.retryAt.value <= clock)
    }

    /** What every advance of the rollover loop ensures: it fails, or returns a durable version of
        the same operation at a strictly higher rank; undisturbed, it does not fail. */
    ghost predicate Advances(op: Operation, r: Result<Operation>, unobstructed: bool)
      reads this
    {
      && (r.Success? ==> IsVersion(r.value, shared.d) && r.value.operationId == op.operationId
                         && Rank(op.state) < Rank(r.value.state))
      && (r.Failure? ==> r.error != StepLimit)
      && (unobstructed ==> r.Success? && Unobstructed(r.value) && InOrder(op, r.value))
    }

    /** A cancellation is finished and nothing else is cancelled; and an acknowledgement comes only from
        sending the handoff. */
    static predicate InOrder(op: Operation, op': Operation) {
      && (op'.state in {Cancelling, Cancelled} <==> op.state in {Cancelling, Cancelled})
      && (AfterAcknowledgement(Phase(op')) ==> AfterAcknowledgement(Phase(op)) || op.state == BootstrapSending)
    }

    lemma UnobstructedHolds(op: Operation)
      requires Valid() && Unobstructed(op)
      ensures op.handoffId in shared.d.rows && Holds(op, shared.d.rows[op.handoffId].document)
      ensures op.state == RetryWait ==> op.retryAt.Some? && op.retryAt.value <= clock
      ensures op.state != FailedRecoverable
    {
      assert OperationInv(shared.d, op);
    }

    lemma SuccessorCommits(op: Operation, session: HostSession)
      requires Valid() && Unobstructed(op) && op.state == SuccessorCreating
      ensures var op' := op.(state := SuccessorCreated, attempt := op.attempt + 1, successor := Some(session.id),
                             retryAt := None, retryResumeState := None);
              var effect := Effect(shared.d, Swap(op.operationId, SuccessorCreating, SuccessorCreated, Some(session.id)));
              effect.Committed? && effect.op == op' && effect.d.ops == shared.d.ops[op.operationId := op']
    {
      assert OperationInv(shared.d, op);
    }

    /** The session an idempotent host answers with is the recorded successor, and the exact
        acknowledgement of its handoff commits. */
    lemma AckCommits(op: Operation, session: HostSession)
      requires Valid() && Unobstructed(op) && op.state == BootstrapSending
      requires session in shared.host && session.key == op.key
      ensures op.handoffId in shared.d.rows
      ensures var h := shared.d.rows[op.handoffId].document;
              && op.successor == Some(session.id) && h.successor == op.successor
              && var op' := op.(state := Acknowledged, attempt := op.attempt + 1, retryAt := None, retryResumeState := None,
                                acknowledgedSession := Some(session.id), acknowledgedHandoff := Some(op.handoffId));
                 var effect := Effect(shared.d, Ack(op.operationId, Acknowledgement(h.handoffId, session.id, adapterId, h)));
                 effect.Committed? && effect.op == op' && effect.d.ops == shared.d.ops[op.operationId := op']
    {
      assert OperationInv(shared.d, op);
      assert HostCreated(shared.host, op.successor.value, op.operationId);
      var g :| g in shared.host && g.id == op.successor.value && g.operationId == op.operationId;
      assert g.key == op.key;
    }

    /** The failure of `op` can be noted: it is durable as it is, and two transitions are left. */
    ghost predicate CanNote(op: Operation)
      reads this
    {
      && op.operationId in shared.d.ops && shared.d.ops[op.operationId] == op
      && IsRetryResumeState(op.state) && op.attempt <= MAX_TRANSITIONS - 3
    }

    lemma NotingCommits(op: Operation, at: int)
      requires Valid() && CanNote(op)
      ensures var op' := op.(state := RetryWait, attempt := op.attempt + 2, retryAt := Some(at),
                             retryResumeState := Some(op.state));
              var effect := Effect(shared.d, Retry(op.operationId, op.state, at));
              effect.Committed? && effect.op == op' && effect.d.ops == shared.d.ops[op.operationId := op']
    {
      assert OperationInv(shared.d, op);
    }

    /** A failure is noted for retry when the state allows it and the call has time left; undisturbed,
        the operation then waits to resume exactly the state it failed in. */
    method RecordRetryBestEffort(op: Operation) returns (ghost expired: bool)
      requires Valid()
      modifies this
      ensures Valid() && Evolves(old(shared), shared) && clock >= old(clock)
      ensures quiet ==> Rest(shared.d, op.operationId) == old(Rest(shared.d, op.operationId))
      ensures quiet && reliable && !expired && old(CanNote(op)) ==>
                && op.operationId in shared.d.ops
                && shared.d.ops[op.operationId] ==
                   op.(state := RetryWait, attempt := op.attempt + 2, retryAt := Some(old(clock) + RETRY_DELAY),
                       retryResumeState := Some(op.state))
      ensures quiet && (expired || !IsRetryResumeState(op.state)) ==> shared == old(shared)
    {
      hide Rest, Inv, Evolves, OneSessionPerKey, Effect, IsVersion;
      EvolvesReflexive(shared);
      var late: bool := *;
      expired := late;
      if CanNote(op) {
        NotingCommits(op, clock + RETRY_DELAY);
      }
      if !IsRetryResumeState(op.state) || late {
        return;
      }
      var ignored := Transact(Retry(op.operationId, op.state, clock + RETRY_DELAY));
    }

    /** One compare-and-set of the rollover loop. */
    method Move(operation: Operation, next: State) returns (r: Result<Operation>)
      requires Valid() && IsVersion(operation, shared.d)
      requires IsCoordinatorEdge(operation.state, next) && next !in {SuccessorCreated, Cancelling}
      requires Rank(operation.state) < Rank(next)
      requires operation.state == RetryWait ==> operation.retryResumeState == Some(next)
      modifies this
      ensures Valid() && Evolves(old(shared), shared) && clock >= old(clock)
      ensures quiet ==> Rest(shared.d, operation.operationId) == old(Rest(shared.d, operation.operationId))
      ensures Advances(operation, r, old(Unobstructed(operation)))
      ensures r.Success? ==> r.value.state == next
    {
      // The coordinator repeats its snapshot's successor, except where none can exist yet.
      var supplied := if operation.state == CheckpointPersisted then None else operation.successor;
      hide Rest, Inv, Evolves, OneSessionPerKey, Effect, IsVersion, Holds;
      if Unobstructed(operation) {
        UnobstructedHolds(operation);
        SwapCommits(operation, shared.d.rows[operation.handoffId].document, next, supplied);
      }
      SuppliedIsDurable(operation, shared.d);
      r := Transact(Swap(operation.operationId, operation.state, next, supplied));
    }

    lemma SuppliedIsDurable(op: Operation, d: Durable)
      requires IsVersion(op, d)
      ensures op.operationId in d.ops && (op.successor.Some? ==> d.ops[op.operationId].successor == op.successor)
    {
    }

    lemma UnobstructedAtCheckpoint(op: Operation)
      requires Valid() && Unobstructed(op) && op.state in {Idle, CheckpointPreparing}
      ensures op.handoffId in shared.d.rows
      ensures shared.d.rows[op.handoffId].document.operationId == op.operationId
      ensures AtCheckpoint(shared.d.rows[op.handoffId].document, op.key)
    {
      UnobstructedHolds(op);
    }

    /** Idle or CheckpointPreparing: the checkpoint of the durable handoff is run first. */
    method PrepareCheckpoint(operation: Operation) returns (r: Result<Operation>)
      requires Valid() && IsVersion(operation, shared.d) && operation.state in {Idle, CheckpointPreparing}
      modifies this
      ensures Valid() && Evolves(old(shared), shared) && clock >= old(clock)
      ensures quiet ==> Rest(shared.d, operation.operationId) == old(Rest(shared.d, operation.operationId))
      ensures Advances(operation, r, old(Unobstructed(operation)))
    {
      hide Rest, Inv, Evolves, OneSessionPerKey, Effect, IsVersion;
      ghost var start := shared;
      if Unobstructed(operation) {
        UnobstructedAtCheckpoint(operation);
      }
      var durable := ReadHandoff(operation);
      ghost var now := shared;
      if durable.Failure? {
        return Failure(durable.error);
      }
      var prepared := Checkpoint(durable.value.value, operation.key);
      EvolvesTransitive(start, now, shared);
      if prepared.Failure? {
        return Failure(prepared.error);
      }
      return Success(prepared.value.op);
    }

    /** SuccessorCreating: reconcile the host session, then record it. */
    method CreateSuccessor(operation: Operation) returns (r: Result<Operation>, successor: Option<HostSession>)
      requires Valid() && IsVersion(operation, shared.d) && operation.state == SuccessorCreating
      modifies this
      ensures Valid() && Evolves(old(shared), shared) && clock >= old(clock)
      ensures quiet ==> Rest(shared.d, operation.operationId) == old(Rest(shared.d, operation.operationId))
      ensures Advances(operation, r, old(Unobstructed(operation)))
      ensures r.Success? ==> successor.Some? && r.value.successor == Some(successor.value.id)
                             && IsSuccessor(shared, successor.value, operation.operationId)
    {
      hide Rest, Inv, Evolves, OneSessionPerKey, Effect, IsVersion;
      ghost var start := shared;
      successor := None;
      var reconciled := ReconcileSession(operation);
      ghost var now := shared;
      if reconciled.Failure? {
        ghost var _ := RecordRetryBestEffort(operation);
        EvolvesTransitive(start, now, shared);
        return Failure(reconciled.error), None;
      }
      var session := reconciled.value;
      if old(Unobstructed(operation)) {
        assert Unobstructed(operation);
        SuccessorCommits(operation, session);
      }
      assert HostCreated(shared.host, session.id, operation.operationId);
      var record := Swap(operation.operationId, SuccessorCreating, SuccessorCreated, Some(session.id));
      r := Transact(record);
      VersionsLast(operation, now, shared);
      HostOnlyGrows(now, shared);
      if r.Success? {
        SwapRecords(now.d, record);
        VersionsAgree(operation, r.value, shared.d);
        NamedSuccessor(shared, session, r.value);
      }
      EvolvesTransitive(start, now, shared);
      successor := Some(session);
    }

    predicate IsBootstrapCompatible(session: HostSession, h: Handoff) {
      && session.operationId == h.operationId && session.predecessor == h.predecessor
      && h.successor == Some(session.id)
    }

    /** BootstrapSending: send the exact handoff, as `sent` shows, and record the host's exact acknowledgement,
        as `confirmed` shows. */
    method BootstrapSuccessor(operation: Operation)
      returns (r: Result<Operation>, successor: Option<HostSession>, ghost sent: Option<(HostSession, Handoff)>,
               ghost confirmed: Option<Acknowledgement>)
      requires Valid() && IsVersion(operation, shared.d) && operation.state == BootstrapSending
      modifies this
      ensures Valid() && Evolves(old(shared), shared) && clock >= old(clock)
      ensures quiet ==> Rest(shared.d, operation.operationId) == old(Rest(shared.d, operation.operationId))
      ensures Advances(operation, r, old(Unobstructed(operation)))
      ensures r.Success? ==> successor.Some? && operation.successor == Some(successor.value.id)
                             && IsSuccessor(shared, successor.value, operation.operationId)
      ensures r.Success? ==>
                && sent.Some? && sent.value.0 == successor.value && IsDurable(sent.value.1)
                && SameOperation(operation, sent.value.1) && sent.value.1.successor == operation.successor
                && confirmed == Some(Acknowledgement(operation.handoffId, successor.value.id, operation.adapterId, sent.value.1))
    {
      hide Rest, Inv, Evolves, OneSessionPerKey, Effect, IsVersion;
      ghost var start := shared;
      successor, sent, confirmed := None, None, None;
      var reconciled := ReconcileSession(operation);
      ghost var now := shared;
      if reconciled.Failure? {
        ghost var _ := RecordRetryBestEffort(operation);
        EvolvesTransitive(start, now, shared);
        return Failure(reconciled.error), None, sent, confirmed;
      }
      var session := reconciled.value;
      if old(Unobstructed(operation)) {
        AckCommits(operation, session);
      }
      if operation.successor != Some(session.id) {
        return Failure(IntegrityFailure), None, sent, confirmed;
      }
      var durable := ReadHandoff(operation);
      EvolvesTransitive(start, now, shared);
      HostOnlyGrows(now, shared);
      now := shared;
      if durable.Failure? {
        return Failure(durable.error), None, sent, confirmed;
      }
      var h := durable.value.value;
      if !IsBootstrapCompatible(session, h) {
        return Failure(IntegrityFailure), None, sent, confirmed;
      }
      var undelivered;
      undelivered, sent := Bootstrap(session, h);
      if undelivered {
        ghost var _ := RecordRetryBestEffort(operation);
        EvolvesTransitive(start, now, shared);
        return Failure(Fault), None, sent, confirmed;
      }
      var acknowledgement := AwaitAcknowledgement(session, h);
      if acknowledgement.Failure? {
        ghost var _ := RecordRetryBestEffort(operation);
        EvolvesTransitive(start, now, shared);
        return Failure(acknowledgement.error), None, sent, confirmed;
      }
      confirmed := Some(acknowledgement.value);
      r := Transact(Ack(operation.operationId, acknowledgement.value));
      successor := Some(session);
      if r.Success? {
        ExactlyAnswered(now, operation, h, acknowledgement.value);
      }
      StaysDurable(now, shared, operation.handoffId);
      VersionsLast(operation, now, shared);
      HostOnlyGrows(now, shared);
      NamedSuccessor(shared, session, operation);
      EvolvesTransitive(start, now, shared);
    }

    /** A due retry resumes exactly the state it came from. */
    method ResumeRetry(operation: Operation) returns (r: Result<Operation>)
      requires Valid() && IsVersion(operation, shared.d) && operation.state == RetryWait
      modifies this
      ensures Valid() && Evolves(old(shared), shared) && clock >= old(clock)
      ensures quiet ==> Rest(shared.d, operation.operationId) == old(Rest(shared.d, operation.operationId))
      ensures Advances(operation, r, old(Unobstructed(operation)))
    {
      // A durable retry-wait row always carries its resume state and time.
      VersionFacts(operation, shared.d);
      hide Rest, Inv, Evolves, OneSessionPerKey, Effect, IsVersion;
      if operation.retryAt.value > clock {
        EvolvesReflexive(shared);
        return Failure(Busy);
      }
      r := Move(operation, operation.retryResumeState.value);
    }

    method CompleteRollover(operation: Operation) returns (r: Result<Operation>)
      requires Valid() && IsVersion(operation, shared.d) && operation.state == PredecessorSealing
      modifies this
      ensures Valid() && Evolves(old(shared), shared) && clock >= old(clock)
      ensures quiet ==> Rest(shared.d, operation.operationId) == old(Rest(shared.d, operation.operationId))
      ensures Advances(operation, r, old(Unobstructed(operation)))
      ensures r.Success? ==> Done(shared.d, operation.operationId) && shared.d.ops[operation.operationId] == r.value
      ensures quiet && r.Success? && !Done(old(shared).d, operation.operationId) ==>
                shared.d.active.Some? && shared.d.active == r.value.successor
    {
      hide Rest, Inv, Evolves, OneSessionPerKey, Effect, IsVersion;
      ghost var start := shared;
      r := Move(operation, Completed);
      if r.Failure? {
        ghost var failed := shared;
        ghost var _ := RecordRetryBestEffort(operation);
        EvolvesTransitive(start, failed, shared);
        return;
      }
      VersionFacts(r.value, shared.d);
      if quiet && !Done(start.d, operation.operationId) {
        PointerIsSuccessor(start, shared, operation.operationId);
      }
    }

    /** Where one compare-and-set leads from the states that need nothing else. */
    function NextByMove(from: State): (next: State)
      requires from in {CheckpointPersisted, SuccessorCreated, Acknowledged, Cancelling}
      ensures IsCoordinatorEdge(from, next) && next !in {SuccessorCreated, Cancelling} && Rank(from) < Rank(next)
    {
      if from == CheckpointPersisted then SuccessorCreating
      else if from == SuccessorCreated then BootstrapSending
      else if from == Acknowledged then PredecessorSealing
      else Cancelled
    }

    /** One iteration of the rollover loop on an operation that is not finished. */
    method Advance(operation: Operation) returns (r: Result<Operation>, successor: Option<HostSession>)
      requires Valid() && IsVersion(operation, shared.d) && !IsTerminal(operation.state)
      modifies this
      ensures Valid() && Evolves(old(shared), shared) && clock >= old(clock)
      ensures quiet ==> Rest(shared.d, operation.operationId) == old(Rest(shared.d, operation.operationId))
      ensures Advances(operation, r, old(Unobstructed(operation)))
      ensures r.Success? ==> (successor.Some? <==> operation.state in {SuccessorCreating, BootstrapSending})
      ensures r.Success? && successor.Some? ==> IsSuccessor(shared, successor.value, operation.operationId)
    {
      VersionFacts(operation, shared.d);
      hide Rest, IsSuccessor, Inv, Evolves, OneSessionPerKey, Effect, IsVersion, Advances, Unobstructed, Valid;
      successor := None;
      if operation.state in {Idle, CheckpointPreparing} {
        r := PrepareCheckpoint(operation);
      } else if operation.state == SuccessorCreating {
        r, successor := CreateSuccessor(operation);
      } else if operation.state == BootstrapSending {
        ghost var sent, confirmed;
        r, successor, sent, confirmed := BootstrapSuccessor(operation);
      } else if operation.state == PredecessorSealing {
        r := CompleteRollover(operation);
      } else if operation.state == RetryWait {
        r := ResumeRetry(operation);
      } else {
        // A recoverable failure is never durable on its own: its branch is dead.
        r := Move(operation, NextByMove(operation.state));
      }
    }

    /** rollover: it never ends by exhausting its step limit, whoever else is at work; a success is terminal and
        durable, and answers with the successor's session where the call itself created or bootstrapped it;
        undisturbed, with nothing in its way, it completes, and a completion makes the successor the
        project's active session. `passed` are the states the call has advanced from. */
    method Rollover(id: OperationId) returns (r: Result<RolloverOutcome>, ghost passed: set<State>)
      requires Valid()
      modifies this
      ensures Valid() && Evolves(old(shared), shared) && clock >= old(clock)
      ensures quiet ==> Rest(shared.d, id) == old(Rest(shared.d, id))
      ensures r.Failure? ==> r.error != StepLimit
      ensures r.Success? ==>
                && id in shared.d.ops && shared.d.ops[id] == r.value.op && IsTerminal(r.value.op.state)
                && (r.value.op.state == Completed <==> r.value.acknowledged)
                && r.value.predecessorSealed == r.value.acknowledged
                && (r.value.acknowledged ==> ExactlyAcknowledged(r.value.op, r.value.op.successor))
      ensures r.Success? ==>
                && (r.value.successor.Some? <==> passed * {SuccessorCreating, BootstrapSending} != {})
                && (r.value.successor.Some? ==> IsSuccessor(shared, r.value.successor.value, id))
      ensures quiet && r.Success? && r.value.op.state == Completed && !Done(old(shared).d, id) ==>
                shared.d.active.Some? && shared.d.active == r.value.op.successor
      ensures id in old(shared).d.ops && old(Unobstructed(shared.d.ops[id])) ==>
                && r.Success?
                && (r.value.acknowledged <==> old(shared).d.ops[id].state !in {Cancelling, Cancelled})
                && (r.value.acknowledged && !AfterAcknowledgement(Phase(old(shared).d.ops[id])) ==> r.value.successor.Some?)
    {
      hide Rest, Inv, Evolves, OneSessionPerKey, Effect, IsVersion, IsSuccessor;
      passed := {};
      EvolvesReflexive(shared);
      if !HostCanReconcile(caps) {
        return Failure(CapabilityUnavailable), passed;
      }
      var unread := Faulty();
      if unread {
        return Failure(Fault), passed;
      }
      if id !in shared.d.ops {
        return Failure(NotFound), passed;
      }
      var operation := shared.d.ops[id];
      ghost var start, first := shared, operation;
      DurableIsVersion(shared, id);
      Yield();
      VersionsLast(operation, start, shared);
      ghost var unobstructed := old(Unobstructed(shared.d.ops[id]));
      assert unobstructed ==> Unobstructed(operation);
      hide Unobstructed;
      var successor: Option<HostSession> := None;
      var step := 0;
      while step < MAX_STATE_MACHINE_STEPS
        invariant Valid() && Evolves(start, shared) && clock >= old(clock)
        invariant quiet ==> Rest(shared.d, id) == old(Rest(shared.d, id))
        invariant IsVersion(operation, shared.d) && operation.operationId == id
        invariant step <= Rank(operation.state)
        invariant unobstructed ==> Unobstructed(operation)
        invariant unobstructed ==> (operation.state in {Cancelling, Cancelled} <==> first.state in {Cancelling, Cancelled})
        invariant unobstructed && AfterAcknowledgement(Phase(operation)) ==>
                    AfterAcknowledgement(Phase(first)) || BootstrapSending in passed
        invariant successor.Some? <==> SuccessorCreating in passed || BootstrapSending in passed
        invariant successor.Some? ==> IsSuccessor(shared, successor.value, id)
        decreases MAX_STATE_MACHINE_STEPS - step
      {
        VersionFacts(operation, shared.d);
        if IsTerminal(operation.state) {
          if operation.state == Completed && !Done(start.d, id) && quiet {
            PointerIsSuccessor(start, shared, id);
          }
          return Success(RolloverOutcome(operation, successor,
                                         operation.state == Completed && operation.acknowledgedSession.Some?,
                                         operation.state == Completed)), passed;
        }
        ghost var now := shared;
        var advanced, reconciled := Advance(operation);
        EvolvesTransitive(start, now, shared);
        if advanced.Failure? {
          return Failure(advanced.error), passed;
        }
        if successor.Some? {
          SuccessorLasts(now, shared, successor.value, id);
        }
        passed := passed + {operation.state};
        operation := advanced.value;
        successor := if reconciled.Some? then reconciled else successor;
        step := step + 1;
      }
      // The step limit is never reached.
      assert false;
    }

    lemma VersionFacts(op: Operation, d: Durable)
      requires IsVersion(op, d)
      ensures op.state != FailedRecoverable
      ensures op.state == RetryWait ==>
                op.retryAt.Some? && op.retryResumeState.Some? && IsRetryResumeState(op.retryResumeState.value)
      ensures IsTerminal(op.state) ==> op.operationId in d.ops && d.ops[op.operationId] == op
      ensures op.state == Completed ==> ExactlyAcknowledged(op, op.successor)
    {
    }

    // ----- Resume -----

    /** The acknowledged operation of this handoff and successor can be resumed: nothing is in its way, and the
        host can resume. */
    ghost predicate Resumable(handoffId: HandoffId, successorSession: SessionId)
      reads this
    {
      && caps.resume && handoffId in shared.d.rows
      && shared.d.rows[handoffId].document.operationId in shared.d.ops
      && var op := shared.d.ops[shared.d.rows[handoffId].document.operationId];
         Unobstructed(op) && AfterAcknowledgement(op.state) && op.successor == Some(successorSession)
    }

    /** What a resumable operation answers to each of the checks of resume. */
    lemma ResumableFacts(handoffId: HandoffId, successorSession: SessionId)
      requires Valid() && Resumable(handoffId, successorSession)
      ensures var h := shared.d.rows[handoffId].document;
              var op := shared.d.ops[h.operationId];
              && op.handoffId == handoffId && op.acknowledgedSession == Some(successorSession) && op.adapterId == adapterId
              && op.operationId == h.operationId && (caps.query || (caps.create && caps.idempotency))
              && IsExactAcknowledgement(op, h, Acknowledgement(handoffId, successorSession, adapterId, h))
              && (exists g | g in shared.host :: g.key == op.key)
              && (forall g | g in shared.host && g.key == op.key :: g.id == successorSession)
    {
      var h := shared.d.rows[handoffId].document;
      var op := shared.d.ops[h.operationId];
      assert OperationInv(shared.d, op);
      assert HostCreated(shared.host, successorSession, op.operationId);
      var g :| g in shared.host && g.id == successorSession && g.operationId == op.operationId;
      assert g.key == op.key;
    }

    /** resume: a predecessor is sealed only after the host has again received the exact handoff, as `sent` shows,
        and acknowledged exactly the recorded successor and handoff, as `confirmed` shows; a success is the
        durable completed operation, and undisturbed its completion makes the successor the active session. */
    method Resume(handoffId: HandoffId, successorSession: SessionId)
      returns (r: Result<ResumeOutcome>, ghost sent: Option<(HostSession, Handoff)>, ghost confirmed: Option<Acknowledgement>)
      requires Valid()
      modifies this
      ensures Valid() && Evolves(old(shared), shared) && clock >= old(clock)
      ensures r.Success? ==>
                && var op := r.value.op;
                && op.operationId in shared.d.ops && shared.d.ops[op.operationId] == op && op.state == Completed
                && op.handoffId == handoffId && op.successor == Some(successorSession)
                && ExactlyAcknowledged(op, Some(successorSession))
                && r.value.session.id == successorSession && r.value.session.operationId == op.operationId
                && r.value.handoff.successor == Some(successorSession) && SameOperation(op, r.value.handoff)
                && IsDurable(r.value.handoff)
      ensures r.Success? ==>
                && sent == Some((r.value.session, r.value.handoff))
                && confirmed == Some(Acknowledgement(handoffId, successorSession, adapterId, r.value.handoff))
      ensures quiet && r.Success? && !Done(old(shared).d, r.value.op.operationId) ==>
                shared.d.active == Some(successorSession)
      ensures old(Resumable(handoffId, successorSession)) ==> r.Success?
    {
      hide Rest, Inv, Evolves, OneSessionPerKey, Effect, IsVersion;
      sent, confirmed := None, None;
      EvolvesReflexive(shared);
      ghost var start := shared;
      ghost var resumable := Resumable(handoffId, successorSession);
      if resumable {
        ResumableFacts(handoffId, successorSession);
      }
      var unread := Faulty();
      if unread {
        return Failure(Fault), sent, confirmed;
      }
      if handoffId !in shared.d.rows {
        return Failure(NotFound), sent, confirmed;
      }
      var h := shared.d.rows[handoffId].document;
      if h.operationId !in shared.d.ops {
        return Failure(IntegrityFailure), sent, confirmed;
      }
      var operation := shared.d.ops[h.operationId];
      if operation.handoffId != handoffId || operation.successor != Some(successorSession)
         || operation.acknowledgedSession != Some(successorSession) {
        return Failure(Conflict), sent, confirmed;
      }
      if operation.state != Acknowledged && operation.state != PredecessorSealing && operation.state != Completed {
        return Failure(Conflict), sent, confirmed;
      }
      if operation.adapterId != adapterId {
        return Failure(IntegrityFailure), sent, confirmed;
      }
      if !caps.resume || (!caps.query && !(caps.create && caps.idempotency)) {
        return Failure(CapabilityUnavailable), sent, confirmed;
      }
      DurableIsVersion(shared, h.operationId);
      var reconciled := ReconcileSession(operation);
      StaysDurable(start, shared, handoffId);
      if reconciled.Failure? {
        return Failure(reconciled.error), sent, confirmed;
      }
      var session := reconciled.value;
      if session.id != successorSession {
        return Failure(IntegrityFailure), sent, confirmed;
      }
      if !IsBootstrapCompatible(session, h)
         || !IsExactAcknowledgement(operation, h, Acknowledgement(handoffId, session.id, adapterId, h)) {
        return Failure(IntegrityFailure), sent, confirmed;
      }
      var undelivered;
      undelivered, sent := Bootstrap(session, h);
      if undelivered {
        return Failure(Fault), sent, confirmed;
      }
      var acknowledgement := AwaitAcknowledgement(session, h);
      if acknowledgement.Failure? {
        return Failure(acknowledgement.error), sent, confirmed;
      }
      confirmed := Some(acknowledgement.value);
      if !IsExactAcknowledgement(operation, h, acknowledgement.value) {
        return Failure(IntegrityFailure), sent, confirmed;
      }
      ghost var now := shared;
      var sealed := SealPredecessor(operation);
      EvolvesTransitive(start, now, shared);
      StaysDurable(start, shared, handoffId);
      if sealed.Failure? {
        return Failure(sealed.error), sent, confirmed;
      }
      return Success(ResumeOutcome(sealed.value, h, session)), sent, confirmed;
    }

    /** The last two transitions of resume, from wherever the acknowledged operation stands. */
    method SealPredecessor(acknowledged: Operation) returns (r: Result<Operation>)
      requires Valid() && IsVersion(acknowledged, shared.d) && AfterAcknowledgement(acknowledged.state)
      modifies this
      ensures Valid() && Evolves(old(shared), shared) && clock >= old(clock)
      ensures quiet ==> Rest(shared.d, acknowledged.operationId) == old(Rest(shared.d, acknowledged.operationId))
      ensures r.Success? ==>
                && r.value.operationId in shared.d.ops && shared.d.ops[r.value.operationId] == r.value
                && r.value.state == Completed && Continues(acknowledged, r.value)
                && ExactlyAcknowledged(r.value, acknowledged.successor) && r.value.operationId == acknowledged.operationId
      ensures quiet && r.Success? && !Done(old(shared).d, acknowledged.operationId) ==>
                shared.d.active.Some? && shared.d.active == r.value.successor
      ensures old(Unobstructed(acknowledged)) ==> r.Success?
    {
      hide Rest, Inv, Evolves, OneSessionPerKey, Effect, IsVersion;
      EvolvesReflexive(shared);
      ghost var start := shared;
      ghost var now := shared;
      var operation := acknowledged;
      if operation.state == Acknowledged {
        var sealing := Move(operation, PredecessorSealing);
        EvolvesTransitive(start, now, shared);
        VersionsLast(acknowledged, now, shared);
        now := shared;
        if sealing.Failure? {
          return Failure(sealing.error);
        }
        operation := sealing.value;
      }
      if operation.state == PredecessorSealing {
        var completed := Move(operation, Completed);
        EvolvesTransitive(start, now, shared);
        VersionsLast(acknowledged, now, shared);
        if completed.Failure? {
          return Failure(completed.error);
        }
        operation := completed.value;
      }
      CompletedVersion(acknowledged, operation, shared.d);
      if quiet && !Done(start.d, operation.operationId) {
        PointerIsSuccessor(start, shared, operation.operationId);
      }
      return Success(operation);
    }

    lemma CompletedVersion(a: Operation, b: Operation, d: Durable)
      requires IsVersion(a, d) && IsVersion(b, d) && a.operationId == b.operationId && b.state == Completed
      requires AfterAcknowledgement(a.state)
      ensures b.operationId in d.ops && d.ops[b.operationId] == b && Continues(a, b)
      ensures ExactlyAcknowledged(b, a.successor)
    {
    }

    // ----- Recovery -----

    /** Cancelling recovery can finish: not a terminal operation, not one in retry wait, and the
        transitions it still needs are left. */
    static predicate CanCancel(op: Operation) {
      && !IsTerminal(op.state) && op.state != RetryWait
      && op.attempt < if op.state == Cancelling then MAX_TRANSITIONS - 1 else MAX_TRANSITIONS - 2
    }

    /** The first transition of a cancellation, undisturbed. */
    static lemma CancellingCommits(s: Shared, op: Operation)
      requires Inv(s) && op.operationId in s.d.ops && s.d.ops[op.operationId] == op && op.state != Cancelling
      ensures var effect := Effect(s.d, Swap(op.operationId, op.state, Cancelling, op.successor));
              && (effect.Committed? <==> !IsTerminal(op.state) && op.state != RetryWait && op.attempt < MAX_TRANSITIONS - 1)
              && (effect.Committed? ==>
                    effect.op == op.(state := Cancelling, attempt := op.attempt + 1, retryAt := None, retryResumeState := None))
    {
      assert OperationInv(s.d, op);
    }

    /** The second one. */
    static lemma CancelledCommits(s: Shared, op: Operation)
      requires Inv(s) && op.operationId in s.d.ops && s.d.ops[op.operationId] == op && op.state == Cancelling
      ensures Effect(s.d, Swap(op.operationId, Cancelling, Cancelled, op.successor)).Committed? <==>
              op.attempt < MAX_TRANSITIONS - 1
    {
      assert OperationInv(s.d, op);
    }

    /** Cancelling recovery of one operation: undisturbed, with a repository that answers, it cancels
        exactly the operations it can, so never one in retry wait. */
    method CancelOperation(operation: Operation) returns (cancelled: bool)
      requires Valid() && IsVersion(operation, shared.d)
      modifies this
      ensures Valid() && Evolves(old(shared), shared) && clock >= old(clock)
      ensures cancelled ==> operation.operationId in shared.d.ops && shared.d.ops[operation.operationId].state == Cancelled
      ensures (quiet && operation.operationId in old(shared).d.ops
               && old(shared).d.ops[operation.operationId] == operation) ==>
                (cancelled ==> CanCancel(operation)) && (reliable ==> (cancelled <==> CanCancel(operation)))
    {
      hide Rest, Target, Inv, Evolves, OneSessionPerKey, Effect, IsVersion;
      if operation.operationId in shared.d.ops && shared.d.ops[operation.operationId] == operation {
        if operation.state == Cancelling {
          CancelledCommits(shared, operation);
        } else {
          CancellingCommits(shared, operation);
        }
      }
      var id, current := operation.operationId, operation;
      ghost var start := shared;
      ghost var now := shared;
      EvolvesReflexive(shared);
      SuppliedIsDurable(operation, shared.d);
      if operation.state != Cancelling {
        var cancelling := Transact(Swap(id, operation.state, Cancelling, operation.successor));
        now := shared;
        if cancelling.Failure? {
          return false;
        }
        current := cancelling.value;
        if current.operationId in shared.d.ops && shared.d.ops[current.operationId] == current {
          CancelledCommits(shared, current);
        }
      }
      SuppliedIsDurable(current, shared.d);
      var done := Transact(Swap(id, Cancelling, Cancelled, current.successor));
      EvolvesTransitive(start, now, shared);
      if done.Failure? {
        return false;
      }
      VersionFacts(done.value, shared.d);
      return true;
    }

    /** An operation that was unfinished is durably over; if `cancelled`, as cancelled. */
    static ghost predicate Settles(s: Shared, t: Shared, cancelled: bool) {
      exists id | id in s.d.ops && id in t.d.ops :: !IsTerminal(s.d.ops[id].state) && Over(t.d.ops[id], cancelled)
    }

    static predicate Over(op: Operation, cancelled: bool) {
      if cancelled then op.state == Cancelled else IsTerminal(op.state)
    }

    static lemma OnlyOneActive(s: Shared)
      requires Inv(s)
      ensures forall a, b | a in s.d.ops && b in s.d.ops ::
                !IsTerminal(s.d.ops[a].state) && !IsTerminal(s.d.ops[b].state) ==> a == b
    {
    }

    /** recover on one project: every inspected operation is counted once, as resumed, cancelled or
        failed; what is counted as resumed or cancelled was unfinished and is durably over. */
    method Recover(resumeOperations: bool) returns (report: RecoveryReport)
      requires Valid()
      modifies this
      ensures Valid() && Evolves(old(shared), shared) && clock >= old(clock)
      ensures report.inspected <= report.resumed + report.cancelled + report.failed <= 1
      ensures if resumeOperations then report.cancelled == 0 else report.resumed == 0
      ensures report.cancelled == 1 ==> Settles(old(shared), shared, true)
      ensures report.resumed == 1 ==> Settles(old(shared), shared, false)
      // A repository that answers shows its unfinished operation; undisturbed, that is cancelled if it can be,
      // or resumed if nothing is in its way.
      ensures reliable && (forall id | id in old(shared).d.ops :: IsTerminal(old(shared).d.ops[id].state)) ==>
                report == RecoveryReport(0, 0, 0, 0)
      ensures reliable ==> forall id | id in old(shared).d.ops && !IsTerminal(old(shared).d.ops[id].state) ::
                && report.inspected == 1
                && (quiet && !resumeOperations ==> (report.cancelled == 1 <==> CanCancel(old(shared).d.ops[id])))
                && (resumeOperations && old(Unobstructed(shared.d.ops[id])) ==> report.resumed == 1)
    {
      hide Inv, Evolves, OneSessionPerKey, Effect, IsVersion, Rest, IsSuccessor, Phase, AfterAcknowledgement,
        ExactlyAcknowledged,
        Done;
      OnlyOneActive(shared);
      ghost var start := shared;
      var unread := Faulty();
      if unread {
        Yield();
        return RecoveryReport(0, 0, 0, 1);
      }
      if id :| id in shared.d.ops && !IsTerminal(shared.d.ops[id].state) {
        var operation := shared.d.ops[id];
        DurableIsVersion(shared, id);
        Yield();
        VersionsLast(operation, start, shared);
        ghost var now := shared;
        if resumeOperations {
          var outcome, _ := Rollover(id);
          EvolvesTransitive(start, now, shared);
          assert outcome.Success? ==> Over(shared.d.ops[id], false);
          return if outcome.Success? then RecoveryReport(1, 1, 0, 0) else RecoveryReport(1, 0, 0, 1);
        }
        var cancelled := CancelOperation(operation);
        EvolvesTransitive(start, now, shared);
        assert cancelled ==> Over(shared.d.ops[id], true);
        return if cancelled then RecoveryReport(1, 0, 1, 0) else RecoveryReport(1, 0, 0, 1);
      }
      Yield();
      return RecoveryReport(0, 0, 0, 0);
    }

    lemma NotCancellableFromRetry(s: Shared, id: OperationId)
      requires Inv(s) && id in s.d.ops
      ensures s.d.ops[id].state == RetryWait ==>
                forall supplied :: Effect(s.d, Swap(id, RetryWait, Cancelling, supplied)) == Failed(Conflict)
    {
      assert OperationInv(s.d, s.d.ops[id]);
      if s.d.ops[id].state == RetryWait {
        forall supplied
          ensures Effect(s.d, Swap(id, RetryWait, Cancelling, supplied)) == Failed(Conflict)
        {
          RetryWaitIsNotCancellable(s.d, id, supplied);
        }
      }
    }
  }

  /** Different projects, each with an operation that was unfinished at the start and is over in the end. */
  ghost predicate AllSettled(which: seq<nat>, starts: seq<Shared>, ends: seq<Shared>, cancelled: bool) {
    && (forall j, k | 0 <= j < k < |which| :: which[j] < which[k])
    && forall k | 0 <= k < |which| ::
         which[k] < |starts| && which[k] < |ends| && Coordinator.Settles(starts[which[k]], ends[which[k]], cancelled)
  }

  lemma NoneSettled(starts: seq<Shared>, ends: seq<Shared>, cancelled: bool)
    ensures AllSettled([], starts, ends, cancelled)
  {
  }

  lemma SettledLater(which: seq<nat>, starts: seq<Shared>, ends: seq<Shared>, end: Shared, cancelled: bool)
    requires AllSettled(which, starts, ends, cancelled) && |ends| < |starts|
    ensures AllSettled(which, starts, ends + [end], cancelled)
    ensures Coordinator.Settles(starts[|ends|], end, cancelled) ==>
              AllSettled(which + [|ends|], starts, ends + [end], cancelled)
  {
    hide Coordinator.Settles;
  }

  ghost function SharedOf(projects: seq<Coordinator>): (r: seq<Shared>)
    reads set c | c in projects
    ensures |r| == |projects| && forall k | 0 <= k < |r| :: r[k] == projects[k].shared
  {
    seq(|projects|, k requires 0 <= k < |projects| reads set c | c in projects => projects[k].shared)
  }

  /** recover: one coordinator for each project of the registry, in order; a project that cannot be read
      counts as failed, every project at most once, and a lapsed context ends the call. Each one counted
      as resumed or cancelled is a project of its own with an operation that was unfinished and is over. */
  method RecoverAll(projects: seq<Coordinator>, resumeOperations: bool)
    returns (r: Result<RecoveryReport>, ghost resumed: seq<nat>, ghost cancelled: seq<nat>)
    requires forall i, j | 0 <= i < j < |projects| :: projects[i] != projects[j]
    requires forall c | c in projects :: c.Valid()
    modifies set c | c in projects
    ensures forall c | c in projects :: c.Valid()
    ensures r.Success? ==>
              && r.value.inspected <= r.value.resumed + r.value.cancelled + r.value.failed <= |projects|
              && (if resumeOperations then r.value.cancelled == 0 else r.value.resumed == 0)
              && |resumed| == r.value.resumed && |cancelled| == r.value.cancelled
              && AllSettled(resumed, old(SharedOf(projects)), SharedOf(projects), false)
              && AllSettled(cancelled, old(SharedOf(projects)), SharedOf(projects), true)
  {
    hide *;
    var report := RecoveryReport(0, 0, 0, 0);
    resumed, cancelled := [], [];
    ghost var starts, ends := SharedOf(projects), [];
    NoneSettled(starts, ends, false);
    NoneSettled(starts, ends, true);
    for i := 0 to |projects|
      invariant forall k | 0 <= k < |projects| :: projects[k].Valid()
      invariant |ends| == i && forall k | 0 <= k < |projects| :: projects[k].shared == if k < i then ends[k] else starts[k]
      invariant report.inspected <= report.resumed + report.cancelled + report.failed <= i
      invariant if resumeOperations then report.cancelled == 0 else report.resumed == 0
      invariant |resumed| == report.resumed && |cancelled| == report.cancelled
      invariant AllSettled(resumed, starts, ends, false) && AllSettled(cancelled, starts, ends, true)
    {
      var lapsed: bool := *;
      if lapsed {
        return Failure(Fault), resumed, cancelled;
      }
      var one := projects[i].Recover(resumeOperations);
      report := RecoveryReport(report.inspected + one.inspected, report.resumed + one.resumed,
                               report.cancelled + one.cancelled, report.failed + one.failed);
      SettledLater(resumed, starts, ends, projects[i].shared, false);
      SettledLater(cancelled, starts, ends, projects[i].shared, true);
      if one.resumed == 1 {
        resumed := resumed + [i];
      } else if one.cancelled == 1 {
        cancelled := cancelled + [i];
      }
      ends := ends + [projects[i].shared];
    }
    assert ends == SharedOf(projects);
    return Success(report), resumed, cancelled;
  }
}
