// Scheduled tasks as values: records, what the scheduler does to one, and the invariants that
// every stored or in-memory version of the schedule list obeys.

module ScheduleModel {
  import opened Options

  type Id = nat        // one generator names schedules, runs and operations; see Scheduler.NextUuid
  type Text = nat      // names, tasks, authorizations, messages: compared, never inspected
  type Millis = int    // milliseconds since 1970

  const MAX_SCHEDULES: nat := 32
  const MAX_REVISION: nat := 0xFFFF_FFFF_FFFF_FFFF
  const MIN_INTERVAL: nat := 60
  const MAX_INTERVAL: nat := 31_536_000

  datatype Error = Error(code: Code, message: Text)
  datatype Code = Conflict | Unauthorized | IntegrityFailure | InvalidRequest | RecordNotFound | SessionNotFound | PayloadTooLarge
                | Unavailable | OtherCode(code: nat)

  datatype Owner = Owner(project: Id, client: Text)

  datatype RunState = Admitted | Running | Paused | Cancelling | Missing | Completed | Failed | Cancelled

  /** What a record shows of its latest run. `details` stands for tokens, output and time. */
  datatype RunInfo = RunInfo(run: Id, state: RunState, interrupted: bool, details: nat, error: Option<Error>,
                             previousError: Option<Error>)

  datatype Event = Created | CancelRequested | ManualRunAuthorized | DispatchAdmitted | NeedsAttention | InterruptedRun
                 | RunReached(state: RunState)

  datatype LogLine = LogLine(at: Millis, event: Event)

  datatype Notification = Notification(event: Event, at: Millis, receipt: Option<Text>, error: Option<Error>,
                                       persistenceError: Option<Error>)

  /** `spec` stands for the fields no operation changes: name, task, scope, tool settings. */
  datatype Record = Record(
    id: Id, owner: Owner, reference: Text, spec: nat, authorization: Text, interval: Option<nat>, nextAt: Option<Millis>,
    createdAt: Millis, updatedAt: Millis, cancelled: bool, needsAttention: bool, latestRun: Option<RunInfo>,
    lastError: Option<Error>, lastNotification: Option<Notification>, history: seq<RunInfo>, logs: seq<LogLine>, revision: nat)

  predicate Unfinished(run: Option<RunInfo>) {
    run.Some? && !IsTerminal(run.value.state)
  }

  predicate IsTerminal(s: RunState) {
    s.Completed? || s.Failed? || s.Cancelled?
  }

  function Trimmed<T>(entries: seq<T>, count: nat): (r: seq<T>)
    ensures |r| <= count && |r| <= |entries| && r == entries[|entries| - |r|..]
    ensures |entries| <= count ==> r == entries
  {
    if |entries| <= count then entries else entries[|entries| - count..]
  }

  // ----- What operations do to a record -----

  /** Two readings of the clock: the update time and the time shown in the log. */
  function Logged(r: Record, event: Event, updatedAt: Millis, at: Millis): Record {
    r.(updatedAt := updatedAt, logs := Trimmed(r.logs + [LogLine(at, event)], 16))
  }

  function WithHistory(r: Record, run: RunInfo): Record {
    r.(history := Trimmed(r.history + [run], 5))
  }

  function Blocked(r: Record, error: Error): Record {
    r.(needsAttention := true, lastError := Some(error))
  }

  /** The run service no longer knows the run, or cannot say after a restart. */
  function Interrupted(r: Record, error: Error): Record
    requires r.latestRun.Some?
  {
    var run := r.latestRun.value.(interrupted := true);
    var missing := error.code == SessionNotFound;
    r.(latestRun := Some(
         if !missing then run
         else run.(state := Missing, error := Some(error),
                   previousError := if run.previousError.None? then r.lastError else run.previousError)))
  }

  const UNCERTAIN := Error(Conflict, 0)

  /** The run service's answer for a run. */
  datatype Snapshot = Snapshot(project: Id, client: Text, state: RunState, workerInterrupted: bool, details: nat,
                               error: Option<Error>)

  datatype Report = Known(snapshot: Snapshot) | Unknown(error: Error)

  /** A call that asked the run service for the status of a run, or to stop it, and what it answered. */
  datatype Question = Question(run: Id, stop: bool, report: Report)

  function Actual(run: Id, s: Snapshot, restored: bool): RunInfo {
    RunInfo(run, s.state, s.workerInterrupted || (restored && !IsTerminal(s.state)), s.details, s.error, None)
  }

  /** Whether the record already shows what was observed. */
  predicate AlreadyShown(r: Record, actual: RunInfo) {
    r.latestRun == Some(actual) && (!actual.interrupted || r.needsAttention)
  }

  function Observed(r: Record, actual: RunInfo, updatedAt: Millis, at: Millis): Record
    requires r.latestRun.Some?
  {
    var changed := r.latestRun.value.state != actual.state || actual.interrupted;
    var a := r.(latestRun := Some(actual));
    var b := if actual.interrupted then a.(needsAttention := true, lastError := Some(UNCERTAIN)) else a;
    var event := if actual.interrupted then InterruptedRun else RunReached(actual.state);
    var c := if changed then Logged(b, event, updatedAt, at) else b;
    if IsTerminal(actual.state) && (c.history == [] || c.history[|c.history| - 1].run != actual.run) then WithHistory(c, actual)
    else c
  }

  function AdmittedRecord(r: Record, run: Id, now: Millis, updatedAt: Millis, at: Millis): Record {
    Logged(r.(latestRun := Some(RunInfo(run, Admitted, false, 0, None, None)),
              nextAt := if r.interval.None? then None else Some(now + r.interval.value * 1000),
              lastError := None), DispatchAdmitted, updatedAt, at)
  }

  function Authorized(r: Record, authorization: Text, updatedAt: Millis, at: Millis): Record {
    var a := r.(needsAttention := false, authorization := authorization);
    var b := if Unfinished(a.latestRun) then WithHistory(a, a.latestRun.value).(latestRun := None) else a;
    Logged(b, ManualRunAuthorized, updatedAt, at)
  }

  function CancelRequestedRecord(r: Record, authorization: Text, updatedAt: Millis, at: Millis): Record {
    Logged(r.(cancelled := true, nextAt := None, authorization := authorization), CancelRequested, updatedAt, at)
  }

  /** What an observation leaves in a record: the run as reported, and a finished one as the last of the history. */
  lemma ObservedShows(r: Record, actual: RunInfo, updatedAt: Millis, at: Millis)
    requires r.latestRun.Some?
    ensures var r' := Observed(r, actual, updatedAt, at);
            && r'.latestRun == Some(actual)
            && (if actual.interrupted then r'.needsAttention && r'.lastError == Some(UNCERTAIN)
                else r'.needsAttention == r.needsAttention && r'.lastError == r.lastError)
            && (actual.state in {Completed, Failed, Cancelled} ==>
                  r'.history != [] && r'.history[|r'.history| - 1].run == actual.run)
            && (actual.state !in {Completed, Failed, Cancelled} ==> r'.history == r.history)
            && (if actual.interrupted || actual.state != r.latestRun.value.state
                then r'.logs != [] && r'.logs[|r'.logs| - 1].at == at && r'.updatedAt == updatedAt
                else r'.logs == r.logs && r'.updatedAt == r.updatedAt)
            && r' == r.(latestRun := r'.latestRun, needsAttention := r'.needsAttention, lastError := r'.lastError,
                        history := r'.history, logs := r'.logs, updatedAt := r'.updatedAt)
  {
    hide Logged, WithHistory;
    var changed := r.latestRun.value.state != actual.state || actual.interrupted;
    var a := r.(latestRun := Some(actual));
    var b := if actual.interrupted then a.(needsAttention := true, lastError := Some(UNCERTAIN)) else a;
    var event := if actual.interrupted then InterruptedRun else RunReached(actual.state);
    LoggedShows(b, event, updatedAt, at);
    var c := if changed then Logged(b, event, updatedAt, at) else b;
    RemembersLast(c, actual);
  }

  lemma LoggedShows(r: Record, event: Event, updatedAt: Millis, at: Millis)
    ensures var r' := Logged(r, event, updatedAt, at);
            && r' == r.(updatedAt := updatedAt, logs := r'.logs)
            && r'.logs != [] && r'.logs[|r'.logs| - 1] == LogLine(at, event) && |r'.logs| <= 16
  {
    LastKept(r.logs, LogLine(at, event), 16);
  }

  lemma RemembersLast(r: Record, run: RunInfo)
    ensures var r' := WithHistory(r, run);
            && r' == r.(history := r'.history)
            && r'.history != [] && r'.history[|r'.history| - 1] == run && |r'.history| <= 5
  {
    LastKept(r.history, run, 5);
  }

  lemma LastKept<T>(entries: seq<T>, entry: T, count: nat)
    requires count > 0
    ensures var r := Trimmed(entries + [entry], count);
            r != [] && r[|r| - 1] == entry && r[..|r| - 1] == entries[|entries| + 1 - |r|..]
  {
  }

  /** What is left of a run the run service cannot answer for: its first cause stays, and a missing run is shown as missing. */
  lemma InterruptedShows(r: Record, error: Error)
    requires r.latestRun.Some?
    ensures var was, run := r.latestRun.value, Interrupted(r, error).latestRun.value;
            && run.run == was.run && run.interrupted && run.details == was.details
            && (error.code == SessionNotFound ==> run.state == Missing && run.error == Some(error))
            && (error.code == SessionNotFound ==>
                  run.previousError == if was.previousError.Some? then was.previousError else r.lastError)
            && (error.code != SessionNotFound ==> run == was.(interrupted := true))
            && Interrupted(r, error) == r.(latestRun := Some(run))
  {
  }

  /** Another attempt is authorized: an unfinished run moves to the history, and nothing is unfinished any more. */
  lemma AuthorizedShows(r: Record, authorization: Text, updatedAt: Millis, at: Millis)
    ensures var r' := Authorized(r, authorization, updatedAt, at);
            && !r'.needsAttention && r'.authorization == authorization && r'.nextAt == r.nextAt && r'.interval == r.interval
            && (if r.latestRun.Some? && r.latestRun.value.state !in {Completed, Failed, Cancelled}
                then r'.latestRun.None? && r'.history != [] && r'.history[|r'.history| - 1] == r.latestRun.value
                else r'.latestRun == r.latestRun && r'.history == r.history)
            && r'.logs != [] && r'.logs[|r'.logs| - 1] == LogLine(at, ManualRunAuthorized)
  {
  }

  predicate Due(r: Record, now: Millis) {
    !r.cancelled && !r.needsAttention && r.nextAt.Some? && r.nextAt.value <= now && !Unfinished(r.latestRun)
  }

  predicate SameOwner(a: Record, b: Record) {
    a.owner == b.owner && a.reference == b.reference
  }

  // ----- Revisions -----

  /** Commit renumbers each record that changes, and each whose live notification was unsaved. */
  function StampedAt(proposed: seq<Record>, current: seq<Record>, unsaved: seq<bool>, k: nat): Record
    requires k < |proposed| && |current| <= |unsaved|
  {
    if k < |current| && (current[k] != proposed[k] || unsaved[k]) then proposed[k].(revision := current[k].revision + 1)
    else proposed[k]
  }

  function Stamped(proposed: seq<Record>, current: seq<Record>, unsaved: seq<bool>): (r: seq<Record>)
    requires |current| <= |unsaved|
    ensures |r| == |proposed|
    ensures forall k | 0 <= k < |r| :: r[k] == StampedAt(proposed, current, unsaved, k)
  {
    seq(|proposed|, k requires 0 <= k < |proposed| => StampedAt(proposed, current, unsaved, k))
  }

  /** Some renumbered record has no number left. */
  predicate Exhausted(proposed: seq<Record>, current: seq<Record>, unsaved: seq<bool>)
    requires |current| <= |unsaved|
  {
    exists k | 0 <= k < |proposed| ::
      k < |current| && (current[k] != proposed[k] || unsaved[k]) && current[k].revision == MAX_REVISION
  }

  // ----- What has happened so far -----

  /** One call of the run service's start: what the store held then, and what was settled. */
  datatype Start = Start(schedule: Id, run: Id, now: Millis, store: seq<Record>, settledBefore: set<Id>, flagged: set<Id>)

  /** `finished`: runs the run service has reported as finished. `settled`: those, and runs given up
      by an explicit run-now. `attention`: schedules whose need for attention has been saved and not
      answered since. `released`: the record each revision shown to a reader named. */
  datatype World = World(finished: set<Id>, nextUuid: Id, settled: set<Id>, attention: set<Id>,
                         released: map<(Id, nat), Record>, starts: seq<Start>)

  // ----- Invariants of a version of the list -----

  predicate IntervalOk(r: Record) {
    r.interval.Some? ==> MIN_INTERVAL <= r.interval.value <= MAX_INTERVAL
  }

  /** Every run started for this schedule is settled, but for the one it shows as unfinished. */
  ghost predicate Accounted(r: Record, w: World) {
    forall k | 0 <= k < |w.starts| :: w.starts[k].schedule == r.id && w.starts[k].run !in w.settled ==>
      Unfinished(r.latestRun) && r.latestRun.value.run == w.starts[k].run
  }

  ghost predicate RecordOk(r: Record, w: World) {
    && r.id < w.nextUuid && IntervalOk(r)
    && (r.latestRun.Some? ==> r.latestRun.value.run < w.nextUuid)
    && (r.latestRun.Some? && IsTerminal(r.latestRun.value.state) ==> r.latestRun.value.run in w.finished)
    && (r.id in w.attention ==> r.needsAttention)
    && Accounted(r, w)
  }

  predicate DistinctIds(v: seq<Record>) {
    forall i, j | 0 <= i < j < |v| :: v[i].id != v[j].id
  }

  /** Of the schedules of one owned task, at most one has an unfinished run. */
  predicate OneUnfinished(v: seq<Record>) {
    forall i, j | 0 <= i < j < |v| :: !(SameOwner(v[i], v[j]) && Unfinished(v[i].latestRun) && Unfinished(v[j].latestRun))
  }

  ghost predicate VersionOk(v: seq<Record>, w: World) {
    |v| <= MAX_SCHEDULES && DistinctIds(v) && OneUnfinished(v) && forall k | 0 <= k < |v| :: RecordOk(v[k], w)
  }

  /** A revision shown to a reader is no later than the record's, and names it while it is saved. */
  ghost predicate NamedOnce(r: Record, unsaved: bool, released: map<(Id, nat), Record>) {
    forall n | (r.id, n) in released :: n <= r.revision && (n == r.revision && !unsaved ==> released[(r.id, n)] == r)
  }

  /** What the store holds for a record in memory: itself, or a later revision nobody has seen. */
  predicate Linked(memory: Record, unsaved: bool, stored: Record) {
    && stored.id == memory.id && stored.revision >= memory.revision
    && (stored.revision == memory.revision && !unsaved ==> stored == memory)
  }

  ghost predicate AllNamedOnce(v: seq<Record>, unsaved: seq<bool>, released: map<(Id, nat), Record>)
    requires |v| <= |unsaved|
  {
    forall k | 0 <= k < |v| :: NamedOnce(v[k], unsaved[k], released)
  }

  function NoneUnsaved(): (r: seq<bool>)
    ensures |r| == MAX_SCHEDULES && forall k | 0 <= k < |r| :: !r[k]
  {
    seq(MAX_SCHEDULES, _ => false)
  }

  // ----- Invariants of the starts -----

  /** The store held this run as just admitted, with the due time cleared or moved into the
      future, and the schedule was not one that waits for attention. */
  predicate StartOk(s: Start) {
    && (exists k | 0 <= k < |s.store| :: AdmitsRun(s.store[k], s))
    && s.schedule !in s.flagged
  }

  predicate AdmitsRun(r: Record, s: Start) {
    && r.id == s.schedule && !r.needsAttention && !r.cancelled
    && r.latestRun == Some(RunInfo(s.run, Admitted, false, 0, None, None))
    && r.nextAt == (if r.interval.None? then None else Some(s.now + r.interval.value * 1000))
    && (r.nextAt.Some? ==> r.nextAt.value > s.now)
  }

  ghost predicate StartsOk(w: World) {
    && w.finished <= w.settled
    && (forall id | id in w.attention :: id < w.nextUuid)
    && (forall k | 0 <= k < |w.starts| ::
          StartOk(w.starts[k]) && w.starts[k].run < w.nextUuid && w.starts[k].schedule < w.nextUuid)
    && (forall j, k | 0 <= j < k < |w.starts| :: w.starts[j].run != w.starts[k].run)
    && (forall j, k | 0 <= j < k < |w.starts| && w.starts[j].schedule == w.starts[k].schedule ::
          w.starts[j].run in w.starts[k].settledBefore)
  }

  function Flagged(v: seq<Record>): set<Id> {
    set k | 0 <= k < |v| && v[k].needsAttention :: v[k].id
  }

  // ----- Later worlds -----

  /** More has been generated, finished, settled and released; nothing has started. */
  ghost predicate Later(w: World, w': World) {
    && w.finished <= w'.finished && (w.finished <= w.settled ==> w'.finished <= w'.settled)
    && w.nextUuid <= w'.nextUuid && w.settled <= w'.settled
    && w'.starts == w.starts
  }

  lemma LaterKeepsVersion(v: seq<Record>, w: World, w': World)
    requires VersionOk(v, w) && Later(w, w') && w'.attention <= w.attention
    ensures VersionOk(v, w')
  {
    forall k | 0 <= k < |v|
      ensures RecordOk(v[k], w')
    {
      assert RecordOk(v[k], w);
    }
  }

  /** Noting which saved records need attention. */
  lemma FlaggingKeepsVersion(v: seq<Record>, w: World)
    requires VersionOk(v, w)
    ensures VersionOk(v, w.(attention := w.attention + Flagged(v)))
  {
    var w' := w.(attention := w.attention + Flagged(v));
    forall k | 0 <= k < |v|
      ensures RecordOk(v[k], w')
    {
      assert RecordOk(v[k], w);
      if v[k].id in Flagged(v) {
        var j :| 0 <= j < |v| && v[j].needsAttention && v[j].id == v[k].id;
        assert j == k;
      }
    }
  }

  lemma StampedVersion(proposed: seq<Record>, current: seq<Record>, unsaved: seq<bool>, w: World)
    requires VersionOk(proposed, w) && |current| <= |unsaved|
    ensures VersionOk(Stamped(proposed, current, unsaved), w)
  {
    var v := Stamped(proposed, current, unsaved);
    forall k | 0 <= k < |v|
      ensures RecordOk(v[k], w) && v[k].id == proposed[k].id && SameOwner(v[k], proposed[k])
              && v[k].latestRun == proposed[k].latestRun
    {
      assert RecordOk(proposed[k], w);
    }
  }

  predicate NoOtherUnfinished(v: seq<Record>, i: nat)
    requires i < |v|
  {
    forall j | 0 <= j < |v| && j != i :: !(SameOwner(v[i], v[j]) && Unfinished(v[j].latestRun))
  }

  lemma ReplacingKeepsVersion(v: seq<Record>, i: nat, r: Record, w: World)
    requires VersionOk(v, w) && i < |v| && RecordOk(r, w) && r.id == v[i].id && SameOwner(r, v[i])
    requires Unfinished(r.latestRun) ==> Unfinished(v[i].latestRun) || NoOtherUnfinished(v, i)
    ensures VersionOk(v[i := r], w)
  {
  }

  // ----- Records after each operation -----

  lemma BlockedOk(r: Record, e: Error, event: Event, u: Millis, a: Millis, w: World)
    requires RecordOk(r, w)
    ensures RecordOk(Logged(Blocked(r, e), event, u, a), w)
  {
  }

  lemma InterruptedOk(r: Record, e: Error, w: World)
    requires RecordOk(r, w) && r.latestRun.Some?
    requires e.code == SessionNotFound ==> r.latestRun.value.run !in w.finished
    ensures RecordOk(Interrupted(r, e), w)
    ensures Unfinished(Interrupted(r, e).latestRun) ==> Unfinished(r.latestRun)
  {
  }

  lemma ObservedOk(r: Record, actual: RunInfo, u: Millis, a: Millis, w: World)
    requires RecordOk(r, w) && r.latestRun.Some? && actual.run == r.latestRun.value.run
    requires w.finished <= w.settled && (IsTerminal(actual.state) <==> actual.run in w.finished)
    ensures RecordOk(Observed(r, actual, u, a), w)
    ensures Unfinished(Observed(r, actual, u, a).latestRun) ==> Unfinished(r.latestRun)
  {
  }

  lemma AdmittedOk(r: Record, run: Id, now: Millis, u: Millis, a: Millis, w: World)
    requires RecordOk(r, w) && !Unfinished(r.latestRun) && run < w.nextUuid
    ensures RecordOk(AdmittedRecord(r, run, now, u, a), w)
  {
  }

  lemma AuthorizedOk(r: Record, authorization: Text, u: Millis, a: Millis, w: World, w': World)
    requires RecordOk(r, w) && Later(w, w') && w'.attention == w.attention - {r.id}
    requires Unfinished(r.latestRun) ==> r.latestRun.value.run in w'.settled
    ensures RecordOk(Authorized(r, authorization, u, a), w')
  {
  }

  lemma CancelRequestedOk(r: Record, authorization: Text, u: Millis, a: Millis, w: World)
    requires RecordOk(r, w)
    ensures RecordOk(CancelRequestedRecord(r, authorization, u, a), w)
  {
  }

  // ----- Starting a run -----

  lemma StartingKeepsVersion(v: seq<Record>, i: nat, s: Start, w: World)
    requires VersionOk(v, w) && i < |v| && v[i].id == s.schedule
    requires Unfinished(v[i].latestRun) && v[i].latestRun.value.run == s.run
    ensures VersionOk(v, w.(starts := w.starts + [s]))
  {
    var w' := w.(starts := w.starts + [s]);
    forall k | 0 <= k < |v|
      ensures RecordOk(v[k], w')
    {
      assert RecordOk(v[k], w);
      if k != i {
        assert v[k].id != s.schedule;
      }
    }
  }

  lemma StartingKeepsStarts(v: seq<Record>, i: nat, s: Start, w: World)
    requires VersionOk(v, w) && StartsOk(w) && i < |v| && AdmitsRun(v[i], s) && s.store == v
    requires s.settledBefore == w.settled && s.flagged == w.attention && s.run < w.nextUuid
    requires forall k | 0 <= k < |w.starts| :: w.starts[k].run < s.run
    ensures StartsOk(w.(starts := w.starts + [s]))
  {
    assert RecordOk(v[i], w);
    assert StartOk(s);
    forall j | 0 <= j < |w.starts| && w.starts[j].schedule == s.schedule
      ensures w.starts[j].run in s.settledBefore
    {
      assert Accounted(v[i], w);
    }
  }

  // ----- New records -----

  datatype Timing = AtTime(at: Millis) | Every(seconds: int)

  /** When the first run is due, or why there is none. */
  function FirstDue(timing: Timing, now: Millis): Option<Millis> {
    match timing
    case AtTime(at) => if at <= now then None else Some(at)
    case Every(seconds) => if seconds < MIN_INTERVAL || seconds > MAX_INTERVAL then None else Some(now + seconds * 1000)
  }

  function NewRecord(id: Id, owner: Owner, reference: Text, spec: nat, authorization: Text, timing: Timing, due: Millis,
                     now: Millis): Record {
    Record(id, owner, reference, spec, authorization, if timing.Every? && timing.seconds >= 0 then Some(timing.seconds) else None,
           Some(due), now, now, false, false, None, None, None, [], [], 1)
  }

  /** A schedule that still has something to do for its owned task. */
  predicate Active(r: Record) {
    (!r.cancelled && (r.nextAt.Some? || r.needsAttention)) || Unfinished(r.latestRun)
  }

  lemma AppendingKeepsVersion(v: seq<Record>, r: Record, w: World, w': World)
    requires VersionOk(v, w) && StartsOk(w) && Later(w, w') && w'.attention == w.attention && |v| < MAX_SCHEDULES
    requires r.id == w.nextUuid < w'.nextUuid && IntervalOk(r) && r.latestRun.None?
    ensures VersionOk(v + [r], w')
  {
    LaterKeepsVersion(v, w, w');
    forall k | 0 <= k < |v|
      ensures v[k].id < r.id
    {
      assert RecordOk(v[k], w);
    }
    forall k | 0 <= k < |v + [r]|
      ensures RecordOk((v + [r])[k], w')
    {
      if k < |v| {
        assert RecordOk(v[k], w');
      }
    }
  }
}
