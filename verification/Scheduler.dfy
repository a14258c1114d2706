// The durable scheduler as an object. The store, the run service, the generator and the clock are
// part of it, so that a restart keeps them; what they answer is arbitrary, within their contracts.
// The process may die before any of its calls to them: from then on none has an effect, and what
// memory still computes is lost with the restart.

module Scheduler {
  import opened Options
  import opened ScheduleModel
  import opened ScheduleContracts
  import opened SchedulePaging
  import Utf8

  method NoneUnfinishedBeside(records: seq<Record>, index: nat) returns (alone: bool)
    requires index < |records|
    ensures alone <==> NoOtherUnfinished(records, index)
  {
    var other := 0;
    while other < |records|
      invariant other <= |records|
      invariant forall j | 0 <= j < other && j != index ::
                  !(SameOwner(records[index], records[j]) && Unfinished(records[j].latestRun))
    {
      if other != index && SameOwner(records[index], records[other]) && Unfinished(records[other].latestRun) {
        return false;
      }
      other := other + 1;
    }
    return true;
  }

  method FindById(records: seq<Record>, id: Id) returns (found: Option<nat>)
    ensures found.Some? ==> found.value < |records| && records[found.value].id == id
    ensures found.None? ==> forall k | 0 <= k < |records| :: records[k].id != id
  {
    var k := 0;
    while k < |records|
      invariant k <= |records| && forall j | 0 <= j < k :: records[j].id != id
    {
      if records[k].id == id {
        return Some(k);
      }
      k := k + 1;
    }
    return None;
  }

  /** The renumbering loop of a commit; `None` when a revision cannot advance. */
  method StampAll(proposed: seq<Record>, records: seq<Record>, unsaved: seq<bool>, ghost w: World)
    returns (r: Option<seq<Record>>)
    requires MayCommit(proposed, records, w) && |records| <= |unsaved|
    ensures r.Some? ==> r.value == Stamped(proposed, records, unsaved)
    ensures r.None? <==> Exhausted(proposed, records, unsaved)
  {
    var stamped := proposed;
    var k := 0;
    while k < |stamped|
      invariant k <= |stamped| == |proposed|
      invariant forall j | 0 <= j < k :: stamped[j] == StampedAt(proposed, records, unsaved, j)
      invariant forall j | 0 <= j < k && j < |records| && (records[j] != proposed[j] || unsaved[j]) ::
                  records[j].revision != MAX_REVISION
      invariant forall j | k <= j < |stamped| :: stamped[j] == proposed[j]
    {
      var previous := FindById(records, stamped[k].id);
      PreviousIsInPlace(proposed, records, k, w);
      if previous.Some? && (records[previous.value] != stamped[k] || unsaved[previous.value]) {
        if records[previous.value].revision == MAX_REVISION {
          return None;
        }
        stamped := stamped[k := stamped[k].(revision := records[previous.value].revision + 1)];
      }
      k := k + 1;
    }
    assert stamped == Stamped(proposed, records, unsaved);
    return Some(stamped);
  }

  class Scheduler {
    /** The JSON text of a record, as shown to readers. */
    const encode: Record -> seq<Utf8.byte>
    var records: seq<Record>
    var unsaved: seq<bool>
    var initialized: bool
    var store: Option<seq<Record>>

    // The surroundings.
    var finished: set<Id>
    var nextUuid: Id
    var clock: Millis
    var closed: bool
    var alive: bool
    ghost var world: World
    /** How often the surroundings have failed, and what the run service has been asked about runs. */
    ghost var troubles: nat
    ghost var asked: seq<Question>

    constructor (encode: Record -> seq<Utf8.byte>)
      requires forall r :: Utf8.WellFormed(encode(r))
      ensures Valid() && this.encode == encode && !initialized && !closed && alive
      ensures world.starts == [] && world.released == map[]
    {
      this.encode := encode;
      records, unsaved, initialized, store := [], NoneUnsaved(), false, None;
      finished, nextUuid, clock, alive, closed := {}, 1, 0, true, false;
      world := World({}, 1, {}, {}, map[], []);
      troubles, asked := 0, [];
    }

    ghost predicate Valid()
      reads this
    {
      && StateOk(records, unsaved, store, world) && world.finished == finished && world.nextUuid == nextUuid
      && forall r :: Utf8.WellFormed(encode(r))
    }

    /** The surroundings failed since, or the revisions of a record have run out. */
    twostate predicate Excused()
      reads this
    {
      troubles > old(troubles) || Worn(records)
    }

    /** What every operation keeps: troubles and questions are only added to, and a record is marked as unsaved
        only where something failed. */
    twostate predicate Onward()
      reads this
    {
      && old(troubles) <= troubles && old(asked) <= asked && (Worn(old(records)) ==> Worn(records))
      && (forall k | 0 <= k < |unsaved| && unsaved[k] :: (k < |old(unsaved)| && old(unsaved)[k]) || Excused())
    }

    // ----- The surroundings -----

    method UtcNow() returns (now: Millis)
      modifies this`clock
      ensures clock == now >= old(clock)
    {
      var passed: nat :| true;
      clock := clock + passed;
      return clock;
    }

    method MayDie()
      modifies this`alive, this`troubles
      ensures alive ==> old(alive)
      ensures troubles == old(troubles) + if alive then 0 else 1
    {
      var dies: bool := *;
      alive := alive && !dies;
      if !alive {
        troubles := troubles + 1;
      }
    }

    method NewUuid() returns (id: Option<Id>)
      requires Valid()
      modifies this`nextUuid, this`world, this`troubles
      ensures troubles == old(troubles) + if id.None? then 1 else 0
      ensures Valid() && world == old(world).(nextUuid := nextUuid)
      ensures if id.Some? then id.value == old(nextUuid) && nextUuid == old(nextUuid) + 1 else nextUuid == old(nextUuid)
    {
      var works: bool := *;
      if !works {
        troubles := troubles + 1;
        return None;
      }
      id := Some(nextUuid);
      nextUuid := nextUuid + 1;
      world := world.(nextUuid := nextUuid);
      GrowingKeepsState(records, unsaved, store, old(world), world);
    }

    /** What the run service says of a run, which is this owner's. A run reported as finished stays finished, and
        known. An error is a trouble, and so is a run of another owner. */
    method Answer(run: Id, ghost owner: Owner) returns (report: Report)
      requires Valid()
      modifies this`finished, this`world, this`troubles
      ensures Valid() && Asked(old(world), world)
      ensures Consistent(run, report, finished)
      ensures troubles == old(troubles)
                          + if report.Known? && Owner(report.snapshot.project, report.snapshot.client) == owner then 0 else 1
    {
      report := ArbitraryReport();
      if run in finished && (if report.Known? then !IsTerminal(report.snapshot.state) else report.error.code == SessionNotFound) {
        report := Unknown(Error(Unavailable, 0));
      }
      if report.Known? && IsTerminal(report.snapshot.state) {
        finished := finished + {run};
      }
      world := world.(finished := finished, settled := world.settled + finished);
      if report.Unknown? || Owner(report.snapshot.project, report.snapshot.client) != owner {
        troubles := troubles + 1;
      }
      GrowingKeepsState(records, unsaved, store, old(world), world);
    }

    /** Status of a run, or its cancellation. */
    method Ask(run: Id, stop: bool, ghost owner: Owner) returns (report: Report)
      requires Valid()
      modifies this`finished, this`asked, this`world, this`alive, this`troubles
      ensures Valid() && Asked(old(world), world) && Onward()
      ensures Consistent(run, report, finished)
      ensures asked == old(asked) + (if alive then [Question(run, stop, report)] else [])
      ensures report.Known? ==> alive
      ensures troubles > old(troubles)
              || (report.Known? && Owner(report.snapshot.project, report.snapshot.client) == owner)
    {
      MayDie();
      if !alive {
        assert world.settled + finished == world.settled;
        return Unknown(Error(Unavailable, 0));
      }
      report := Answer(run, owner);
      asked := asked + [Question(run, stop, report)];
    }

    method ArbitraryReport() returns (report: Report)
    {
      report :| true;
    }

    // ----- Saving -----

    /** The atomic file store: a replacement reported as failed may still have taken effect. */
    method Replace(content: seq<Record>) returns (failed: Option<Error>)
      modifies this`store, this`alive, this`troubles
      ensures troubles == old(troubles) + if failed.None? then 0 else 1
      ensures failed.None? ==> store == Some(content)
      ensures store == old(store) || store == Some(content)
      ensures alive ==> old(alive)
    {
      MayDie();
      if !alive {
        return Some(Error(Unavailable, 0));
      }
      var effective: bool := *;
      failed :| true;
      if effective || failed.None? {
        store := Some(content);
      }
      if failed.Some? {
        troubles := troubles + 1;
      }
    }

    /** Everything that may stop a save before the store is called: cancellation, size, paths. */
    method Prepare() returns (failed: Option<Error>)
      modifies this`troubles
      ensures troubles == old(troubles) + if failed.None? then 0 else 1
    {
      failed :| true;
      if failed.Some? {
        troubles := troubles + 1;
      }
    }

    method Commit(proposed: seq<Record>) returns (failed: Option<Error>)
      requires Valid() && MayCommit(proposed, records, world)
      modifies this`records, this`unsaved, this`store, this`world, this`alive, this`troubles
      ensures Valid()
      ensures failed.None? ==>
                && records == Stamped(proposed, old(records), old(unsaved)) && store == Some(records)
                && unsaved == NoneUnsaved() && world == Recorded(records, old(world))
                && !Exhausted(proposed, old(records), old(unsaved))
      ensures failed.Some? ==>
                && records == old(records) && unsaved == old(unsaved) && world == old(world)
                && (store == old(store) || store == Some(Stamped(proposed, records, unsaved))) && Excused()
      ensures Onward()
    {
      StampedStaysWorn(proposed, records, unsaved, world);
      hide Worn;
      var stamped := StampAll(proposed, records, unsaved, world);
      if stamped.None? {
        return Some(Error(IntegrityFailure, 0));
      }
      failed := Prepare();
      if failed.Some? {
        return;
      }
      AmbiguousSave(proposed, records, unsaved, store, world);
      SuccessfulSave(proposed, records, unsaved, store, world);
      failed := Replace(stamped.value);
      if failed.None? {
        records, unsaved := stamped.value, NoneUnsaved();
        world := Recorded(records, world);
      }
    }

    // ----- Notifications -----

    method ArbitraryNotification(event: Event) returns (n: Notification)
      modifies this`clock
      ensures n.event == event && n.persistenceError.None? && old(clock) <= clock
    {
      var at := UtcNow();
      n := Notification(event, at, None, None, None);
      var delivered: bool := *;
      if delivered {
        var receipt: Text :| true;
        n := n.(receipt := Some(receipt));
      } else {
        var error: Error :| true;
        n := n.(error := Some(error));
      }
    }

    /** Changes nothing but notifications and revisions, and never fails. */
    method Notify(index: nat, event: Event)
      requires Valid() && index < |records|
      modifies this`records, this`unsaved, this`store, this`world, this`alive, this`troubles, this`clock
      ensures Valid() && OnlySaved(old(world), world) && old(clock) <= clock
      ensures SameBases(records, old(records))
      ensures records[index].lastNotification.Some? && records[index].lastNotification.value.event == event
      ensures unsaved[index] <==> records[index].lastNotification.value.persistenceError.Some?
      ensures Onward()
    {
      hide VersionOk, RecordOk, StartsOk, ReleasedOk, AllNamedOnce, StoreOk, Stamped, Flagged;
      var n := ArbitraryNotification(event);
      var proposed := records[index := records[index].(lastNotification := Some(n))];
      NotifiedIsOk(records, index, Some(n), world);
      var failed := Commit(proposed);
      if failed.Some? {
        n := n.(persistenceError := failed);
        RetainingKeepsState(records, unsaved, store, world, index, Some(n));
        unsaved := unsaved[index := true];
        StaysWorn(records, index, records[index].(lastNotification := Some(n)));
        records := records[index := records[index].(lastNotification := Some(n))];
      } else {
        StampedBases(proposed, old(records), old(unsaved));
      }
    }

    // ----- Attention, observation, reconciliation -----

    method Block(index: nat, error: Error) returns (failed: Option<Error>)
      requires Valid() && index < |records|
      modifies this`records, this`unsaved, this`store, this`world, this`alive, this`troubles, this`clock
      ensures Valid() && OnlySaved(old(world), world) && old(clock) <= clock
      ensures SameBasesBut(records, old(records), index)
      ensures if failed.None?
              then LoggedFrom(records[index], Blocked(old(records)[index], error), NeedsAttention)
                   && old(records)[index].id in world.attention
              else records == old(records) && unsaved == old(unsaved) && world == old(world) && Excused()
      // The error is shown, and nothing else of the task or of its run changes.
      ensures failed.None? ==> var was := old(records)[index];
                && records[index].needsAttention && records[index].lastError == Some(error)
                && records[index].latestRun == was.latestRun && records[index].nextAt == was.nextAt
                && SameTask(records[index], was)
      ensures Onward()
    {
      hide VersionOk, RecordOk, StartsOk, ReleasedOk, AllNamedOnce, StoreOk, Stamped, Flagged, Worn;
      var u := UtcNow();
      var a := UtcNow();
      var r := Logged(Blocked(records[index], error), NeedsAttention, u, a);
      BlockedIsOk(records, index, error, u, a, world);
      var proposed := records[index := r];
      failed := Commit(proposed);
      if failed.None? {
        StampedBases(proposed, old(records), old(unsaved));
        SavedAttention(records, index);
        Notify(index, NeedsAttention);
        assert Base(records[index]) == Base(r);
        BlockedKeepsRun(old(records)[index], records[index], error);
      }
    }

    method Observe(index: nat, snapshot: Snapshot, restored: bool) returns (failed: Option<Error>)
      requires Valid() && index < |records| && records[index].latestRun.Some?
      requires Consistent(records[index].latestRun.value.run, Known(snapshot), finished)
      modifies this`records, this`unsaved, this`store, this`world, this`alive, this`troubles, this`clock
      ensures Valid() && OnlySaved(old(world), world) && old(clock) <= clock
      ensures SameBasesBut(records, old(records), index)
      ensures failed.Some? ==>
                && records == old(records) && unsaved == old(unsaved) && world == old(world)
                && (Excused() || Owner(snapshot.project, snapshot.client) != old(records)[index].owner)
      ensures Onward()
      ensures failed.None? ==>
                && Owner(snapshot.project, snapshot.client) == old(records)[index].owner
                && Shows(records[index], old(records)[index], Actual(old(records)[index].latestRun.value.run, snapshot, restored))
    {
      hide VersionOk, RecordOk, StartsOk, ReleasedOk, AllNamedOnce, StoreOk, Stamped, Flagged, Observed, Worn;
      var was := records[index];
      if Owner(snapshot.project, snapshot.client) != was.owner {
        return Some(Error(IntegrityFailure, 0));
      }
      var actual := Actual(was.latestRun.value.run, snapshot, restored);
      var changed := was.latestRun.value.state != actual.state || actual.interrupted;
      if AlreadyShown(was, actual) {
        return None;
      }
      var u := UtcNow();
      var a := UtcNow();
      ObservedIsOk(records, index, actual, u, a, world);
      var proposed := records[index := Observed(was, actual, u, a)];
      failed := Commit(proposed);
      if failed.None? {
        StampedBases(proposed, old(records), old(unsaved));
        assert Base(records[index]) == Base(Observed(was, actual, u, a));
        if changed {
          Notify(index, if actual.interrupted then InterruptedRun else RunReached(actual.state));
        }
      }
    }

    /** Asks the run service about the latest run, and records what it answers. */
    method Reconcile(index: nat, restored: bool) returns (failed: Option<Error>)
      requires Valid() && index < |records|
      modifies this`records, this`unsaved, this`store, this`world, this`alive, this`troubles, this`clock,
               this`finished, this`asked
      ensures Valid() && Calm(old(world), world) && old(clock) <= clock
      ensures SameBasesBut(records, old(records), index)
      ensures Reconciled(old(records)[index], records[index])
      ensures failed.None? && records[index].latestRun.Some? && !records[index].needsAttention ==>
                (Unfinished(records[index].latestRun) <==> records[index].latestRun.value.run !in finished)
      // A record without a run is left alone; else one question is asked, and the record shows the answer.
      ensures Onward() && (failed.Some? ==> Excused())
      ensures old(records)[index].latestRun.None? ==> failed.None? && records == old(records) && asked == old(asked)
      ensures failed.None? && old(records)[index].latestRun.Some? ==>
                || Inquired(old(records)[index], records[index], old(asked), asked, restored)
                || (asked == old(asked) && Excused())
      // What a restart finds unfinished is uncertain, and waits for attention.
      ensures failed.None? && restored && Unfinished(records[index].latestRun) ==>
                records[index].needsAttention && records[index].latestRun.value.interrupted
    {
      hide VersionOk, RecordOk, StartsOk, ReleasedOk, AllNamedOnce, StoreOk, Stamped, Flagged, Observed, Interrupted,
        Worn,
        AlreadyShown;
      var was := records[index];
      failed := None;
      if was.latestRun.None? {
        return;
      }
      FinishedIsKnown(records, index, world);
      var stop := was.cancelled && Unfinished(was.latestRun);
      var report := Ask(was.latestRun.value.run, stop, was.owner);
      if report.Known? {
        failed := Observe(index, report.snapshot, restored);
        if failed.None? {
          ShownIsReconciled(was, records[index], Actual(was.latestRun.value.run, report.snapshot, restored));
          KnownIsAnswered(was, records[index], report.snapshot, restored);
        }
        return;
      }
      failed := RecordUnknown(index, report.error, restored);
    }

    /** Nobody can say what became of the run: it is marked where that is for good, and the schedule waits. */
    method RecordUnknown(index: nat, error: Error, restored: bool) returns (failed: Option<Error>)
      requires Valid() && index < |records| && records[index].latestRun.Some?
      requires error.code == SessionNotFound ==> records[index].latestRun.value.run !in finished
      modifies this`records, this`unsaved, this`store, this`world, this`alive, this`troubles, this`clock
      ensures Valid() && OnlySaved(old(world), world) && old(clock) <= clock
      ensures SameBasesBut(records, old(records), index) && Reconciled(old(records)[index], records[index])
      ensures Onward() && (failed.Some? ==> Excused())
      ensures failed.None? ==> Answered(old(records)[index], records[index], Unknown(error), restored)
    {
      hide VersionOk, RecordOk, StartsOk, ReleasedOk, AllNamedOnce, StoreOk, Stamped, Flagged, Observed, Interrupted,
        Worn;
      failed := None;
      if restored || error.code == SessionNotFound {
        failed := MarkInterrupted(index, error);
        if failed.Some? {
          return;
        }
      }
      ghost var marked := records[index];
      if !records[index].needsAttention {
        failed := Block(index, error);
        if failed.None? {
          BlockedIsReconciled(marked, records[index], error);
        }
      }
      if failed.None? {
        UnknownIsAnswered(old(records)[index], marked, records[index], error, restored);
      }
    }

    method MarkInterrupted(index: nat, error: Error) returns (failed: Option<Error>)
      requires Valid() && index < |records| && records[index].latestRun.Some?
      requires error.code == SessionNotFound ==> records[index].latestRun.value.run !in finished
      modifies this`records, this`unsaved, this`store, this`world, this`alive, this`troubles, this`clock
      ensures Valid() && OnlySaved(old(world), world) && old(clock) <= clock
      ensures SameBasesBut(records, old(records), index)
      ensures if failed.None? then Base(records[index]) == Base(Interrupted(old(records)[index], error))
              else records == old(records) && unsaved == old(unsaved) && world == old(world)
      ensures Reconciled(old(records)[index], records[index])
      ensures Onward() && (failed.Some? ==> Excused())
    {
      hide VersionOk, RecordOk, StartsOk, ReleasedOk, AllNamedOnce, StoreOk, Stamped, Flagged, Worn;
      var was := records[index];
      var marked := Interrupted(was, error);
      if marked.latestRun == was.latestRun {
        return None;
      }
      InterruptedIsOk(records, index, error, world);
      var proposed := records[index := marked];
      failed := Commit(proposed);
      if failed.None? {
        StampedBases(proposed, old(records), old(unsaved));
        Notify(index, InterruptedRun);
        assert Base(records[index]) == Base(marked);
      }
    }

    // ----- Dispatch -----

    /** The run service's start. Whatever it answers, the call has been made, if the process lived. */
    method StartRun(index: nat, run: Id, now: Millis) returns (report: Report, ghost started: bool)
      requires Valid() && index < |records| && store == Some(records)
      requires exists was :: AdmittedAt(records[index], was, run, now)
      requires run < nextUuid && forall k | 0 <= k < |world.starts| :: world.starts[k].run < run
      modifies this`finished, this`world, this`alive, this`troubles
      ensures Valid() && Consistent(run, report, finished) && old(troubles) <= troubles
      ensures troubles > old(troubles)
              || (report.Known? && Owner(report.snapshot.project, report.snapshot.client) == records[index].owner)
      ensures var s := Start(records[index].id, run, now, records, old(world).settled, old(world).attention);
              if started then Asked(old(world).(starts := old(world).starts + [s]), world)
              else world == old(world) && report.Unknown?
    {
      MayDie();
      started := alive;
      if !alive {
        return Unknown(Error(Unavailable, 0)), started;
      }
      ghost var s := Start(records[index].id, run, now, records, world.settled, world.attention);
      StartingKeepsStarts(records, index, s, world);
      StartingKeepsVersion(records, index, s, world);
      world := world.(starts := world.starts + [s]);
      report := Answer(run, records[index].owner);
    }

    /** The checks of a dispatch, and fresh identities for it; no record changes. */
    method ClearDispatch(index: nat) returns (failed: Option<Error>, run: Id, now: Millis)
      requires Valid() && index < |records|
      modifies this`world, this`clock, this`nextUuid, this`troubles
      ensures old(troubles) <= troubles
      ensures failed.Some? ==> troubles > old(troubles) || Contested(records, index)
      ensures failed.None? ==> old(clock) <= now <= clock && !Contested(records, index)
      ensures Valid() && old(clock) <= clock && old(nextUuid) <= nextUuid && world == old(world).(nextUuid := nextUuid)
      ensures failed.None? ==> NoOtherUnfinished(records, index) && old(nextUuid) <= run < nextUuid
    {
      ContestedIs(records, index);
      hide StateOk, NoOtherUnfinished, Contested;
      run, now := 0, 0;
      var alone := NoneUnfinishedBeside(records, index);
      if !alone {
        return Some(Error(Conflict, 0)), run, now;
      }
      failed := CurrentAuthority();
      if failed.Some? {
        return;
      }
      var id := NewUuid();
      if id.None? {
        return Some(Error(Unavailable, 0)), run, now;
      }
      run := id.value;
      now := UtcNow();
      var operation := NewUuid();
      if operation.None? {
        return Some(Error(Unavailable, 0)), run, now;
      }
    }

    /** Durable admission: on success the store holds the record with this run, admitted. */
    method Admit(index: nat, run: Id, now: Millis) returns (failed: Option<Error>)
      requires Valid() && index < |records| && Dispatchable(records[index]) && NoOtherUnfinished(records, index) && run < nextUuid
      modifies this`records, this`unsaved, this`store, this`world, this`alive, this`troubles, this`clock
      ensures Valid() && old(clock) <= clock && OnlySaved(old(world), world)
      ensures SameBasesBut(records, old(records), index)
      ensures if failed.None? then store == Some(records) && AdmittedAt(records[index], old(records)[index], run, now)
              else records == old(records) && Excused()
      ensures Onward()
    {
      hide VersionOk, RecordOk, StartsOk, ReleasedOk, AllNamedOnce, StoreOk, Stamped, Flagged, AdmittedAt,
        NoOtherUnfinished,
        AdmittedRecord, Logged, Worn;
      var was := records[index];
      var u := UtcNow();
      var a := UtcNow();
      AdmittedIsOk(records, index, run, now, u, a, world);
      var proposed := records[index := AdmittedRecord(was, run, now, u, a)];
      failed := Commit(proposed);
      if failed.None? {
        StampedBases(proposed, old(records), old(unsaved));
        AdmissionIsStored(was, records[index], run, now, u, a);
      }
    }

    /** Starts the admitted run, and records the answer; a failure leaves the record as admitted. */
    method StartAdmitted(index: nat, run: Id, now: Millis) returns (failed: Option<Error>, ghost started: bool)
      requires Valid() && index < |records| && store == Some(records)
      requires exists was :: AdmittedAt(records[index], was, run, now)
      requires run < nextUuid && forall k | 0 <= k < |world.starts| :: world.starts[k].run < run
      modifies this`records, this`unsaved, this`store, this`world, this`alive, this`troubles, this`clock, this`finished
      ensures Valid() && Grows(old(world), world) && Steady(old(world), world) && old(clock) <= clock
      ensures SameBasesBut(records, old(records), index)
      ensures Onward() && (failed.Some? ==> Excused())
      ensures if started then |world.starts| == |old(world).starts| + 1
                              && var s := world.starts[|old(world).starts|];
                                 s.schedule == old(records)[index].id && s.run == run && s.now == now
              else world.starts == old(world).starts && failed.Some?
      ensures if failed.Some? then records == old(records)
              else SameTask(records[index], old(records)[index]) && records[index].nextAt == old(records)[index].nextAt
                   && records[index].latestRun.Some? && records[index].latestRun.value.run == run
    {
      hide VersionOk, RecordOk, ReleasedOk, AllNamedOnce, StoreOk, Observed, Reconciled, StartsOk, Shows,
        AlreadyShown, Base, Worn;
      failed := None;
      var admitted := records[index];
      var report;
      report, started := StartRun(index, run, now);
      if report.Unknown? {
        return Some(report.error), started;
      }
      failed := Observe(index, report.snapshot, false);
      if failed.None? {
        ShownIsReconciled(admitted, records[index], Actual(run, report.snapshot, false));
        ReconciledKeepsDue(admitted, records[index]);
      }
    }

    /** Whether the dispatch was made, and what failed; a failure leaves the record as it was, or
        showing the admitted run as unfinished. */
    method TryFire(index: nat) returns (failed: Option<Error>, ghost started: bool)
      requires Valid() && index < |records| && Dispatchable(records[index])
      modifies this`records, this`unsaved, this`store, this`world, this`alive, this`troubles, this`clock,
               this`finished, this`nextUuid
      ensures Valid() && Grows(old(world), world) && Steady(old(world), world) && old(clock) <= clock
      ensures SameBasesBut(records, old(records), index)
      ensures !NoOtherUnfinished(old(records), index) ==> !started && records == old(records)
      ensures failed.None? ==> started
      ensures if started then Started(old(world), world, old(records)[index], records[index])
              else world.starts == old(world).starts
      ensures failed.Some? ==> Unfinished(records[index].latestRun) || (!started && records == old(records))
      ensures SameTask(records[index], old(records)[index])
      ensures Onward() && (failed.Some? ==> Excused() || Contested(old(records), index))
      ensures started ==> old(clock) <= world.starts[|old(world).starts|].now
    {
      hide VersionOk, RecordOk, ReleasedOk, AllNamedOnce, StoreOk, Observed, Reconciled,
        StartsOk, NoOtherUnfinished, Dispatchable, Shows, AlreadyShown, Base, Worn, Contested;
      started := false;
      var run, now;
      StartsAreGenerated(world);
      failed, run, now := ClearDispatch(index);
      if failed.Some? {
        return;
      }
      assert old(troubles) <= troubles;
      assert asked == old(asked);
      assert records == old(records);
      assert unsaved == old(unsaved);
      assert forall k | 0 <= k < |unsaved| && unsaved[k] :: (k < |old(unsaved)| && old(unsaved)[k]);
      failed := Admit(index, run, now);
      if failed.Some? {
        return;
      }
      failed, started := StartAdmitted(index, run, now);
    }

    /** The current authority for the schedule's owner: it may refuse, or leave no scope. */
    method CurrentAuthority() returns (refused: Option<Error>)
      modifies this`troubles
      ensures troubles == old(troubles) + if refused.None? then 0 else 1
    {
      refused := Prepare();
    }

    /** Dispatch, and a block when it fails. A failure after the start leaves a schedule that no
        tick dispatches: it waits for attention, or shows its run as unfinished. */
    method Fire(index: nat) returns (r: FireResult, ghost started: bool)
      requires Valid() && index < |records| && Dispatchable(records[index])
      modifies this`records, this`unsaved, this`store, this`world, this`alive, this`troubles, this`clock,
               this`finished, this`nextUuid
      ensures Valid() && Grows(old(world), world) && Steady(old(world), world) && old(clock) <= clock
      ensures SameBasesBut(records, old(records), index)
      ensures !NoOtherUnfinished(old(records), index) ==> !started
      ensures started || world.starts == old(world).starts
      ensures started ==> Started(old(world), world, old(records)[index], records[index])
      ensures r.Fired? ==> started
      ensures r.Refused? ==> records[index].needsAttention && old(records)[index].id in world.attention
      ensures r.Refused? ==> records[index].lastError == Some(r.error)
      ensures r.Threw? ==> Unfinished(records[index].latestRun) || (!started && records == old(records))
      ensures SameTask(records[index], old(records)[index])
      // It fails only where the surroundings did, or beside an unfinished run of the same task.
      ensures Onward() && (r.Threw? ==> Excused()) && (r.Refused? ==> Excused() || Contested(old(records), index))
      ensures started ==> old(clock) <= world.starts[|old(world).starts|].now
    {
      hide VersionOk, RecordOk, StartsOk, ReleasedOk, AllNamedOnce, StoreOk, Started, NoOtherUnfinished, Worn,
        Contested;
      var failed;
      failed, started := TryFire(index);
      if failed.None? {
        return Fired, started;
      }
      ghost var before, then_ := records[index], world;
      var blocked := Block(index, failed.value);
      if blocked.Some? {
        return Threw(blocked.value), started;
      }
      BlockedKeepsRun(before, records[index], failed.value);
      if started {
        StillStarted(old(world), then_, world, old(records)[index], before, records[index]);
      }
      return Refused(failed.value), started;
    }

    // ----- The dispatch loop -----

    method Ready() returns (failed: Option<Error>)
      modifies this`troubles
      ensures old(troubles) <= troubles
      ensures !initialized || closed ==> failed.Some?
      ensures failed.Some? ==> troubles > old(troubles) || !initialized || closed
    {
      failed := Prepare();
      if failed.None? && (!initialized || closed) {
        failed := Some(Error(Unavailable, 0));
      }
    }

    /** One schedule's turn: reconcile, and dispatch if due. Only a due schedule starts a run, and a schedule whose
        time had come, as the reconciled record `seen` shows, starts one, unless it is blocked: by a failure, or
        beside an unfinished run of the same task. */
    method Visit(index: nat) returns (failed: Option<Error>, ghost seen: Record)
      requires Valid() && index < |records|
      modifies this`records, this`unsaved, this`store, this`world, this`alive, this`troubles, this`clock,
               this`finished, this`asked, this`nextUuid
      ensures Valid() && Grows(old(world), world) && Steady(old(world), world) && old(clock) <= clock
      ensures SameBasesBut(records, old(records), index) && SameTask(records[index], old(records)[index])
      ensures Onward() && (failed.Some? ==> Excused())
      ensures world.starts != old(world).starts ==>
                && WasDue(old(records)[index], clock) && |world.starts| == |old(world).starts| + 1
                && world.starts[|old(world).starts|].schedule == old(records)[index].id
      ensures failed.None? ==>
                && Reconciled(old(records)[index], seen)
                && (old(records)[index].latestRun.Some? ==>
                      Inquired(old(records)[index], seen, old(asked), asked, false) || (asked == old(asked) && Excused()))
      ensures failed.None? && Overdue(seen, old(clock)) ==>
                || |world.starts| == |old(world).starts| + 1
                || (records[index].needsAttention && (Excused() || Contested(old(records), index)))
      ensures failed.None? ==> !Overdue(records[index], old(clock))
    {
      hide StateOk, NoOtherUnfinished, Reconciled, Contested, Worn, Inquired;
      seen := records[index];
      failed := Prepare();
      if failed.Some? {
        return;
      }
      failed := Reconcile(index, false);
      seen := records[index];
      SameIdAfter(old(records)[index], seen);
      if failed.Some? {
        return;
      }
      var now := UtcNow();
      if Due(records[index], now) {
        DueBefore(old(records)[index], records[index], now);
        SameContest(records, old(records), index);
        var r, started := Fire(index);
        if r.Threw? {
          return Some(r.error), seen;
        }
      }
    }

    /** One pass over all schedules. A pass that reaches the end leaves no schedule whose time had come when it
        began, and has asked about every run that was on record. */
    method Tick() returns (failed: Option<Error>)
      requires Valid()
      modifies this`records, this`unsaved, this`store, this`world, this`alive, this`troubles, this`clock,
               this`finished, this`asked, this`nextUuid
      ensures Valid() && Grows(old(world), world) && Steady(old(world), world) && old(clock) <= clock
      ensures !initialized || closed ==> failed.Some? && records == old(records) && world == old(world)
      ensures |records| == |old(records)| && forall k | 0 <= k < |records| :: SameTask(records[k], old(records)[k])
      ensures Onward() && (failed.Some? ==> Excused() || !initialized || closed)
      ensures failed.None? ==> forall k | 0 <= k < |records| :: !Overdue(records[k], old(clock))
      ensures failed.None? ==> forall k | 0 <= k < |records| && old(records)[k].latestRun.Some? ::
                AskedAbout(asked[|old(asked)|..], old(records)[k].latestRun.value.run) || Excused()
    {
      hide StateOk, Started, NoOtherUnfinished, Contested, Worn, Inquired, Reconciled, AskedAbout, SameTask, Overdue,
        WasDue,
        Utf8.WellFormed;
      SameTasks(records);
      failed := Ready();
      if failed.Some? {
        return;
      }
      var index := 0;
      while index < |records|
        invariant index <= |records| == |old(records)| && Valid() && Grows(old(world), world) && Steady(old(world), world)
        invariant old(clock) <= clock && Onward()
        invariant forall k | 0 <= k < |records| :: SameTask(records[k], old(records)[k])
        invariant forall k | 0 <= k < index :: !Overdue(records[k], old(clock))
        invariant forall k | index <= k < |records| :: Base(records[k]) == Base(old(records)[k])
        invariant forall k | 0 <= k < index && old(records)[k].latestRun.Some? ::
                    AskedAbout(asked[|old(asked)|..], old(records)[k].latestRun.value.run) || Excused()
      {
        ghost var before, questions, then_ := records, asked, clock;
        ghost var seen;
        failed, seen := Visit(index);
        SameTasksKept(records, before, old(records), index);
        if failed.Some? {
          return;
        }
        NotOverdueKept(records, before, index, old(clock), then_);
        VisitAsked(before[index], old(records)[index], seen, old(asked), questions, asked);
        index := index + 1;
      }
      return None;
    }

    // ----- Life cycle -----

    /** The process ends, at any point, and a new one begins: only the surroundings remain. */
    method Restart()
      requires Valid()
      modifies this`records, this`unsaved, this`initialized, this`alive, this`closed
      ensures Valid() && records == [] && !initialized && alive && !closed
    {
      records, unsaved, initialized, alive, closed := [], NoneUnsaved(), false, true, false;
    }

    method Initialize() returns (failed: Option<Error>)
      requires Valid()
      modifies this`records, this`unsaved, this`store, this`world, this`alive, this`troubles, this`clock,
               this`finished, this`asked, this`initialized
      ensures Valid() && Grows(old(world), world) && Steady(old(world), world)
      ensures world.starts == old(world).starts && old(clock) <= clock
      ensures initialized <==> old(initialized) || failed.None?
      ensures old(initialized) ==> records == old(records) && world == old(world)
      ensures !old(initialized) && failed.None? ==>
                && |records| == (if old(store).None? then 0 else |old(store).value|)
                && forall k | 0 <= k < |records| :: Reconciled(old(store).value[k], records[k])
      ensures old(troubles) <= troubles && (failed.Some? ==> troubles > old(troubles) || Worn(records))
      // Whatever the store shows as unfinished was interrupted, and waits for attention.
      ensures !old(initialized) && failed.None? ==> forall k | 0 <= k < |records| :: UncertainIfUnfinished(records[k])
    {
      hide StateOk, Reconciled, Utf8.WellFormed, Inquired, Worn;
      failed := Prepare();
      if failed.Some? {
        return;
      }
      if initialized {
        return None;
      }
      failed := Prepare();
      if failed.Some? {
        return;
      }
      ghost var loaded := if store.None? then [] else store.value;
      records := if store.None? then [] else store.value;
      LoadingKeepsState(old(records), unsaved, store, world);
      var index := 0;
      while index < |records|
        invariant index <= |records| == |loaded| && Valid() && Grows(old(world), world) && Steady(old(world), world)
        invariant world.starts == old(world).starts
        invariant old(clock) <= clock && !initialized
        invariant old(troubles) <= troubles
        invariant forall k | 0 <= k < index :: Reconciled(loaded[k], records[k]) && UncertainIfUnfinished(records[k])
        invariant forall k | index <= k < |records| :: Base(records[k]) == Base(loaded[k])
      {
        ghost var before := records;
        failed := Reconcile(index, true);
        if failed.Some? {
          return;
        }
        ReconciledByBase(loaded, before, records, index);
        UncertainKept(records, before, index);
        index := index + 1;
      }
      initialized := true;
      return None;
    }

    /** Asks the run service to stop an unfinished run, and records what it answers. */
    method StopRun(index: nat) returns (failed: Option<Error>, report: Report)
      requires Valid() && index < |records| && Unfinished(records[index].latestRun)
      modifies this`records, this`unsaved, this`store, this`world, this`alive, this`troubles, this`clock,
               this`finished, this`asked
      ensures Valid() && Calm(old(world), world) && old(clock) <= clock && Onward()
      ensures SameBasesBut(records, old(records), index)
      ensures asked == old(asked) + [Question(old(records)[index].latestRun.value.run, true, report)] || Excused()
      ensures failed.Some? ==> Excused()
    {
      hide VersionOk, RecordOk, StartsOk, ReleasedOk, AllNamedOnce, StoreOk, Worn, Shows, AlreadyShown, Utf8.WellFormed;
      failed := None;
      report := Ask(records[index].latestRun.value.run, true, records[index].owner);
      if report.Known? {
        failed := Observe(index, report.snapshot, false);
      }
    }

    /** Cancels what is unfinished; nothing is accepted afterwards. */
    method Shutdown()
      requires Valid()
      modifies this`records, this`unsaved, this`store, this`world, this`alive, this`troubles, this`clock,
               this`finished, this`asked, this`closed
      ensures Valid() && Grows(old(world), world) && Steady(old(world), world) && Onward()
      ensures world.starts == old(world).starts && old(clock) <= clock && closed
      // Unless something fails, every unfinished run has been asked to stop.
      ensures !old(closed) && initialized && !Excused() ==>
                forall k | 0 <= k < |old(records)| && Unfinished(old(records)[k].latestRun) ::
                  AskedToStop(asked[|old(asked)|..], old(records)[k].latestRun.value.run)
    {
      hide StateOk, Utf8.WellFormed, Worn, AskedToStop;
      if closed {
        return;
      }
      closed := true;
      var failed := Prepare();
      if failed.Some? || !initialized {
        return;
      }
      var index := 0;
      while index < |records|
        invariant index <= |records| == |old(records)|
        invariant Valid() && Grows(old(world), world) && Steady(old(world), world) && Onward()
        invariant world.starts == old(world).starts
        invariant old(clock) <= clock && closed
        invariant forall k | index <= k < |records| :: Base(records[k]) == Base(old(records)[k])
        invariant forall k | 0 <= k < index && Unfinished(old(records)[k].latestRun) ::
                    AskedToStop(asked[|old(asked)|..], old(records)[k].latestRun.value.run) || Excused()
      {
        SameRunByBase(records[index], old(records)[index]);
        ghost var questions := asked;
        if Unfinished(records[index].latestRun) {
          var report;
          failed, report := StopRun(index);
          if failed.Some? {
            return;
          }
          AskedHere(old(asked), questions, old(records)[index].latestRun.value.run, true, report);
        }
        AskedStays(old(asked), questions, asked);
        index := index + 1;
      }
    }

    // ----- Requests of callers -----

    method Find(id: Id, owner: Owner) returns (found: Option<nat>)
      ensures found.Some? ==> found.value < |records| && records[found.value].id == id && records[found.value].owner == owner
      ensures found.None? ==> forall k | 0 <= k < |records| :: !(records[k].id == id && records[k].owner == owner)
    {
      var k := 0;
      while k < |records|
        invariant k <= |records| && forall j | 0 <= j < k :: !(records[j].id == id && records[j].owner == owner)
      {
        if records[k].id == id && records[k].owner == owner {
          return Some(k);
        }
        k := k + 1;
      }
      return None;
    }

    method AnyActive(owner: Owner, reference: Text) returns (active: bool)
      ensures active <==> HasActive(records, owner, reference)
    {
      var k := 0;
      while k < |records|
        invariant k <= |records|
        invariant forall j | 0 <= j < k :: !(records[j].owner == owner && records[j].reference == reference && Active(records[j]))
      {
        if records[k].owner == owner && records[k].reference == reference && Active(records[k]) {
          return true;
        }
        k := k + 1;
      }
      return false;
    }

    /** Whether a new schedule may be made for the owned task, and when it is due. */
    method ClearCreation(owner: Owner, reference: Text, timing: Timing) returns (failed: Option<Error>, now: Millis, due: Millis)
      modifies this`clock, this`troubles
      ensures old(clock) <= now == clock && old(troubles) <= troubles
      ensures HasActive(records, owner, reference) ==> failed.Some?
      ensures failed.None? ==> |records| < MAX_SCHEDULES && FirstDue(timing, now) == Some(due)
      ensures failed.Some? ==>
                || troubles > old(troubles) || !initialized || closed || |records| >= 32
                || HasActive(records, owner, reference) || BadTiming(timing, clock)
    {
      due := 0;
      now := UtcNow();
      failed := Ready();
      if failed.Some? {
        return;
      }
      if |records| + 1 > MAX_SCHEDULES {
        return Some(Error(PayloadTooLarge, 0)), now, due;
      }
      var active := AnyActive(owner, reference);
      if active {
        return Some(Error(Conflict, 0)), now, due;
      }
      var first := FirstDue(timing, now);
      if first.None? {
        return Some(Error(InvalidRequest, 0)), now, due;
      }
      failed := Prepare();
      due := first.value;
    }

    method AppendRecord(r: Record) returns (failed: Option<Error>)
      requires Valid() && MayCommit(records + [r], records, world)
      modifies this`records, this`unsaved, this`store, this`world, this`alive, this`troubles, this`clock
      ensures Valid() && OnlySaved(old(world), world) && old(clock) <= clock
      ensures if failed.Some? then records == old(records)
              else |records| == |old(records)| + 1 && SameBases(records, old(records) + [r])
      ensures Onward() && (failed.Some? ==> Excused())
    {
      hide VersionOk, RecordOk, StartsOk, ReleasedOk, AllNamedOnce, StoreOk, Stamped, Flagged, Worn;
      var proposed := records + [r];
      failed := Commit(proposed);
      if failed.None? {
        StampedBases(proposed, old(records), old(unsaved));
        Notify(|records| - 1, Created);
      }
    }

    method Create(owner: Owner, reference: Text, spec: nat, authorization: Text, timing: Timing) returns (failed: Option<Error>)
      requires Valid()
      modifies this`records, this`unsaved, this`store, this`world, this`alive, this`troubles, this`clock, this`nextUuid
      ensures Valid() && Grows(old(world), world) && Steady(old(world), world)
      ensures world.starts == old(world).starts && old(clock) <= clock
      ensures HasActive(old(records), owner, reference) ==> failed.Some?
      ensures if failed.Some? then records == old(records)
              else Appended(records, old(records), owner, reference, spec, authorization, timing, old(nextUuid), old(clock))
      // It is refused only for one of these causes.
      ensures Onward()
      ensures failed.Some? ==>
                || Excused() || !initialized || closed || |records| >= 32
                || HasActive(old(records), owner, reference) || BadTiming(timing, clock)
    {
      hide HasActive, VersionOk, RecordOk, StartsOk, ReleasedOk, AllNamedOnce, StoreOk, Logged, IntervalOk, Worn,
        BadTiming,
        MayCommit, CreatedAt, SameBases, FirstDue, NewRecord, Utf8.WellFormed;
      var now, due;
      failed, now, due := ClearCreation(owner, reference, timing);
      if failed.Some? {
        return;
      }
      ghost var before := world;
      var id := NewUuid();
      if id.None? {
        return Some(Error(Unavailable, 0));
      }
      var u := UtcNow();
      var a := UtcNow();
      var r := Logged(NewRecord(id.value, owner, reference, spec, authorization, timing, due, now), Created, u, a);
      LoggedNew(id.value, owner, reference, spec, authorization, timing, due, now, u, a);
      CreatedIsOk(records, r, before, world);
      assert CreatedAt(r, owner, reference, spec, authorization, timing, old(nextUuid), now);
      failed := AppendRecord(r);
    }

    method Cancel(id: Id, owner: Owner, authorization: Text) returns (failed: Option<Error>)
      requires Valid()
      modifies this`records, this`unsaved, this`store, this`world, this`alive, this`troubles, this`clock,
               this`finished, this`asked
      ensures Valid() && Grows(old(world), world) && Steady(old(world), world)
      ensures world.starts == old(world).starts && old(clock) <= clock
      ensures failed.None? ==>
                exists k | 0 <= k < |records| == |old(records)| ::
                  && old(records)[k].id == id && old(records)[k].owner == owner && SameBasesBut(records, old(records), k)
                  && CancelledFrom(records[k], old(records)[k], authorization)
                  && (Unfinished(old(records)[k].latestRun) ==>
                        && old(asked) <= asked
                        && (AskedToStop(asked[|old(asked)|..], old(records)[k].latestRun.value.run) || Excused()))
      ensures Onward()
      ensures failed.Some? ==> Excused() || !initialized || closed || !Owns(old(records), owner, id)
    {
      hide StateOk, Utf8.WellFormed, Worn, Inquired, AskedToStop, Reconciled, CancelledFrom;
      failed := Ready();
      if failed.Some? {
        return;
      }
      var found := Find(id, owner);
      if found.None? {
        return Some(Error(RecordNotFound, 0));
      }
      var index := found.value;
      failed := RequestCancel(index, authorization);
      if failed.Some? {
        return;
      }
      ghost var requested := records[index];
      failed := Reconcile(index, false);
      if failed.None? {
        ghost var reconciled := records[index];
        CancelAsks(old(records)[index], requested, records[index], authorization, old(asked), asked);
        Notify(index, CancelRequested);
        StaysCancelled(requested, reconciled, records[index], old(records)[index], authorization);
      }
    }

    /** Marks the schedule as cancelled, durably. */
    method RequestCancel(index: nat, authorization: Text) returns (failed: Option<Error>)
      requires Valid() && index < |records|
      modifies this`records, this`unsaved, this`store, this`world, this`alive, this`troubles, this`clock
      ensures Valid() && OnlySaved(old(world), world) && old(clock) <= clock
      ensures SameBasesBut(records, old(records), index)
      ensures failed.None? ==>
                && CancelledFrom(records[index], old(records)[index], authorization)
                && records[index].latestRun == old(records)[index].latestRun
      ensures Onward() && (failed.Some? ==> Excused())
    {
      hide VersionOk, RecordOk, StartsOk, ReleasedOk, AllNamedOnce, StoreOk, Stamped, Flagged, Utf8.WellFormed, Logged,
        CancelRequestedRecord, Worn, CancelledFrom;
      var u := UtcNow();
      var a := UtcNow();
      CancelledIsOk(records, index, authorization, u, a, world);
      var proposed := records[index := CancelRequestedRecord(records[index], authorization, u, a)];
      failed := Commit(proposed);
      if failed.None? {
        StampedBases(proposed, old(records), old(unsaved));
        CancelledByBase(proposed[index], records[index], old(records)[index], authorization);
      }
    }

    /** The explicit authorization of another attempt. An unfinished run is given up only if the
        record shows it interrupted and asks for attention; it stays visible in the history. Nothing is
        given up when the list reached neither memory nor the store. */
    method Authorize(index: nat, authorization: Text) returns (failed: Option<Error>)
      requires Valid() && index < |records| && !records[index].cancelled
      requires Unfinished(records[index].latestRun) ==>
                 records[index].needsAttention && records[index].latestRun.value.interrupted
      modifies this`records, this`unsaved, this`store, this`world, this`alive, this`troubles, this`clock
      ensures Valid() && old(clock) <= clock && SameBasesBut(records, old(records), index)
      ensures if failed.Some? && store == old(store) then world == old(world)
              else world == old(world).(settled := GivenUp(old(world).settled, old(records)[index]), attention := world.attention)
      ensures old(world).attention - {old(records)[index].id} <= world.attention
      ensures failed.Some? ==> records == old(records)
      ensures failed.None? ==>
                && Dispatchable(records[index]) && records[index].authorization == authorization
                && GaveUp(records[index], old(records)[index])
      ensures records[index].id == old(records)[index].id && SameOwner(records[index], old(records)[index])
      ensures Onward() && (failed.Some? ==> Excused())
    {
      hide VersionOk, RecordOk, StartsOk, ReleasedOk, AllNamedOnce, Stamped, Flagged, Utf8.WellFormed, Authorized, Worn;
      var was := records[index];
      AuthorizingKeepsState(records, unsaved, store, world, index);
      ghost var before := world;
      world := world.(settled := GivenUp(world.settled, was), attention := world.attention - {was.id});
      var u := UtcNow();
      var a := UtcNow();
      AuthorizedIsOk(records, index, authorization, u, a, before, world);
      hide StoreOk;
      var proposed := records[index := Authorized(was, authorization, u, a)];
      failed := Commit(proposed);
      if failed.None? {
        StampedBases(proposed, old(records), old(unsaved));
        assert Base(records[index]) == Base(proposed[index]);
        DispatchableByBase(proposed[index], records[index]);
        AuthorizedGaveUp(was, records[index], authorization, u, a);
      } else if store == old(store) {
        world := before;
      }
    }

    /** The caller's schedule, once reconciled. */
    method Locate(id: Id, owner: Owner) returns (failed: Option<Error>, index: nat)
      requires Valid()
      modifies this`records, this`unsaved, this`store, this`world, this`alive, this`troubles, this`clock,
               this`finished, this`asked
      ensures Valid() && Calm(old(world), world) && old(clock) <= clock && Onward()
      ensures failed.None? ==>
                && SameBasesBut(records, old(records), index) && index < |records|
                && old(records)[index].id == id && old(records)[index].owner == owner
                && Reconciled(old(records)[index], records[index])
      ensures failed.Some? ==> Excused() || !initialized || closed || !Owns(old(records), owner, id)
    {
      hide StateOk, Reconciled, Utf8.WellFormed, Worn, Inquired;
      index := 0;
      failed := Ready();
      if failed.Some? {
        return;
      }
      var found := Find(id, owner);
      if found.None? {
        return Some(Error(RecordNotFound, 0)), index;
      }
      index := found.value;
      failed := Reconcile(index, false);
    }

    method RunNow(id: Id, owner: Owner, authorization: Text) returns (failed: Option<Error>)
      requires Valid()
      modifies this`records, this`unsaved, this`store, this`world, this`alive, this`troubles, this`clock,
               this`finished, this`asked, this`nextUuid
      ensures Valid() && Grows(old(world), world) && old(clock) <= clock
      ensures failed.None? ==> |world.starts| == |old(world).starts| + 1
      ensures world.starts == old(world).starts
              || (|world.starts| == |old(world).starts| + 1 && world.starts[|old(world).starts|].schedule == id)
      ensures old(world).attention - {id} <= world.attention
      ensures world.settled <= old(world).settled + finished + LatestRuns(old(records), id)
      ensures failed.None? ==>
                exists k | 0 <= k < |records| == |old(records)| ::
                  && old(records)[k].id == id && old(records)[k].owner == owner && SameBasesBut(records, old(records), k)
                  && records[k].id == id && records[k].authorization == authorization
      // It is refused only for one of these causes.
      ensures Onward()
      ensures failed.Some? ==>
                || Excused() || !initialized || closed || !Owns(old(records), owner, id)
                || exists k | 0 <= k < |records| == |old(records)| ::
                     && old(records)[k].id == id && old(records)[k].owner == owner
                     && (RunStands(records[k]) || Contested(old(records), k))
    {
      hide StateOk, Utf8.WellFormed, Reconciled, Worn, Contested, LatestRuns, GivenUp;
      var index;
      failed, index := Locate(id, owner);
      if failed.Some? {
        return;
      }
      SameIdAfter(old(records)[index], records[index]);
      SameContest(records, old(records), index);
      GivenUpIsListed(old(records), index, records[index], world.settled);
      if records[index].cancelled {
        return Some(Error(Conflict, 0));
      }
      if Unfinished(records[index].latestRun) && (!records[index].needsAttention || !records[index].latestRun.value.interrupted) {
        return Some(Error(Conflict, 0));
      }
      ghost var reconciled := records;
      failed := Authorize(index, authorization);
      if failed.Some? {
        return;
      }
      ContestedByBase(records, reconciled, index);
      var r, started := Fire(index);
      return if r.Fired? then None else Some(r.error);
    }

    // ----- Reading -----

    /** A saved record is shown: its revision names it from now on. */
    ghost method Release(index: nat)
      requires Valid() && index < |records| && !unsaved[index]
      modifies this`world
      ensures Valid() && Grows(old(world), world)
      ensures world == old(world).(released := old(world).released[NameOf(records[index]) := records[index]])
    {
      ReleasingKeepsState(records, unsaved, store, world, index);
      world := world.(released := world.released[NameOf(records[index]) := records[index]]);
    }

    /** One line of a list: the reconciled record's identity, and its revision if it is saved. */
    method Summarize(index: nat) returns (failed: Option<Error>, summary: (Id, Option<nat>))
      requires Valid() && index < |records|
      modifies this`records, this`unsaved, this`store, this`world, this`alive, this`troubles, this`clock,
               this`finished, this`asked
      ensures Valid() && Grows(old(world), world) && Steady(old(world), world)
      ensures world.starts == old(world).starts && old(clock) <= clock && |records| == |old(records)|
      ensures forall k | 0 <= k < |records| ::
                records[k].id == old(records)[k].id && records[k].owner == old(records)[k].owner
      ensures summary.0 == old(records)[index].id
      ensures failed.None? && summary.1.Some? ==> (summary.0, summary.1.value) in world.released
      ensures failed.None? ==> if unsaved[index] then summary.1.None? else summary.1 == Some(records[index].revision)
      ensures Onward() && (failed.Some? ==> Excused())
    {
      hide VersionOk, RecordOk, StartsOk, ReleasedOk, AllNamedOnce, StoreOk, Utf8.WellFormed, Reconciled, Worn,
        Inquired;
      summary := (records[index].id, None);
      ghost var before := records;
      failed := Reconcile(index, false);
      SameTermsKept(before, records, index);
      if failed.None? && !unsaved[index] {
        Release(index);
        summary := (records[index].id, Some(records[index].revision));
      }
    }

    /** The summaries of the caller's schedules, with a revision where the record can be paged. */
    method List(owner: Owner) returns (failed: Option<Error>, summaries: seq<(Id, Option<nat>)>)
      requires Valid()
      modifies this`records, this`unsaved, this`store, this`world, this`alive, this`troubles, this`clock,
               this`finished, this`asked
      ensures Valid() && Grows(old(world), world) && Steady(old(world), world)
      ensures world.starts == old(world).starts && old(clock) <= clock
      ensures forall s | s in summaries && s.1.Some? :: (s.0, s.1.value) in world.released
      ensures failed.None? ==> Names(summaries) == Owned(old(records), owner)
      // A revision is missing only where a notification could not be saved, and the list only for a cause.
      ensures failed.None? && !Excused() && (forall k | 0 <= k < |old(unsaved)| :: !old(unsaved)[k]) ==>
                forall s | s in summaries :: s.1.Some?
      ensures Onward() && (failed.Some? ==> Excused() || !initialized || closed)
    {
      hide VersionOk, RecordOk, StartsOk, ReleasedOk, AllNamedOnce, StoreOk, Utf8.WellFormed, Reconciled, Worn, Owned,
        Names;
      summaries := [];
      failed := Ready();
      if failed.Some? {
        return;
      }
      var index := 0;
      NoneOwned(owner);
      while index < |records|
        invariant index <= |records| == |old(records)| && Valid() && Grows(old(world), world) && Steady(old(world), world)
        invariant world.starts == old(world).starts
        invariant old(clock) <= clock
        invariant forall k | 0 <= k < |records| ::
                    records[k].id == old(records)[k].id && records[k].owner == old(records)[k].owner
        invariant forall s | s in summaries && s.1.Some? :: (s.0, s.1.value) in world.released
        invariant Names(summaries) == Owned(old(records)[..index], owner) && Onward()
        invariant !Excused() && (forall k | 0 <= k < |old(unsaved)| :: !old(unsaved)[k]) ==>
                    forall s | s in summaries :: s.1.Some?
      {
        OwnedNext(old(records), owner, index);
        if records[index].owner == owner {
          var summary;
          failed, summary := Summarize(index);
          if failed.Some? {
            return;
          }
          NamesNext(summaries, summary);
          summaries := summaries + [summary];
        }
        index := index + 1;
      }
      assert old(records)[..index] == old(records);
      return None, summaries;
    }

    /** One page of a record's text, from `offset`, under the revision that names the record. */
    method ReadPage(id: Id, owner: Owner, offset: nat, maximum: nat, revision: Option<nat>) returns (r: PageReply)
      requires Valid()
      modifies this`records, this`unsaved, this`store, this`world, this`alive, this`troubles, this`clock,
               this`finished, this`asked
      ensures Valid() && Grows(old(world), world) && Steady(old(world), world)
      ensures world.starts == old(world).starts && old(clock) <= clock
      ensures r.PageOk? ==>
                && (id, r.revision) in world.released && (revision.Some? ==> revision.value == r.revision)
                && IsPageOf(encode(world.released[(id, r.revision)]), offset, maximum, r)
      ensures maximum == 0 || maximum > MAX_PAGE || (offset != 0 && revision.None?) ==> r.PageFailed?
      // It is refused only for one of these causes; a maximum of four bytes has room for any character.
      ensures Onward()
      ensures r.PageFailed? ==>
                || Excused() || !initialized || closed || !Owns(old(records), owner, id)
                || offset > 8 * 1024 * 1024 || maximum < 4 || maximum > 32 * 1024 || (offset != 0 && revision.None?)
                || exists k | 0 <= k < |records| == |old(records)| ::
                     && records[k].id == id && old(records)[k].owner == owner
                     && (unsaved[k] || (revision.Some? && revision.value != records[k].revision)
                         || !IsBoundary(encode(records[k]), offset))
    {
      hide VersionOk, RecordOk, StartsOk, ReleasedOk, AllNamedOnce, StoreOk, Reconciled, Utf8.WellFormed, Utf8.IsTail,
        Worn;
      var failed, index := Locate(id, owner);
      if failed.Some? {
        return PageFailed(failed.value);
      }
      SameIdAfter(old(records)[index], records[index]);
      if unsaved[index] {
        return PageFailed(Error(Conflict, 0));
      }
      if offset > MAX_OFFSET || maximum > MAX_PAGE || maximum == 0 || (offset != 0 && revision.None?) {
        return PageFailed(Error(InvalidRequest, 0));
      }
      if revision.Some? && revision.value != records[index].revision {
        return PageFailed(Error(Conflict, 0));
      }
      var encoded := encode(records[index]);
      if !IsBoundary(encoded, offset) {
        return PageFailed(Error(InvalidRequest, 0));
      }
      var part := Page(encoded[offset..], maximum);
      Utf8.CutAtBoundary(encoded, offset);
      PageOfText(encoded[offset..], maximum, part);
      if part == [] && offset < |encoded| {
        return PageFailed(Error(InvalidRequest, 0));
      }
      Release(index);
      return PageOk(records[index].revision, part, |encoded|, offset + |part| == |encoded|);
    }
  }
}
