// Whole runs of the scheduler: any requests in any order, with the process ending at any point.

module ScheduleRuns {
  import opened Options
  import opened ScheduleModel
  import opened ScheduleContracts
  import opened SchedulePaging
  import S = Scheduler
  import Utf8

  datatype Request =
    | Dispatch
    | Make(owner: Owner, reference: Text, spec: nat, authorization: Text, timing: Timing)
    | Stop(id: Id, owner: Owner, authorization: Text)
    | RunNow(id: Id, owner: Owner, authorization: Text)
    | Summaries(owner: Owner)
    | Page(id: Id, owner: Owner, offset: nat, maximum: nat, revision: Option<nat>)
    | StartUp
    | ShutDown
    | NewProcess

  method Perform(s: S.Scheduler, request: Request)
    requires s.Valid()
    modifies s
    ensures s.Valid() && Grows(old(s.world), s.world)
    ensures |s.world.starts| > |old(s.world.starts)| ==> request.Dispatch? || request.RunNow?
    // Only an explicit run-now answers the need for attention, for its own schedule, or settles a
    // run that the run service has not reported as finished.
    ensures if request.RunNow? then old(s.world.attention) - {request.id} <= s.world.attention
            else Steady(old(s.world), s.world)
  {
    hide Utf8.WellFormed, StateOk;
    match request
    case Dispatch => var _ := s.Tick();
    case Make(owner, reference, spec, authorization, timing) => var _ := s.Create(owner, reference, spec, authorization, timing);
    case Stop(id, owner, authorization) => var _ := s.Cancel(id, owner, authorization);
    case RunNow(id, owner, authorization) => var _ := s.RunNow(id, owner, authorization);
    case Summaries(owner) => var _, _ := s.List(owner);
    case Page(id, owner, offset, maximum, revision) => var _ := s.ReadPage(id, owner, offset, maximum, revision);
    case StartUp => var _ := s.Initialize();
    case ShutDown => s.Shutdown();
    case NewProcess => s.Restart();
  }

  method Serve(s: S.Scheduler, requests: seq<Request>)
    requires s.Valid()
    modifies s
    ensures s.Valid() && Grows(old(s.world), s.world)
  {
    for i := 0 to |requests|
      invariant s.Valid() && Grows(old(s.world), s.world)
    {
      Perform(s, requests[i]);
    }
  }

  /** No two schedules of one owner and reference have an unfinished run each. */
  predicate AtMostOneEach(v: seq<Record>) {
    forall i, j | 0 <= i < |v| && 0 <= j < |v| && i != j && v[i].owner == v[j].owner && v[i].reference == v[j].reference ::
      || v[i].latestRun.None? || v[i].latestRun.value.state in {Completed, Failed, Cancelled}
      || v[j].latestRun.None? || v[j].latestRun.value.state in {Completed, Failed, Cancelled}
  }

  lemma AtMostOneIs(v: seq<Record>)
    ensures OneUnfinished(v) <==> AtMostOneEach(v)
  {
    if !OneUnfinished(v) {
      var i, j :| 0 <= i < j < |v| && SameOwner(v[i], v[j]) && Unfinished(v[i].latestRun) && Unfinished(v[j].latestRun);
      assert v[i].latestRun.value.state !in {Completed, Failed, Cancelled};
      assert v[j].latestRun.value.state !in {Completed, Failed, Cancelled};
    }
    if OneUnfinished(v) {
      forall i, j | 0 <= i < |v| && 0 <= j < |v| && i != j && v[i].owner == v[j].owner && v[i].reference == v[j].reference
        ensures !Unfinished(v[i].latestRun) || !Unfinished(v[j].latestRun)
      {
        if i < j {
          assert SameOwner(v[i], v[j]);
        } else {
          assert SameOwner(v[j], v[i]);
        }
      }
    }
  }

  /** Every run of the scheduler from its first process, whatever is asked of it, whatever its
      surroundings answer, and whenever its processes end. */
  method RunFromTheStart(encode: Record -> seq<Utf8.byte>, requests: seq<Request>) returns (s: S.Scheduler)
    requires forall r :: Utf8.WellFormed(encode(r))
    ensures fresh(s) && s.Valid()
    // A run is started once, and only while the store shows it as just admitted, for a schedule
    // that waits for no attention, with the due time cleared or in the future.
    ensures forall j, k | 0 <= j < k < |s.world.starts| :: s.world.starts[j].run != s.world.starts[k].run
    ensures forall k | 0 <= k < |s.world.starts| :: StartOk(s.world.starts[k])
    // A schedule is dispatched again only after the run service reported every earlier run as
    // finished, or an explicit run-now gave it up.
    ensures forall j, k | 0 <= j < k < |s.world.starts| && s.world.starts[j].schedule == s.world.starts[k].schedule ::
              s.world.starts[j].run in s.world.starts[k].settledBefore
    // In memory and in the store, an owned task has at most one schedule with an unfinished run.
    ensures AtMostOneEach(s.records) && (s.store.Some? ==> AtMostOneEach(s.store.value))
  {
    s := new S.Scheduler(encode);
    Serve(s, requests);
    AtMostOneIs(s.records);
    if s.store.Some? {
      AtMostOneIs(s.store.value);
    }
  }

  // ----- Reading a record page by page -----

  lemma PageExtends(text: seq<Utf8.byte>, offset: nat, maximum: nat, r: PageReply)
    requires IsPageOf(text, offset, maximum, r)
    ensures offset + |r.part| <= |text| && text[..offset] + r.part == text[..offset + |r.part|]
    ensures r.eof ==> text[..offset + |r.part|] == text
  {
    assert text[offset..][..|r.part|] == r.part;
  }

  /** With room for one character, a page that is not the last comes within four bytes of its
      maximum, and ends where the next may begin. */
  lemma PagesAdvance(text: seq<Utf8.byte>, offset: nat, maximum: nat, r: PageReply)
    requires Utf8.WellFormed(text) && IsPageOf(text, offset, maximum, r) && maximum >= 4
    ensures r.eof || |r.part| + 4 > maximum
    ensures IsBoundary(text, offset + |r.part|)
  {
    Utf8.CutAtBoundary(text, offset);
    PageOfText(text[offset..], maximum, r.part);
  }

  /** A reader collects pages of its own choice of sizes under the first page's revision, while
      other requests and process ends happen between its reads. If it reaches the end, it has
      exactly the text of the one record that the revision names. */
  method CollectPages(s: S.Scheduler, id: Id, owner: Owner, sizes: seq<nat>, meanwhile: seq<seq<Request>>)
    returns (complete: bool, text: seq<Utf8.byte>, revision: nat)
    requires s.Valid() && |sizes| == |meanwhile|
    modifies s
    ensures s.Valid() && Grows(old(s.world), s.world)
    ensures complete ==> (id, revision) in s.world.released && text == s.encode(s.world.released[(id, revision)])
  {
    hide StateOk, Utf8.WellFormed;
    text, revision := [], 0;
    var begun := false;
    for i := 0 to |sizes|
      invariant s.Valid() && Grows(old(s.world), s.world)
      invariant !begun ==> text == []
      invariant begun ==> (id, revision) in s.world.released && text <= s.encode(s.world.released[(id, revision)])
    {
      ghost var offset := |text|;
      var r := s.ReadPage(id, owner, |text|, sizes[i], if begun then Some(revision) else None);
      if r.PageFailed? {
        return false, text, revision;
      }
      revision, begun := r.revision, true;
      ghost var whole := s.encode(s.world.released[(id, revision)]);
      PageExtends(whole, offset, sizes[i], r);
      assert whole[..offset] == text;
      text := text + r.part;
      if r.eof {
        return true, text, revision;
      }
      Serve(s, meanwhile[i]);
    }
    return false, text, revision;
  }

  // ----- Where the ownership rule would fail -----

  /** A finished run that the run service forgets: its record becomes unfinished again, and the
      rule of one unfinished run for each owned task breaks exactly when another schedule of that
      task has an unfinished run. */
  lemma ForgottenFinishedRun(v: seq<Record>, i: nat, e: Error)
    requires DistinctIds(v) && OneUnfinished(v) && i < |v| && v[i].latestRun.Some?
    ensures OneUnfinished(v[i := Interrupted(v[i], e)]) <==>
            !(e.code == SessionNotFound && IsTerminal(v[i].latestRun.value.state) && !NoOtherUnfinished(v, i))
  {
    var v' := v[i := Interrupted(v[i], e)];
    assert forall j | 0 <= j < |v| && j != i :: v'[j] == v[j];
    assert SameOwner(v'[i], v[i]);
    if e.code == SessionNotFound && IsTerminal(v[i].latestRun.value.state) && !NoOtherUnfinished(v, i) {
      var j :| 0 <= j < |v| && j != i && SameOwner(v[i], v[j]) && Unfinished(v[j].latestRun);
      assert Unfinished(v'[i].latestRun) && Unfinished(v'[j].latestRun);
      if i < j {
        assert SameOwner(v'[i], v'[j]);
      } else {
        assert SameOwner(v'[j], v'[i]);
      }
    }
  }

  function OneShot(owner: Owner, reference: Text, id: Id, at: Millis): Record {
    NewRecord(id, owner, reference, 0, 0, AtTime(at), at, 0)
  }

  /** A schedule that ran once, as run 1, and finished. */
  function RanOnce(owner: Owner, reference: Text, answer: Snapshot): Record {
    Observed(AdmittedRecord(OneShot(owner, reference, 0, 10), 1, 10, 10, 10), Actual(1, answer, false), 20, 20)
  }

  /** A later schedule of the same task, just admitted as run 3. */
  function RunsAgain(owner: Owner, reference: Text): Record {
    AdmittedRecord(OneShot(owner, reference, 2, 30), 3, 30, 30, 30)
  }

  lemma RanOnceIs(owner: Owner, reference: Text, answer: Snapshot)
    requires answer.state == Completed && !answer.workerInterrupted
    ensures var r := RanOnce(owner, reference, answer);
            && r.id == 0 && r.owner == owner && r.reference == reference && r.interval.None? && !r.needsAttention
            && r.latestRun == Some(Actual(1, answer, false)) && !Active(r)
  {
    hide Logged, WithHistory;
    LoggedKeeps();
  }

  lemma RunsAgainIs(owner: Owner, reference: Text)
    ensures var r := RunsAgain(owner, reference);
            && r.id == 2 && r.owner == owner && r.reference == reference && r.interval.None? && !r.needsAttention
            && r.latestRun == Some(RunInfo(3, Admitted, false, 0, None, None))
  {
    hide Logged;
    LoggedKeeps();
  }

  /** Logging and keeping a run in the history change nothing else. */
  lemma LoggedKeeps()
    ensures forall r: Record, e, u, a :: Logged(r, e, u, a) == r.(updatedAt := u, logs := Logged(r, e, u, a).logs)
    ensures forall r: Record, run :: WithHistory(r, run) == r.(history := WithHistory(r, run).history)
  {
  }

  /** What two such records are to every invariant of the scheduler, and what is left of it when the run
      service no longer knows the first run. */
  lemma FinishedAndRunning(first: Record, second: Record, w: World, e: Error)
    requires first.id == 0 && second.id == 2 && SameOwner(first, second) && first.interval.None? && second.interval.None?
    requires !first.needsAttention && !second.needsAttention && e.code == SessionNotFound
    requires first.latestRun.Some? && first.latestRun.value.run == 1 && IsTerminal(first.latestRun.value.state)
    requires second.latestRun.Some? && second.latestRun.value.run == 3 && !IsTerminal(second.latestRun.value.state)
    requires w.nextUuid == 4 && w.finished == w.settled == {1} && w.attention == {}
    requires forall k | 0 <= k < |w.starts| ::
               (w.starts[k].schedule == 0 && w.starts[k].run == 1) || (w.starts[k].schedule == 2 && w.starts[k].run == 3)
    ensures VersionOk([first, second], w) && !OneUnfinished([Interrupted(first, e), second])
  {
    var v := [first, second];
    assert SameOwner(v[0], v[1]) && Unfinished(v[1].latestRun);
    assert forall k | 0 <= k < 2 :: RecordOk(v[k], w);
    ForgottenFinishedRun(v, 0, e);
    assert v[0 := Interrupted(first, e)] == [Interrupted(first, e), second];
  }

  /** Such records: a task ran once and finished, so that another schedule of it could be made, whose run is
      unfinished; then the run service no longer knows the first run. Until then every invariant holds. */
  lemma ForgottenRunBreaksTheRule(owner: Owner, reference: Text, answer: Snapshot, e: Error, starts: seq<Start>)
    returns (w: World)
    requires answer.state == Completed && !answer.workerInterrupted && e.code == SessionNotFound
    requires forall k | 0 <= k < |starts| ::
               (starts[k].schedule == 0 && starts[k].run == 1) || (starts[k].schedule == 2 && starts[k].run == 3)
    ensures var first, second := RanOnce(owner, reference, answer), RunsAgain(owner, reference);
            && w.starts == starts && !Active(first) && VersionOk([first, second], w) && first.latestRun.Some?
            && !OneUnfinished([Interrupted(first, e), second])
  {
    hide RanOnce, RunsAgain, OneUnfinished, VersionOk, Interrupted;
    RanOnceIs(owner, reference, answer);
    RunsAgainIs(owner, reference);
    w := World({1}, 4, {1}, {}, map[], starts);
    FinishedAndRunning(RanOnce(owner, reference, answer), RunsAgain(owner, reference), w, e);
  }
}
