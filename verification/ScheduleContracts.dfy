// What contracts of the scheduler say about records, the store and the facts so far, and why each
// of its operations keeps the invariants.

module ScheduleContracts {
  import opened Options
  import opened ScheduleModel
  import opened SchedulePaging
  import Utf8

  // ----- What contracts say about records -----

  /** A record but for its revision and its last notification. */
  function Base(r: Record): Record {
    r.(revision := 0, lastNotification := None)
  }

  predicate SameBases(v: seq<Record>, w: seq<Record>) {
    |v| == |w| && forall k | 0 <= k < |v| :: Base(v[k]) == Base(w[k])
  }

  predicate SameBasesBut(v: seq<Record>, w: seq<Record>, i: nat) {
    |v| == |w| && forall k | 0 <= k < |v| && k != i :: Base(v[k]) == Base(w[k])
  }

  /** `r` is `plan`, logged at some time. */
  ghost predicate LoggedFrom(r: Record, plan: Record, event: Event) {
    exists u, a :: Base(r) == Base(Logged(plan, event, u, a))
  }

  /** What every operation leaves behind: more facts, and no start but those listed. */
  ghost predicate Grows(w: World, w': World) {
    && w.finished <= w'.finished && w.nextUuid <= w'.nextUuid && w.settled <= w'.settled
    && w.starts <= w'.starts
    && (forall key | key in w.released :: key in w'.released && w'.released[key] == w.released[key])
  }

  /** A proposed list keeps the order and revisions of the current one and may add a new record. */
  ghost predicate MayCommit(proposed: seq<Record>, current: seq<Record>, w: World) {
    && VersionOk(proposed, w) && |current| <= |proposed|
    && (forall k | 0 <= k < |current| :: proposed[k].id == current[k].id && proposed[k].revision == current[k].revision)
    && (forall k | |current| <= k < |proposed| :: Unreleased(proposed[k].id, w))
  }

  ghost predicate Unreleased(id: Id, w: World) {
    forall n :: (id, n) !in w.released
  }

  ghost predicate ReleasedOk(w: World) {
    forall key | key in w.released ::
      key.0 < w.nextUuid && w.released[key].id == key.0 && w.released[key].revision == key.1
  }

  ghost predicate StoreOk(records: seq<Record>, unsaved: seq<bool>, store: Option<seq<Record>>, w: World)
    requires |records| <= |unsaved|
  {
    && (store.None? ==> records == [])
    && (store.Some? ==>
          && VersionOk(store.value, w) && |records| <= |store.value| <= MAX_SCHEDULES
          && AllNamedOnce(store.value, NoneUnsaved(), w.released)
          && forall k | 0 <= k < |records| :: Linked(records[k], unsaved[k], store.value[k]))
  }

  ghost predicate StateOk(records: seq<Record>, unsaved: seq<bool>, store: Option<seq<Record>>, w: World) {
    && |records| <= MAX_SCHEDULES == |unsaved| && VersionOk(records, w) && StartsOk(w) && ReleasedOk(w)
    && AllNamedOnce(records, unsaved, w.released)
    && StoreOk(records, unsaved, store, w)
  }

  function Recorded(records: seq<Record>, w: World): World {
    w.(attention := w.attention + Flagged(records))
  }

  /** Some record has used up its revisions, so that no change of it can be saved. */
  predicate Worn(records: seq<Record>) {
    exists k | 0 <= k < |records| :: records[k].revision == MAX_REVISION
  }

  lemma StampedStaysWorn(proposed: seq<Record>, current: seq<Record>, unsaved: seq<bool>, w: World)
    requires MayCommit(proposed, current, w) && |current| <= |unsaved|
    ensures Exhausted(proposed, current, unsaved) ==> Worn(current)
    ensures Worn(current) && !Exhausted(proposed, current, unsaved) ==> Worn(Stamped(proposed, current, unsaved))
  {
    if Worn(current) && !Exhausted(proposed, current, unsaved) {
      var k :| 0 <= k < |current| && current[k].revision == MAX_REVISION;
      assert Stamped(proposed, current, unsaved)[k].revision == MAX_REVISION;
    }
  }

  /** The record shows what the run service answered: the run as reported, or that nobody can say. */
  ghost predicate Answered(was: Record, r: Record, report: Report, restored: bool)
    requires was.latestRun.Some?
  {
    && r.latestRun.Some? && r.latestRun.value.run == was.latestRun.value.run
    && var run := r.latestRun.value;
       match report {
         case Known(s) =>
           && run.state == s.state && run.details == s.details && run.error == s.error
           && (run.interrupted <==> s.workerInterrupted || (restored && s.state !in {Completed, Failed, Cancelled}))
           && (r.needsAttention <==> was.needsAttention || run.interrupted)
         case Unknown(e) =>
           && r.needsAttention
           && (restored || e.code == SessionNotFound ==> run.interrupted)
           && (if e.code == SessionNotFound then run.state == Missing && run.error == Some(e)
               else run.state == was.latestRun.value.state && run.error == was.latestRun.value.error)
       }
  }

  /** One question was asked, about the record's run, and the record shows the answer; a run that is still
      unfinished for a cancelled schedule is asked to stop. */
  ghost predicate Inquired(was: Record, r: Record, before: seq<Question>, after: seq<Question>, restored: bool) {
    && was.latestRun.Some? && |after| == |before| + 1 && before <= after
    && var q := after[|before|];
       && q.run == was.latestRun.value.run
       && (q.stop <==> was.cancelled && was.latestRun.value.state !in {Completed, Failed, Cancelled})
       && Answered(was, r, q.report, restored)
  }

  lemma KnownIsAnswered(was: Record, r: Record, s: Snapshot, restored: bool)
    requires was.latestRun.Some? && Shows(r, was, Actual(was.latestRun.value.run, s, restored))
    requires IsTerminal(was.latestRun.value.state) ==> IsTerminal(s.state)
    ensures Answered(was, r, Known(s), restored)
  {
    hide Observed, AlreadyShown, Reconciled;
    ShownIsReconciled(was, r, Actual(was.latestRun.value.run, s, restored));
  }

  lemma UnknownIsAnswered(was: Record, marked: Record, r: Record, e: Error, restored: bool)
    requires was.latestRun.Some?
    requires if restored || e.code == SessionNotFound then Base(marked) == Base(Interrupted(was, e)) else marked == was
    requires (r == marked && r.needsAttention) || LoggedFrom(r, Blocked(marked, e), NeedsAttention)
    ensures Answered(was, r, Unknown(e), restored)
  {
    InterruptedShows(was, e);
    assert Base(marked).latestRun == marked.latestRun;
    assert Base(Interrupted(was, e)).latestRun == Interrupted(was, e).latestRun;
    if LoggedFrom(r, Blocked(marked, e), NeedsAttention) {
      BlockedKeepsRun(marked, r, e);
    }
  }

  /** The schedule's time has come, and nothing stands in its way. */
  predicate Overdue(r: Record, now: Millis) {
    && !r.cancelled && !r.needsAttention && r.nextAt.Some? && r.nextAt.value <= now
    && (r.latestRun.Some? ==> r.latestRun.value.state in {Completed, Failed, Cancelled})
  }

  /** Another schedule of the same task has an unfinished run. */
  predicate Contested(v: seq<Record>, i: nat)
    requires i < |v|
  {
    exists j | 0 <= j < |v| && j != i ::
      && v[j].owner == v[i].owner && v[j].reference == v[i].reference
      && v[j].latestRun.Some? && v[j].latestRun.value.state !in {Completed, Failed, Cancelled}
  }

  lemma ContestedIs(v: seq<Record>, i: nat)
    requires i < |v|
    ensures Contested(v, i) <==> !NoOtherUnfinished(v, i)
  {
    if !NoOtherUnfinished(v, i) {
      var j :| 0 <= j < |v| && j != i && SameOwner(v[i], v[j]) && Unfinished(v[j].latestRun);
      assert v[j].latestRun.value.state !in {Completed, Failed, Cancelled};
    }
    if Contested(v, i) {
      var j :| 0 <= j < |v| && j != i && v[j].owner == v[i].owner && v[j].reference == v[i].reference
               && v[j].latestRun.Some? && v[j].latestRun.value.state !in {Completed, Failed, Cancelled};
      assert SameOwner(v[i], v[j]);
    }
  }

  lemma ContestedByBase(v: seq<Record>, w: seq<Record>, i: nat)
    requires SameBasesBut(v, w, i) && i < |v| && v[i].owner == w[i].owner && v[i].reference == w[i].reference
    ensures Contested(v, i) == Contested(w, i)
  {
    forall j | 0 <= j < |v| && j != i
      ensures v[j].owner == w[j].owner && v[j].reference == w[j].reference && v[j].latestRun == w[j].latestRun
    {
      assert Base(v[j]).owner == Base(w[j]).owner && Base(v[j]).reference == Base(w[j]).reference;
      assert Base(v[j]).latestRun == Base(w[j]).latestRun;
    }
    if Contested(v, i) {
      var j :| 0 <= j < |v| && j != i && v[j].owner == v[i].owner && v[j].reference == v[i].reference
               && v[j].latestRun.Some? && v[j].latestRun.value.state !in {Completed, Failed, Cancelled};
      assert w[j].owner == w[i].owner;
    }
    if Contested(w, i) {
      var j :| 0 <= j < |v| && j != i && w[j].owner == w[i].owner && w[j].reference == w[i].reference
               && w[j].latestRun.Some? && w[j].latestRun.value.state !in {Completed, Failed, Cancelled};
      assert v[j].owner == v[i].owner;
    }
  }

  lemma StaysWorn(v: seq<Record>, i: nat, r: Record)
    requires i < |v| && r.revision == v[i].revision
    ensures Worn(v) ==> Worn(v[i := r])
  {
    if Worn(v) {
      var k :| 0 <= k < |v| && v[k].revision == MAX_REVISION;
      assert v[i := r][k].revision == MAX_REVISION;
    }
  }

  lemma SameContest(v: seq<Record>, w: seq<Record>, i: nat)
    requires SameBasesBut(v, w, i) && i < |v| && Reconciled(w[i], v[i])
    ensures Contested(v, i) == Contested(w, i)
  {
    ContestedByBase(v, w, i);
  }

  predicate AskedToStop(questions: seq<Question>, run: Id) {
    exists k | 0 <= k < |questions| :: questions[k].run == run && questions[k].stop
  }

  lemma AskedHere(first: seq<Question>, questions: seq<Question>, run: Id, stop: bool, report: Report)
    requires first <= questions
    ensures stop ==> AskedToStop((questions + [Question(run, stop, report)])[|first|..], run)
  {
    if stop {
      assert (questions + [Question(run, stop, report)])[|first|..][|questions| - |first|] == Question(run, stop, report);
    }
  }

  lemma AskedStays(first: seq<Question>, questions: seq<Question>, after: seq<Question>)
    requires first <= questions <= after
    ensures forall run :: AskedToStop(questions[|first|..], run) ==> AskedToStop(after[|first|..], run)
  {
    forall run | AskedToStop(questions[|first|..], run)
      ensures AskedToStop(after[|first|..], run)
    {
      var k :| 0 <= k < |questions[|first|..]| && questions[|first|..][k].run == run && questions[|first|..][k].stop;
      assert after[|first|..][k] == questions[|first|..][k];
    }
  }

  lemma SameRunByBase(r: Record, r': Record)
    requires Base(r) == Base(r')
    ensures r.latestRun == r'.latestRun
  {
    assert Base(r).latestRun == r.latestRun && Base(r').latestRun == r'.latestRun;
  }

  /** An unfinished run was interrupted, and its schedule waits for attention. */
  predicate UncertainIfUnfinished(r: Record) {
    r.latestRun.Some? && r.latestRun.value.state !in {Completed, Failed, Cancelled} ==>
      r.needsAttention && r.latestRun.value.interrupted
  }

  lemma UncertainKept(v: seq<Record>, w: seq<Record>, i: nat)
    requires SameBasesBut(v, w, i) && i < |v| && UncertainIfUnfinished(v[i])
    requires forall k | 0 <= k < i :: UncertainIfUnfinished(w[k])
    ensures forall k | 0 <= k < i + 1 :: UncertainIfUnfinished(v[k])
  {
    forall k | 0 <= k < i
      ensures UncertainIfUnfinished(v[k])
    {
      assert Base(v[k]).latestRun == v[k].latestRun && Base(w[k]).latestRun == w[k].latestRun;
      assert Base(v[k]).needsAttention == v[k].needsAttention && Base(w[k]).needsAttention == w[k].needsAttention;
    }
  }

  /** The caller has a schedule with this identity. */
  predicate Owns(records: seq<Record>, owner: Owner, id: Id) {
    exists k | 0 <= k < |records| :: records[k].id == id && records[k].owner == owner
  }

  /** A cancelled schedule, or one with a run that may still be going on. */
  predicate RunStands(r: Record) {
    || r.cancelled
    || (r.latestRun.Some? && r.latestRun.value.state !in {Completed, Failed, Cancelled}
        && (!r.needsAttention || !r.latestRun.value.interrupted))
  }

  /** A cancellation asks the run to stop that was unfinished when it came. */
  lemma CancelAsks(was: Record, requested: Record, r: Record, authorization: Text, before: seq<Question>, after: seq<Question>)
    requires CancelledFrom(requested, was, authorization) && requested.latestRun == was.latestRun
    ensures Unfinished(was.latestRun) ==> requested.latestRun.Some?
    ensures Unfinished(was.latestRun) && Inquired(requested, r, before, after, false) ==>
              AskedToStop(after[|before|..], was.latestRun.value.run)
  {
    if Unfinished(was.latestRun) && Inquired(requested, r, before, after, false) {
      assert after[|before|..][0].stop;
    }
  }

  predicate AskedAbout(questions: seq<Question>, run: Id) {
    exists k | 0 <= k < |questions| :: questions[k].run == run
  }

  lemma OverdueByBase(r: Record, r': Record, now: Millis)
    requires Base(r) == Base(r')
    ensures Overdue(r, now) == Overdue(r', now)
  {
    assert Base(r).cancelled == r.cancelled && Base(r').cancelled == r'.cancelled;
    assert Base(r).needsAttention == r.needsAttention && Base(r').needsAttention == r'.needsAttention;
    assert Base(r).latestRun == r.latestRun && Base(r').latestRun == r'.latestRun;
    assert Base(r).nextAt == r.nextAt && Base(r').nextAt == r'.nextAt;
  }

  lemma NotOverdueKept(v: seq<Record>, w: seq<Record>, i: nat, now: Millis, later: Millis)
    requires SameBasesBut(v, w, i) && i < |v| && now <= later && !Overdue(v[i], later)
    requires forall k | 0 <= k < i :: !Overdue(w[k], now)
    ensures forall k | 0 <= k < i + 1 :: !Overdue(v[k], now)
  {
    forall k | 0 <= k < i
      ensures !Overdue(v[k], now)
    {
      OverdueByBase(v[k], w[k], now);
    }
  }

  lemma VisitAsked(before: Record, was: Record, seen: Record, first: seq<Question>, questions: seq<Question>,
                   after: seq<Question>)
    requires Base(before) == Base(was) && first <= questions <= after
    ensures was.latestRun.Some? <==> before.latestRun.Some?
    ensures was.latestRun.Some? && Inquired(before, seen, questions, after, false) ==>
              AskedAbout(after[|first|..], was.latestRun.value.run)
    ensures forall run :: AskedAbout(questions[|first|..], run) ==> AskedAbout(after[|first|..], run)
  {
    assert Base(before).latestRun == before.latestRun && Base(was).latestRun == was.latestRun;
    if was.latestRun.Some? && Inquired(before, seen, questions, after, false) {
      assert after[|first|..][|questions| - |first|].run == was.latestRun.value.run;
    }
    forall run | AskedAbout(questions[|first|..], run)
      ensures AskedAbout(after[|first|..], run)
    {
      var k :| 0 <= k < |questions[|first|..]| && questions[|first|..][k].run == run;
      assert after[|first|..][k] == questions[|first|..][k];
    }
  }

  // ----- Commit keeps every invariant, whatever the store answers -----

  lemma StampedNames(proposed: seq<Record>, current: seq<Record>, unsaved: seq<bool>, w: World)
    requires MayCommit(proposed, current, w) && |current| <= |unsaved| && AllNamedOnce(current, unsaved, w.released)
    requires |proposed| <= MAX_SCHEDULES
    ensures AllNamedOnce(Stamped(proposed, current, unsaved), NoneUnsaved(), w.released)
  {
    var v := Stamped(proposed, current, unsaved);
    forall k | 0 <= k < |v|
      ensures NamedOnce(v[k], false, w.released)
    {
      if k < |current| {
        assert NamedOnce(current[k], unsaved[k], w.released);
      }
    }
  }

  lemma StampedLinks(proposed: seq<Record>, current: seq<Record>, unsaved: seq<bool>, w: World)
    requires MayCommit(proposed, current, w) && |current| <= |unsaved|
    ensures forall k | 0 <= k < |current| :: Linked(current[k], unsaved[k], Stamped(proposed, current, unsaved)[k])
  {
  }

  /** The save took effect but was reported as failed: memory keeps the old list. */
  lemma AmbiguousSave(proposed: seq<Record>, current: seq<Record>, unsaved: seq<bool>, store: Option<seq<Record>>, w: World)
    requires StateOk(current, unsaved, store, w) && MayCommit(proposed, current, w)
    ensures StateOk(current, unsaved, Some(Stamped(proposed, current, unsaved)), w)
  {
    StampedVersion(proposed, current, unsaved, w);
    StampedNames(proposed, current, unsaved, w);
    StampedLinks(proposed, current, unsaved, w);
  }

  lemma FlaggedAreGenerated(v: seq<Record>, w: World)
    requires VersionOk(v, w)
    ensures forall id | id in Flagged(v) :: id < w.nextUuid
  {
    forall id | id in Flagged(v)
      ensures id < w.nextUuid
    {
      var k :| 0 <= k < |v| && v[k].needsAttention && v[k].id == id;
      assert RecordOk(v[k], w);
    }
  }

  lemma SuccessfulSave(proposed: seq<Record>, current: seq<Record>, unsaved: seq<bool>, store: Option<seq<Record>>, w: World)
    requires StateOk(current, unsaved, store, w) && MayCommit(proposed, current, w)
    ensures var v := Stamped(proposed, current, unsaved);
            StateOk(v, NoneUnsaved(), Some(v), Recorded(v, w))
  {
    var v := Stamped(proposed, current, unsaved);
    StampedVersion(proposed, current, unsaved, w);
    FlaggingKeepsVersion(v, w);
    StampedNames(proposed, current, unsaved, w);
    FlaggedAreGenerated(v, w);
  }

  lemma StampedBases(proposed: seq<Record>, current: seq<Record>, unsaved: seq<bool>)
    requires |current| <= |unsaved|
    ensures SameBases(Stamped(proposed, current, unsaved), proposed)
  {
  }

  /** A proposal that changes one record. */
  lemma ProposeAt(records: seq<Record>, i: nat, r: Record, w: World)
    requires VersionOk(records, w) && i < |records| && RecordOk(r, w)
    requires r.id == records[i].id && r.revision == records[i].revision && SameOwner(r, records[i])
    requires Unfinished(r.latestRun) ==> Unfinished(records[i].latestRun) || NoOtherUnfinished(records, i)
    ensures MayCommit(records[i := r], records, w)
  {
    ReplacingKeepsVersion(records, i, r, w);
  }

  /** A notification that could not be saved is kept in memory only, and marked. */
  lemma RetainingKeepsState(records: seq<Record>, unsaved: seq<bool>, store: Option<seq<Record>>, w: World, i: nat,
                            n: Option<Notification>)
    requires StateOk(records, unsaved, store, w) && i < |records|
    ensures StateOk(records[i := records[i].(lastNotification := n)], unsaved[i := true], store, w)
  {
    var r := records[i].(lastNotification := n);
    assert RecordOk(records[i], w);
    ReplacingKeepsVersion(records, i, r, w);
    assert NamedOnce(records[i], unsaved[i], w.released);
    if store.Some? {
      assert Linked(records[i], unsaved[i], store.value[i]);
    }
  }

  /** No attention is dropped, and nothing is settled but by the run service. */
  ghost predicate Steady(w: World, w': World) {
    w.attention <= w'.attention && w'.settled <= w.settled + w'.finished
  }

  /** Only what has been saved as needing attention changed among the facts. */
  ghost predicate OnlySaved(w: World, w': World) {
    w' == w.(attention := w'.attention) && w.attention <= w'.attention
  }

  const MAX_PAGE: nat := 32 * 1024

  const MAX_OFFSET: nat := 8 * 1024 * 1024

  datatype PageReply = PageOk(revision: nat, part: seq<Utf8.byte>, total: nat, eof: bool) | PageFailed(error: Error)

  function NameOf(r: Record): (Id, nat) {
    (r.id, r.revision)
  }

  /** The reply is the page of this text at this offset. */
  predicate IsPageOf(text: seq<Utf8.byte>, offset: nat, maximum: nat, r: PageReply) {
    && r.PageOk? && IsBoundary(text, offset) && IsPage(text[offset..], maximum, r.part)
    && r.total == |text| && (r.eof <==> offset + |r.part| == |text|) && (r.part == [] ==> r.eof)
  }

  lemma ReleasingKeepsState(records: seq<Record>, unsaved: seq<bool>, store: Option<seq<Record>>, w: World, i: nat)
    requires StateOk(records, unsaved, store, w) && i < |records| && !unsaved[i]
    ensures NameOf(records[i]) in w.released ==> w.released[NameOf(records[i])] == records[i]
    ensures StateOk(records, unsaved, store, w.(released := w.released[NameOf(records[i]) := records[i]]))
  {
    var r := records[i];
    var w' := w.(released := w.released[NameOf(r) := r]);
    assert NamedOnce(r, unsaved[i], w.released);
    assert RecordOk(r, w);
    SameFactsKeepVersion(records, w, w');
    forall k | 0 <= k < |records|
      ensures NamedOnce(records[k], unsaved[k], w'.released)
    {
      assert NamedOnce(records[k], unsaved[k], w.released);
    }
    if store.Some? {
      SameFactsKeepVersion(store.value, w, w');
      assert Linked(r, unsaved[i], store.value[i]);
      forall k | 0 <= k < |store.value|
        ensures NamedOnce(store.value[k], NoneUnsaved()[k], w'.released)
      {
        assert NamedOnce(store.value[k], NoneUnsaved()[k], w.released);
        assert store.value[i].id == r.id && (k != i ==> store.value[k].id != r.id);
      }
    }
  }

  lemma SameFactsKeepVersion(v: seq<Record>, w: World, w': World)
    requires VersionOk(v, w) && w' == w.(released := w'.released)
    ensures VersionOk(v, w')
  {
    forall k | 0 <= k < |v|
      ensures RecordOk(v[k], w')
    {
      assert RecordOk(v[k], w);
    }
  }

  /** The identities of the caller's schedules, in order. */
  function Owned(records: seq<Record>, owner: Owner): seq<Id> {
    if records == [] then []
    else
      var last := records[|records| - 1];
      Owned(records[..|records| - 1], owner) + (if last.owner == owner then [last.id] else [])
  }

  lemma OwnedNext(records: seq<Record>, owner: Owner, i: nat)
    requires i < |records|
    ensures Owned(records[..i + 1], owner) ==
            Owned(records[..i], owner) + (if records[i].owner == owner then [records[i].id] else [])
  {
    assert records[..i + 1][..i] == records[..i];
  }

  /** The identities in a list of summaries, in order. */
  function Names(summaries: seq<(Id, Option<nat>)>): seq<Id> {
    seq(|summaries|, i requires 0 <= i < |summaries| => summaries[i].0)
  }

  lemma NamesNext(summaries: seq<(Id, Option<nat>)>, summary: (Id, Option<nat>))
    ensures Names(summaries + [summary]) == Names(summaries) + [summary.0]
  {
  }

  lemma NoneOwned(owner: Owner)
    ensures Names([]) == [] == Owned([], owner)
    ensures forall records: seq<Record> :: Owned(records[..0], owner) == []
  {
  }

  lemma SameTermsKept(before: seq<Record>, after: seq<Record>, i: nat)
    requires SameBasesBut(after, before, i) && i < |before| && Reconciled(before[i], after[i])
    ensures forall k | 0 <= k < |after| :: after[k].id == before[k].id && after[k].owner == before[k].owner
  {
    forall k | 0 <= k < |after|
      ensures after[k].id == before[k].id && after[k].owner == before[k].owner
    {
      if k != i {
        assert Base(after[k]).id == Base(before[k]).id && Base(after[k]).owner == Base(before[k]).owner;
      }
    }
  }

  function LatestRuns(records: seq<Record>, id: Id): set<Id> {
    set k | 0 <= k < |records| && records[k].id == id && records[k].latestRun.Some? :: records[k].latestRun.value.run
  }

  /** The runs settled once this record's unfinished run is given up. */
  function GivenUp(settled: set<Id>, r: Record): set<Id> {
    if Unfinished(r.latestRun) then settled + {r.latestRun.value.run} else settled
  }

  lemma GivenUpIsListed(records: seq<Record>, i: nat, r: Record, settled: set<Id>)
    requires i < |records| && Reconciled(records[i], r)
    ensures GivenUp(settled, r) <= settled + LatestRuns(records, records[i].id) && settled <= GivenUp(settled, r)
  {
  }

  /** The schedule is cancelled under this authorization, and nothing else about the task has changed. */
  predicate CancelledFrom(r: Record, was: Record, authorization: Text) {
    && r.cancelled && r.nextAt.None? && r.authorization == authorization
    && (r.id, r.owner, r.reference, r.spec) == (was.id, was.owner, was.reference, was.spec)
    && (r.interval, r.createdAt) == (was.interval, was.createdAt) && (was.needsAttention ==> r.needsAttention)
  }

  lemma CancelledIsOk(records: seq<Record>, i: nat, authorization: Text, u: Millis, a: Millis, w: World)
    requires VersionOk(records, w) && i < |records|
    ensures var r := CancelRequestedRecord(records[i], authorization, u, a);
            && MayCommit(records[i := r], records, w) && CancelledFrom(r, records[i], authorization)
            && r.latestRun == records[i].latestRun
  {
    assert RecordOk(records[i], w);
    CancelRequestedOk(records[i], authorization, u, a, w);
    ProposeAt(records, i, CancelRequestedRecord(records[i], authorization, u, a), w);
  }

  lemma CancelledByBase(asked: Record, r: Record, was: Record, authorization: Text)
    requires Base(asked) == Base(r) && CancelledFrom(asked, was, authorization)
    ensures CancelledFrom(r, was, authorization) && r.latestRun == asked.latestRun
  {
    assert CancelledFrom(Base(asked), was, authorization);
    assert Base(asked).latestRun == asked.latestRun && Base(r).latestRun == r.latestRun;
  }

  lemma StaysCancelled(requested: Record, reconciled: Record, r: Record, was: Record, authorization: Text)
    requires CancelledFrom(requested, was, authorization) && Reconciled(requested, reconciled) && Base(reconciled) == Base(r)
    ensures CancelledFrom(r, was, authorization)
  {
    CancelledByBase(reconciled, r, was, authorization);
  }

  /** An unfinished run has moved from the record to the end of its history; any other stays. */
  predicate GaveUp(r: Record, was: Record) {
    if was.latestRun.Some? && was.latestRun.value.state !in {Completed, Failed, Cancelled}
    then r.latestRun.None? && r.history != [] && r.history[|r.history| - 1] == was.latestRun.value
    else r.latestRun == was.latestRun && r.history == was.history
  }

  lemma AuthorizedGaveUp(was: Record, r: Record, authorization: Text, u: Millis, a: Millis)
    requires Base(r) == Base(Authorized(was, authorization, u, a))
    ensures GaveUp(r, was)
  {
    AuthorizedShows(was, authorization, u, a);
    hide Authorized;
    var r' := Authorized(was, authorization, u, a);
    assert Base(r).latestRun == r.latestRun && Base(r').latestRun == r'.latestRun;
    assert Base(r).history == r.history && Base(r').history == r'.history;
  }

  lemma AuthorizingKeepsState(records: seq<Record>, unsaved: seq<bool>, store: Option<seq<Record>>, w: World, i: nat)
    requires StateOk(records, unsaved, store, w) && i < |records|
    ensures StateOk(records, unsaved, store,
                    w.(settled := GivenUp(w.settled, records[i]), attention := w.attention - {records[i].id}))
  {
    GrowingKeepsState(records, unsaved, store, w,
                      w.(settled := GivenUp(w.settled, records[i]), attention := w.attention - {records[i].id}));
  }

  lemma AuthorizedIsOk(records: seq<Record>, i: nat, authorization: Text, u: Millis, a: Millis, w: World, w': World)
    requires VersionOk(records, w) && i < |records| && VersionOk(records, w') && !records[i].cancelled
    requires Later(w, w') && w'.attention == w.attention - {records[i].id} && w'.settled == GivenUp(w.settled, records[i])
    ensures var r := Authorized(records[i], authorization, u, a);
            && MayCommit(records[i := r], records, w') && Dispatchable(r)
            && r.authorization == authorization && r.id == records[i].id && SameOwner(r, records[i])
  {
    assert RecordOk(records[i], w);
    AuthorizedOk(records[i], authorization, u, a, w, w');
    ProposeAt(records, i, Authorized(records[i], authorization, u, a), w');
  }

  lemma DispatchableByBase(r: Record, r': Record)
    requires Base(r) == Base(r')
    ensures Dispatchable(r) == Dispatchable(r') && r.authorization == r'.authorization && r.id == r'.id
    ensures r.owner == r'.owner && r.reference == r'.reference
  {
    assert Base(r).owner == r.owner && Base(r').owner == r'.owner;
    assert Base(r).reference == r.reference && Base(r').reference == r'.reference;
    assert Base(r).id == r.id && Base(r').id == r'.id;
    assert Base(r).cancelled == r.cancelled && Base(r').cancelled == r'.cancelled;
    assert Base(r).needsAttention == r.needsAttention && Base(r').needsAttention == r'.needsAttention;
    assert Base(r).latestRun == r.latestRun && Base(r').latestRun == r'.latestRun;
    assert Base(r).authorization == r.authorization && Base(r').authorization == r'.authorization;
  }

  /** Not cancelled, not waiting for attention, and past its due time. */
  predicate WasDue(r: Record, now: Millis) {
    !r.cancelled && !r.needsAttention && r.nextAt.Some? && r.nextAt.value <= now
  }

  lemma DueBefore(was: Record, r: Record, now: Millis)
    requires Reconciled(was, r) && Due(r, now)
    ensures r.id == was.id && forall later | now <= later :: WasDue(was, later)
  {
  }

  lemma SameIdAfter(was: Record, r: Record)
    requires Reconciled(was, r)
    ensures SameTask(r, was)
    ensures r.latestRun.Some? ==> was.latestRun.Some? && was.latestRun.value.run == r.latestRun.value.run
  {
    assert Base(r).latestRun == r.latestRun && Base(was).latestRun == was.latestRun;
  }

  ghost predicate Appended(after: seq<Record>, before: seq<Record>, owner: Owner, reference: Text, spec: nat, authorization: Text,
                           timing: Timing, id: Id, since: Millis) {
    exists r, now ::
      CreatedAt(r, owner, reference, spec, authorization, timing, id, now) && since <= now && SameBases(after, before + [r])
  }

  /** Some schedule of this task still has something to do: a due time, a question to answer, or a run. */
  predicate HasActive(records: seq<Record>, owner: Owner, reference: Text) {
    exists k | 0 <= k < |records| ::
      && records[k].owner == owner && records[k].reference == reference
      && ((!records[k].cancelled && (records[k].nextAt.Some? || records[k].needsAttention))
          || (records[k].latestRun.Some? && records[k].latestRun.value.state !in {Completed, Failed, Cancelled}))
  }

  /** A time in the past, or an interval outside a minute and a year. */
  predicate BadTiming(timing: Timing, now: Millis) {
    match timing
    case AtTime(at) => at <= now
    case Every(seconds) => seconds < 60 || seconds > 31_536_000
  }

  lemma LoggedNew(id: Id, owner: Owner, reference: Text, spec: nat, authorization: Text, timing: Timing, due: Millis,
                  now: Millis, u: Millis, a: Millis)
    requires FirstDue(timing, now) == Some(due)
    ensures var r := Logged(NewRecord(id, owner, reference, spec, authorization, timing, due, now), Created, u, a);
            && CreatedAt(r, owner, reference, spec, authorization, timing, id, now)
            && IntervalOk(r) && r.id == id && r.latestRun.None?
  {
    hide Trimmed;
  }

  /** The record of a fresh schedule, made at `now` and first due later. */
  predicate CreatedAt(r: Record, owner: Owner, reference: Text, spec: nat, authorization: Text, timing: Timing, id: Id,
                      now: Millis) {
    && r.id == id && r.owner == owner && r.reference == reference && r.spec == spec && r.authorization == authorization
    && !BadTiming(timing, now) && r.createdAt == now
    && (timing.AtTime? ==> r.nextAt == Some(timing.at) && r.interval.None?)
    && (timing.Every? ==> r.nextAt == Some(now + timing.seconds * 1000) && r.interval == Some(timing.seconds))
    && r.latestRun.None? && !r.cancelled && !r.needsAttention && r.history == [] && r.revision == 1
  }

  lemma CreatedIsOk(records: seq<Record>, r: Record, w: World, w': World)
    requires VersionOk(records, w) && StartsOk(w) && ReleasedOk(w) && |records| < MAX_SCHEDULES
    requires w' == w.(nextUuid := w.nextUuid + 1) && IntervalOk(r)
    requires r.id == w.nextUuid && r.latestRun.None?
    ensures MayCommit(records + [r], records, w')
  {
    AppendingKeepsVersion(records, r, w, w');
  }

  lemma LoadingKeepsState(records: seq<Record>, unsaved: seq<bool>, store: Option<seq<Record>>, w: World)
    requires StateOk(records, unsaved, store, w)
    ensures StateOk(if store.None? then [] else store.value, unsaved, store, w)
  {
    if store.Some? {
      forall k | 0 <= k < |store.value|
        ensures NamedOnce(store.value[k], unsaved[k], w.released)
      {
        assert NamedOnce(store.value[k], NoneUnsaved()[k], w.released);
      }
    }
  }

  lemma ReconciledByBase(loaded: seq<Record>, before: seq<Record>, after: seq<Record>, i: nat)
    requires |loaded| == |before| && i < |before| && SameBasesBut(after, before, i) && Reconciled(before[i], after[i])
    requires forall k | 0 <= k < i :: Reconciled(loaded[k], before[k])
    requires forall k | i <= k < |before| :: Base(before[k]) == Base(loaded[k])
    ensures forall k | 0 <= k < i + 1 :: Reconciled(loaded[k], after[k])
    ensures forall k | i + 1 <= k < |after| :: Base(after[k]) == Base(loaded[k])
  {
    forall k | 0 <= k < i + 1
      ensures Reconciled(loaded[k], after[k])
    {
      if k == i {
        ReconciledUpToBase(loaded[i], before[i], after[i], after[i]);
      } else {
        ReconciledUpToBase(loaded[k], loaded[k], before[k], after[k]);
      }
    }
  }

  lemma ReconciledUpToBase(was: Record, was': Record, r: Record, r': Record)
    requires Base(was) == Base(was') && Base(r) == Base(r') && Reconciled(was', r)
    ensures Reconciled(was, r')
  {
    assert was.latestRun == Base(was).latestRun && was'.latestRun == Base(was').latestRun;
    assert r.latestRun == Base(r).latestRun && r'.latestRun == Base(r').latestRun;
    assert SameTerms(r, was') == SameTerms(Base(r), Base(was')) && SameTerms(r', was) == SameTerms(Base(r'), Base(was));
  }

  datatype FireResult = Fired | Refused(error: Error) | Threw(error: Error)

  lemma BlockedKeepsRun(was: Record, r: Record, e: Error)
    requires LoggedFrom(r, Blocked(was, e), NeedsAttention)
    ensures r.needsAttention && r.lastError == Some(e)
    ensures r.latestRun == was.latestRun && r.nextAt == was.nextAt && SameTask(r, was)
  {
    var u, a :| Base(r) == Base(Logged(Blocked(was, e), NeedsAttention, u, a));
    LoggedShows(Blocked(was, e), NeedsAttention, u, a);
    hide Logged;
    SameTaskByBase(r, Logged(Blocked(was, e), NeedsAttention, u, a));
    assert Base(r).latestRun == r.latestRun && Base(r).nextAt == r.nextAt && Base(r).needsAttention == r.needsAttention;
    assert Base(r).lastError == r.lastError;
  }

  lemma StillStarted(w: World, w': World, w'': World, was: Record, r: Record, r': Record)
    requires Started(w, w', was, r) && w''.starts == w'.starts && w''.nextUuid == w'.nextUuid
    requires r'.latestRun == r.latestRun && r'.nextAt == r.nextAt
    ensures Started(w, w'', was, r')
  {
  }

  predicate Dispatchable(r: Record) {
    !r.cancelled && !r.needsAttention && !Unfinished(r.latestRun)
  }

  /** One more start: of this schedule, whose due time is now cleared or advanced. */
  ghost predicate Started(w: World, w': World, was: Record, r: Record) {
    && |w'.starts| == |w.starts| + 1
    && var s := w'.starts[|w.starts|];
       && s.schedule == was.id && w.nextUuid <= s.run < w'.nextUuid
       && r.latestRun.Some? && r.latestRun.value.run == s.run
       && r.nextAt == (if was.interval.None? then None else Some(s.now + was.interval.value * 1000))
       && (r.nextAt.Some? ==> r.nextAt.value > s.now)
  }

  lemma StartsAreGenerated(w: World)
    requires StartsOk(w)
    ensures forall k | 0 <= k < |w.starts| :: w.starts[k].run < w.nextUuid
  {
  }

  lemma AdmittedIsOk(records: seq<Record>, i: nat, run: Id, now: Millis, u: Millis, a: Millis, w: World)
    requires VersionOk(records, w) && i < |records| && run < w.nextUuid
    requires Dispatchable(records[i]) && NoOtherUnfinished(records, i)
    ensures MayCommit(records[i := AdmittedRecord(records[i], run, now, u, a)], records, w)
    ensures IntervalOk(records[i])
  {
    assert RecordOk(records[i], w);
    AdmittedOk(records[i], run, now, u, a, w);
    ProposeAt(records, i, AdmittedRecord(records[i], run, now, u, a), w);
  }

  /** The record shows this run as admitted, and its due time cleared or moved on. */
  predicate AdmittedAt(r: Record, was: Record, run: Id, now: Millis) {
    && SameTask(r, was) && r.latestRun == Some(RunInfo(run, Admitted, false, 0, None, None))
    && !r.needsAttention && !r.cancelled && IntervalOk(r)
    && r.nextAt == (if was.interval.None? then None else Some(now + was.interval.value * 1000))
  }

  lemma AdmissionIsStored(was: Record, r: Record, run: Id, now: Millis, u: Millis, a: Millis)
    requires Dispatchable(was) && IntervalOk(was) && Base(r) == Base(AdmittedRecord(was, run, now, u, a))
    ensures AdmittedAt(r, was, run, now)
  {
    var b := Base(r);
    assert b.id == r.id && b.needsAttention == r.needsAttention && b.cancelled == r.cancelled && b.latestRun == r.latestRun;
    assert b.nextAt == r.nextAt && b.interval == r.interval;
    LoggedShows(was, DispatchAdmitted, u, a);
    SameTaskByBase(r, AdmittedRecord(was, run, now, u, a));
  }

  lemma ReconciledKeepsDue(was: Record, r: Record)
    requires Reconciled(was, r) && was.latestRun.Some?
    ensures SameTask(r, was) && r.nextAt == was.nextAt && r.latestRun.Some? && r.latestRun.value.run == was.latestRun.value.run
  {
  }

  /** A record now shows `actual`, because it did before or because it was observed. */
  ghost predicate Shows(r: Record, was: Record, actual: RunInfo)
    requires was.latestRun.Some?
  {
    (r == was && AlreadyShown(was, actual)) || exists u, a :: Base(r) == Base(Observed(was, actual, u, a))
  }

  /** Asking and recording: nothing is released, generated or started. */
  ghost predicate Calm(w: World, w': World) {
    && Later(w, w') && w'.released == w.released && w'.nextUuid == w.nextUuid && Steady(w, w')
  }

  /** Reconciling never dispatches, reschedules, or drops attention; it keeps to the same run, and
      never turns a finished run into an unfinished one. */
  predicate Reconciled(was: Record, r: Record) {
    && SameTerms(r, was)
    && (was.latestRun.None? ==> Base(r) == Base(was))
    && (was.latestRun.Some? ==> r.latestRun.Some? && r.latestRun.value.run == was.latestRun.value.run)
    && (Unfinished(r.latestRun) ==> Unfinished(was.latestRun))
  }

  lemma ShownIsReconciled(was: Record, r: Record, actual: RunInfo)
    requires was.latestRun.Some? && actual.run == was.latestRun.value.run && Shows(r, was, actual)
    requires IsTerminal(was.latestRun.value.state) ==> IsTerminal(actual.state)
    ensures Reconciled(was, r) && r.latestRun == Some(actual)
    ensures r.needsAttention <==> was.needsAttention || actual.interrupted
  {
    if r != was {
      var u, a :| Base(r) == Base(Observed(was, actual, u, a));
      ObservedKeeps(was, actual, u, a);
      hide Observed;
      assert SameTerms(Base(r), was) && Base(r).latestRun == r.latestRun;
    }
  }

  predicate SameTerms(r: Record, was: Record) {
    SameTask(r, was) && r.nextAt == was.nextAt && (was.needsAttention ==> r.needsAttention)
  }

  /** What no dispatch changes. */
  predicate SameTask(r: Record, was: Record) {
    && (r.id, r.owner, r.reference, r.spec, r.authorization) == (was.id, was.owner, was.reference, was.spec, was.authorization)
    && (r.interval, r.createdAt, r.cancelled) == (was.interval, was.createdAt, was.cancelled)
  }

  lemma SameTaskByBase(r: Record, was: Record)
    requires Base(r) == Base(was)
    ensures SameTask(r, was)
  {
    assert SameTask(r, was) == SameTask(Base(r), Base(was));
  }

  lemma SameTasks(v: seq<Record>)
    ensures forall k | 0 <= k < |v| :: SameTask(v[k], v[k])
  {
  }

  lemma SameTasksKept(v: seq<Record>, w: seq<Record>, first: seq<Record>, i: nat)
    requires SameBasesBut(v, w, i) && i < |v| == |first| && SameTask(v[i], w[i])
    requires forall k | 0 <= k < |w| :: SameTask(w[k], first[k])
    ensures forall k | 0 <= k < |v| :: SameTask(v[k], first[k])
  {
    forall k | 0 <= k < |v|
      ensures SameTask(v[k], w[k])
    {
      if k != i {
        SameTaskByBase(v[k], w[k]);
      }
    }
  }

  lemma ObservedKeeps(was: Record, actual: RunInfo, u: Millis, a: Millis)
    requires was.latestRun.Some?
    ensures SameTerms(Observed(was, actual, u, a), was) && Observed(was, actual, u, a).latestRun == Some(actual)
    ensures Observed(was, actual, u, a).needsAttention <==> was.needsAttention || actual.interrupted
  {
    ObservedShows(was, actual, u, a);
    hide Observed;
  }

  lemma FinishedIsKnown(records: seq<Record>, i: nat, w: World)
    requires VersionOk(records, w) && i < |records| && records[i].latestRun.Some?
    ensures IsTerminal(records[i].latestRun.value.state) ==> records[i].latestRun.value.run in w.finished
  {
    assert RecordOk(records[i], w);
  }

  lemma BlockedIsReconciled(was: Record, r: Record, e: Error)
    requires was.latestRun.Some?
    requires LoggedFrom(r, Blocked(was, e), NeedsAttention)
    ensures Reconciled(was, r) && r.needsAttention
  {
  }

  lemma ObservedIsOk(records: seq<Record>, i: nat, actual: RunInfo, u: Millis, a: Millis, w: World)
    requires VersionOk(records, w) && StartsOk(w) && i < |records| && records[i].latestRun.Some?
    requires actual.run == records[i].latestRun.value.run && (IsTerminal(actual.state) <==> actual.run in w.finished)
    ensures MayCommit(records[i := Observed(records[i], actual, u, a)], records, w)
    ensures Unfinished(Observed(records[i], actual, u, a).latestRun) ==> Unfinished(records[i].latestRun)
  {
    assert RecordOk(records[i], w);
    ObservedOk(records[i], actual, u, a, w);
    ProposeAt(records, i, Observed(records[i], actual, u, a), w);
  }

  lemma InterruptedIsOk(records: seq<Record>, i: nat, e: Error, w: World)
    requires VersionOk(records, w) && i < |records| && records[i].latestRun.Some?
    requires e.code == SessionNotFound ==> records[i].latestRun.value.run !in w.finished
    ensures MayCommit(records[i := Interrupted(records[i], e)], records, w)
    ensures Unfinished(Interrupted(records[i], e).latestRun) ==> Unfinished(records[i].latestRun)
  {
    assert RecordOk(records[i], w);
    InterruptedOk(records[i], e, w);
    ProposeAt(records, i, Interrupted(records[i], e), w);
  }

  lemma SavedAttention(records: seq<Record>, i: nat)
    requires i < |records|
    ensures records[i].needsAttention ==> records[i].id in Flagged(records)
  {
  }

  lemma BlockedIsOk(records: seq<Record>, i: nat, e: Error, u: Millis, a: Millis, w: World)
    requires VersionOk(records, w) && i < |records|
    ensures MayCommit(records[i := Logged(Blocked(records[i], e), NeedsAttention, u, a)], records, w)
  {
    assert RecordOk(records[i], w);
    BlockedOk(records[i], e, NeedsAttention, u, a, w);
    ProposeAt(records, i, Logged(Blocked(records[i], e), NeedsAttention, u, a), w);
  }

  lemma NotifiedIsOk(records: seq<Record>, i: nat, n: Option<Notification>, w: World)
    requires VersionOk(records, w) && i < |records|
    ensures MayCommit(records[i := records[i].(lastNotification := n)], records, w)
  {
    assert RecordOk(records[i], w);
    ProposeAt(records, i, records[i].(lastNotification := n), w);
  }

  predicate Consistent(run: Id, report: Report, finished: set<Id>) {
    && (report.Known? ==> (IsTerminal(report.snapshot.state) <==> run in finished))
    && (report.Unknown? && report.error.code == SessionNotFound ==> run !in finished)
  }

  ghost predicate Asked(w: World, w': World) {
    && w.finished <= w'.finished && w' == w.(finished := w'.finished, settled := w.settled + w'.finished)
  }

  lemma PreviousIsInPlace(proposed: seq<Record>, current: seq<Record>, k: nat, w: World)
    requires MayCommit(proposed, current, w) && k < |proposed|
    ensures forall j | 0 <= j < |current| && current[j].id == proposed[k].id :: j == k
    ensures k < |current| ==> current[k].id == proposed[k].id && current[k].revision == proposed[k].revision
  {
    forall j | 0 <= j < |current| && current[j].id == proposed[k].id
      ensures j == k
    {
      assert proposed[j].id == proposed[k].id;
    }
  }

  lemma GrowingKeepsState(records: seq<Record>, unsaved: seq<bool>, store: Option<seq<Record>>, w: World, w': World)
    requires StateOk(records, unsaved, store, w) && Later(w, w') && w'.attention <= w.attention && w'.released == w.released
    ensures StateOk(records, unsaved, store, w')
  {
    LaterKeepsVersion(records, w, w');
    if store.Some? {
      LaterKeepsVersion(store.value, w, w');
    }
  }
}
