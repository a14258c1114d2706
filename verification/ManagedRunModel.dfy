// Managed runs as a state machine: each action is one section a thread runs under the service's lock,
// one read of the stop token, or one call of the provider or of a tool.

module ManagedRunModel {
  import opened Options
  import opened Utf8

  type RunId = nat
  type ResponseId = nat
  type CallId = nat
  type Name = string

  const MAX_WORKERS: nat := 16
  const MAX_REVIEWERS: nat := 16

  datatype State = Running | Paused | Cancelling | Completed | Failed | Cancelled

  predicate Terminal(s: State) {
    s == Completed || s == Failed || s == Cancelled
  }

  /** `parses`: the service accepts the call's identity. */
  datatype Call = Call(id: CallId, name: Name, parses: bool)

  datatype Record = Record(state: State, response: Option<ResponseId>, inputTokens: nat, outputTokens: nat,
                           retained: Option<nat>, pending: seq<Call>, output: Option<seq<byte>>, truncated: bool)

  /** A worker inherits a scope; a run that only reads is a reviewer. */
  datatype Request = Request(id: RunId, allowTools: bool, readOnly: bool, scope: Option<Scope>, automaticContinuity: bool)

  /** sameRequest: continuity is not compared. */
  predicate SameRequest(a: Request, b: Request) {
    a == b.(automaticContinuity := a.automaticContinuity)
  }

  datatype Access = Read | Write | Execute | Delete | Create

  datatype Scope = Scope(allowedTools: set<Name>, roots: seq<nat>, grants: seq<Access>, shell: bool)

  datatype Kind = Ordinary | Reviewer | Worker

  function KindOf(q: Request): Kind {
    if q.scope.Some? then Worker else if q.readOnly then Reviewer else Ordinary
  }

  /** How far the run's own thread is. */
  datatype Phase = Working | Finished | Ended

  /** What the thread's next boundary is for, or the last one was: to ask the provider, to act on its
      reply, or to handle a call of the reply after `done` others. */
  datatype Stage = Asking | Acting | Calls(done: nat)

  /** Where the thread is between what it read of the requests to pause and to stop and what it shows:
      it saw a pause, or none; it passed a boundary; it asked the provider, or handled a call; it showed a
      round of calls and asks continuity for a successor; or it can only finish. */
  datatype Boundary = Unchecked | SawPause | SawNoPause | Passed | Called | Observing | Ending

  /** `holding`: the thread's own record is paused. */
  datatype Run = Run(request: Request, record: Record, pauseRequested: bool, stopRequested: bool,
                     phase: Phase, stage: Stage, boundary: Boundary, holding: bool, listed: bool)

  /** `continuity`: the service was given all that continuity needs. */
  datatype World = World(runs: seq<Run>, shutdown: bool, continuity: bool)

  datatype Action =
    | Admit(request: Request)
    | Cancel(n: nat)
    | Pause(n: nat)
    | Resume(n: nat)
    | Reap
    | Shutdown
    | StopRun(n: nat)
    | SeePause(n: nat)
    | SeeNoPause(n: nat)
    | Clear(n: nat)
    | TakeCalls(n: nat)
    | Dispatch(n: nat)
    | Refuse(n: nat)
    | Stay(n: nat)
    | GiveUp(n: nat)
    | Publish(n: nat, record: Record)
    | Finish(n: nat, record: Record)
    | EndThread(n: nat)

  /** Actions of the run's own thread. */
  predicate ByThread(a: Action, n: nat) {
    && (a.SeePause? || a.SeeNoPause? || a.Clear? || a.TakeCalls? || a.Dispatch? || a.Refuse? || a.Stay? || a.GiveUp?
        || a.Publish? || a.Finish? || a.EndThread?)
    && a.n == n
  }

  predicate Busy(r: Run, kind: Kind) {
    r.listed && KindOf(r.request) == kind && !Terminal(r.record.state)
  }

  function Count(runs: seq<Run>, kind: Kind): (c: nat)
    ensures c <= |runs|
  {
    if runs == [] then 0 else Count(runs[..|runs| - 1], kind) + if Busy(runs[|runs| - 1], kind) then 1 else 0
  }

  function Limit(kind: Kind): (limit: Option<nat>) {
    match kind
    case Worker => Some(MAX_WORKERS)
    case Reviewer => Some(MAX_REVIEWERS)
    case Ordinary => None
  }

  predicate HasRoom(runs: seq<Run>, kind: Kind) {
    Limit(kind).Some? ==> Count(runs, kind) < Limit(kind).value
  }

  /** The unfinished workers, and the unfinished runs that only read, by their places in the list. */
  ghost function Workers(runs: seq<Run>): set<nat> {
    set n: nat | n < |runs| && runs[n].listed && runs[n].request.scope.Some?
                 && runs[n].record.state !in {Completed, Failed, Cancelled}
  }

  ghost function Reviewers(runs: seq<Run>): set<nat> {
    set n: nat | n < |runs| && runs[n].listed && runs[n].request.scope.None? && runs[n].request.readOnly
                 && runs[n].record.state !in {Completed, Failed, Cancelled}
  }

  lemma LastWorker(runs: seq<Run>, k: nat)
    requires |runs| == k + 1
    ensures Workers(runs) == Workers(runs[..k]) + if Busy(runs[k], Worker) then {k} else {}
  {
  }

  lemma LastReviewer(runs: seq<Run>, k: nat)
    requires |runs| == k + 1
    ensures Reviewers(runs) == Reviewers(runs[..k]) + if Busy(runs[k], Reviewer) then {k} else {}
  {
  }

  lemma {:induction false} CountIsSize(runs: seq<Run>)
    ensures Count(runs, Worker) == |Workers(runs)| && Count(runs, Reviewer) == |Reviewers(runs)|
  {
    if runs != [] {
      var k := |runs| - 1;
      CountIsSize(runs[..k]);
      LastWorker(runs, k);
      LastReviewer(runs, k);
      assert k !in Workers(runs[..k]) && k !in Reviewers(runs[..k]);
      hide Workers, Reviewers, Busy;
    }
  }

  predicate Bound(runs: seq<Run>, id: RunId) {
    exists n | 0 <= n < |runs| :: runs[n].listed && runs[n].request.id == id
  }

  function Fresh(q: Request): Run {
    Run(q, Record(Running, None, 0, 0, None, [], None, false), false, false, Working, Asking, Unchecked, false, true)
  }

  predicate Retired(r: Run) {
    KindOf(r.request) != Ordinary && r.phase == Ended && Terminal(r.record.state)
  }

  /** The thread comes to a boundary: at first, while it holds, and after a call that is not the last of
      its reply. */
  predicate MayLook(r: Run) {
    match r.boundary
    case Unchecked => true
    case SawPause => r.holding
    case Called => r.stage.Calls? && r.stage.done < |r.record.pending|
    case _ => false
  }

  /** The thread has passed the boundary before a turn or before the next call of the reply, and shows
      itself as running. */
  predicate MayCall(r: Run) {
    && r.boundary == Passed && !r.holding
    && match r.stage
       case Asking => true
       case Acting => false
       case Calls(done) => done < |r.record.pending| && r.record.pending[done].parses
  }

  /** The reply asks for calls and the thread has passed the boundary before acting on it. */
  predicate MayTakeCalls(r: Run) {
    r.boundary == Passed && !r.holding && r.stage == Acting && r.request.allowTools && r.record.pending != []
  }

  /** Continuity is asked after a round of calls. */
  predicate MayMove(r: Run, continuity: bool) {
    continuity && r.request.automaticContinuity && r.record.retained.Some?
  }

  /** What the thread shows: that it pauses, once, after reading the request; that it runs again, after
      the boundary that ended a pause; and its record after a reply, after the last call of a reply, and
      after a move to a successor. */
  predicate MayPublish(r: Run, record: Record, continuity: bool) {
    match record.state
    case Paused => r.boundary == SawPause && !r.holding && record == r.record.(state := Paused)
    case Running =>
      if r.holding then r.boundary == Passed && record == r.record.(state := Running)
      else
        (match r.boundary
         case Called =>
           (match r.stage
            case Asking => record.output == r.record.output && record.truncated == r.record.truncated && record.response.Some?
            case Acting => false
            case Calls(done) => done == |r.record.pending| && record == r.record.(state := Running, pending := []))
         case Observing =>
           MayMove(r, continuity) && record.response.Some?
           && record == r.record.(state := Running, response := record.response)
         case _ => false)
    case _ => false
  }

  /** Where the thread stands after showing a record. */
  function Published(r: Run, record: Record): Run {
    var shown := r.(record := record, holding := record.state == Paused);
    match r.boundary
    case Passed => shown
    case Called => if r.stage == Asking then shown.(boundary := Unchecked, stage := Acting)
                   else shown.(boundary := Observing, stage := Asking)
    case _ => shown.(boundary := Unchecked)
  }

  predicate Works(w: World, n: nat) {
    n < |w.runs| && w.runs[n].phase == Working
  }

  /** What an action about one run asks of that run. */
  predicate MayDo(r: Run, a: Action, continuity: bool) {
    if a.Cancel? || a.Pause? || a.Resume? then r.listed
    else if a.EndThread? then r.phase == Finished
    else r.phase == Working && MayProceed(r, a, continuity)
  }

  /** What an action of a working thread asks of where it stands. */
  predicate MayProceed(r: Run, a: Action, continuity: bool) {
    match a
    case SeePause(_) => MayLook(r) && r.pauseRequested
    case SeeNoPause(_) => MayLook(r) && !r.pauseRequested
    case Clear(_) => r.boundary == SawNoPause && !r.stopRequested
    case TakeCalls(_) => MayTakeCalls(r)
    case Dispatch(_) => MayCall(r)
    case Refuse(_) => MayCall(r) && r.stage.Calls?
    case Stay(_) => r.boundary == Observing
    case Publish(_, record) => MayPublish(r, record, continuity)
    case Finish(_, record) => r.boundary == Ending && Terminal(record.state)
    case _ => true
  }

  predicate Enabled(w: World, a: Action) {
    if a.Admit? then !w.shutdown && !Bound(w.runs, a.request.id) && HasRoom(w.runs, KindOf(a.request))
    else if a.Reap? || a.Shutdown? then !w.shutdown
    else a.n < |w.runs| && if a.StopRun? then w.shutdown else MayDo(w.runs[a.n], a, w.continuity)
  }

  function AfterCall(r: Run): Run {
    r.(boundary := Called, stage := if r.stage.Calls? then Calls(r.stage.done + 1) else r.stage)
  }

  /** What an action does to the run it is about. */
  function Moved(r: Run, a: Action): Run {
    match a
    case Cancel(_) =>
      var record := if r.record.state == Running || r.record.state == Paused then r.record.(state := Cancelling) else r.record;
      r.(record := record, pauseRequested := false, stopRequested := true)
    case Pause(_) => if r.record.state == Running then r.(pauseRequested := true) else r
    case Resume(_) =>
      if r.record.state == Paused then r.(pauseRequested := false, record := r.record.(state := Running))
      else if r.record.state == Running then r.(pauseRequested := false)
      else r
    case StopRun(_) => r.(stopRequested := true)
    case SeePause(_) => r.(boundary := SawPause)
    case SeeNoPause(_) => r.(boundary := SawNoPause)
    case Clear(_) => r.(boundary := Passed)
    case TakeCalls(_) => r.(boundary := Unchecked, stage := Calls(0))
    case Dispatch(_) => AfterCall(r)
    case Refuse(_) => AfterCall(r)
    case Stay(_) => r.(boundary := Unchecked)
    case GiveUp(_) => r.(boundary := Ending)
    case Publish(_, record) => Published(r, record)
    case Finish(_, record) => r.(record := record, phase := Finished)
    case EndThread(_) => r.(phase := Ended)
    case _ => r
  }

  predicate IsAbout(a: Action, n: nat) {
    !a.Admit? && !a.Reap? && !a.Shutdown? && a.n == n
  }

  function Unpaused(runs: seq<Run>): (r: seq<Run>)
    ensures |r| == |runs|
    ensures forall n | 0 <= n < |r| :: r[n] == if runs[n].listed then runs[n].(pauseRequested := false) else runs[n]
  {
    seq(|runs|, n requires 0 <= n < |runs| => if runs[n].listed then runs[n].(pauseRequested := false) else runs[n])
  }

  function Reaped(runs: seq<Run>): (r: seq<Run>)
    ensures |r| == |runs|
    ensures forall n | 0 <= n < |r| :: r[n] == if Retired(runs[n]) then runs[n].(listed := false) else runs[n]
  {
    seq(|runs|, n requires 0 <= n < |runs| => if Retired(runs[n]) then runs[n].(listed := false) else runs[n])
  }

  function Next(w: World, a: Action): (w': World)
    requires Enabled(w, a)
    ensures |w'.runs| >= |w.runs|
  {
    match a
    case Admit(q) => w.(runs := w.runs + [Fresh(q)])
    case Reap => w.(runs := Reaped(w.runs))
    case Shutdown => World(Unpaused(w.runs), true, w.continuity)
    case _ => w.(runs := w.runs[a.n := Moved(w.runs[a.n], a)])
  }

  function Initial(continuity: bool): World {
    World([], false, continuity)
  }

  ghost predicate IsRun(states: seq<World>, actions: seq<Action>) {
    && |states| == |actions| + 1 && states[0] == Initial(states[0].continuity)
    && forall i | 0 <= i < |actions| :: Enabled(states[i], actions[i]) && states[i + 1] == Next(states[i], actions[i])
  }

  lemma StepOf(states: seq<World>, actions: seq<Action>, i: nat)
    requires IsRun(states, actions) && i < |actions|
    ensures |states| == |actions| + 1 && Enabled(states[i], actions[i]) && states[i + 1] == Next(states[i], actions[i])
  {
  }

  // ----- The invariant -----

  predicate RunOk(r: Run) {
    && (r.phase == Working <==> !Terminal(r.record.state))
    && (r.phase == Working ==> r.listed)
    && (r.record.state == Cancelling ==> r.stopRequested && !r.pauseRequested)
    && (r.boundary == Called || r.boundary == Observing ==> !r.holding)
    && (r.phase == Working ==> StageOk(r))
  }

  /** The thread comes to boundaries before the calls that are left, and leaves a reply after the last. */
  predicate StageOk(r: Run) {
    && (r.boundary == Called ==> r.stage != Acting) && (r.boundary == Observing ==> r.stage == Asking)
    && (r.stage.Calls? ==> if r.boundary == Called || r.boundary == Ending then r.stage.done <= |r.record.pending|
                           else r.stage.done < |r.record.pending|)
  }

  predicate ListedOnce(runs: seq<Run>) {
    forall n, m | 0 <= n < m < |runs| && runs[n].listed && runs[m].listed :: runs[n].request.id != runs[m].request.id
  }

  ghost predicate Inv(w: World) {
    && (forall n | 0 <= n < |w.runs| :: RunOk(w.runs[n]))
    && ListedOnce(w.runs)
    && Count(w.runs, Worker) <= MAX_WORKERS && Count(w.runs, Reviewer) <= MAX_REVIEWERS
  }

  lemma {:induction false} CountGrows(runs: seq<Run>, r: Run, kind: Kind)
    ensures Count(runs + [r], kind) == Count(runs, kind) + if Busy(r, kind) then 1 else 0
  {
    assert (runs + [r])[..|runs|] == runs;
  }

  /** Fewer busy runs, smaller count. */
  lemma {:induction false} CountShrinks(runs: seq<Run>, runs': seq<Run>, kind: Kind)
    requires |runs| == |runs'|
    requires forall n | 0 <= n < |runs| :: Busy(runs'[n], kind) ==> Busy(runs[n], kind)
    ensures Count(runs', kind) <= Count(runs, kind)
  {
    if runs != [] {
      var last := |runs| - 1;
      assert Busy(runs'[last], kind) ==> Busy(runs[last], kind);
      CountShrinks(runs[..last], runs'[..last], kind);
    }
  }

  /** A run after an action. */
  function NextOf(r: Run, a: Action, n: nat): Run {
    if a.Reap? then if Retired(r) then r.(listed := false) else r
    else if a.Shutdown? then if r.listed then r.(pauseRequested := false) else r
    else if IsAbout(a, n) then Moved(r, a)
    else r
  }

  lemma RunOf(w: World, a: Action, n: nat)
    requires Enabled(w, a) && n < |w.runs|
    ensures n < |Next(w, a).runs| && Next(w, a).runs[n] == NextOf(w.runs[n], a, n)
    ensures Next(w, a).continuity == w.continuity
    ensures IsAbout(a, n) && !a.StopRun? ==> MayDo(w.runs[n], a, w.continuity)
  {
    hide MayProceed, Moved, Count, HasRoom, Bound, Retired, Fresh;
  }

  lemma OnlyAdmitted(w: World, a: Action)
    requires Enabled(w, a)
    ensures if a.Admit? then Next(w, a).runs == w.runs + [Fresh(a.request)] else |Next(w, a).runs| == |w.runs|
  {
    hide MayDo, Moved, Count, HasRoom, Bound, Fresh;
  }

  lemma RunIsOk(w: World, n: nat)
    requires Inv(w) && n < |w.runs|
    ensures RunOk(w.runs[n])
  {
    hide RunOk, Count;
  }

  lemma PublishKeepsOk(r: Run, record: Record, continuity: bool)
    requires RunOk(r) && r.phase == Working && MayPublish(r, record, continuity)
    ensures var r' := Published(r, record); RunOk(r') && r'.request == r.request && r'.listed == r.listed
  {
  }

  lemma ThreadKeepsOk(r: Run, a: Action, n: nat, continuity: bool)
    requires RunOk(r) && ByThread(a, n) && MayDo(r, a, continuity)
    ensures RunOk(Moved(r, a)) && Moved(r, a).request == r.request && Moved(r, a).listed == r.listed
  {
    hide Published, MayPublish;
    if a.Publish? {
      PublishKeepsOk(r, a.record, continuity);
    }
  }

  /** Other actions leave the thread where it stands, and of the record all but its state. */
  lemma OthersKeepOk(r: Run, a: Action, n: nat)
    requires RunOk(r) && !ByThread(a, n)
    ensures var r' := NextOf(r, a, n);
            && RunOk(r') && r'.request == r.request && (r'.listed ==> r.listed)
            && r'.record == r.record.(state := r'.record.state) && (r'.record.state == Paused ==> r.record.state == Paused)
            && r'.phase == r.phase && r'.stage == r.stage && r'.boundary == r.boundary && r'.holding == r.holding
            && (r.stopRequested ==> r'.stopRequested) && (Terminal(r.record.state) ==> r'.record == r.record)
  {
    hide StageOk;
    StageStays(r, NextOf(r, a, n));
  }

  lemma StageStays(r: Run, r': Run)
    requires r'.stage == r.stage && r'.boundary == r.boundary && r'.record.pending == r.record.pending
    ensures StageOk(r') <==> StageOk(r)
  {
  }

  lemma OneKeepsOk(w: World, a: Action, n: nat)
    requires Inv(w) && Enabled(w, a) && n < |w.runs|
    ensures var r, r' := w.runs[n], NextOf(w.runs[n], a, n);
            && RunOk(r') && r'.request == r.request && (r'.listed ==> r.listed)
            && (Terminal(r.record.state) ==> Terminal(r'.record.state))
  {
    hide Inv, Enabled, RunOk, Moved, Terminal, MayProceed;
    RunOf(w, a, n);
    RunIsOk(w, n);
    if ByThread(a, n) {
      ThreadKeepsOk(w.runs[n], a, n, w.continuity);
      ThreadIsLive(w.runs[n], a, n, w.continuity);
    } else {
      OthersKeepOk(w.runs[n], a, n);
    }
  }

  /** Only the end of a thread comes after the terminal record. */
  lemma ThreadIsLive(r: Run, a: Action, n: nat, continuity: bool)
    requires RunOk(r) && ByThread(a, n) && MayDo(r, a, continuity)
    ensures Terminal(r.record.state) ==> a == EndThread(n) && Moved(r, a).record == r.record
  {
    hide MayProceed, StageOk;
  }

  lemma StepKeepsRuns(w: World, a: Action)
    requires Inv(w) && Enabled(w, a)
    ensures forall n | 0 <= n < |Next(w, a).runs| :: RunOk(Next(w, a).runs[n])
    ensures !a.Admit? ==> forall n | 0 <= n < |w.runs| ::
                            var r, r' := w.runs[n], Next(w, a).runs[n];
                            && r'.request == r.request && (r'.listed ==> r.listed)
                            && (Terminal(r.record.state) ==> Terminal(r'.record.state))
  {
    hide Inv, Enabled, Next, RunOk, Moved, Terminal, Fresh;
    OnlyAdmitted(w, a);
    forall n | 0 <= n < |Next(w, a).runs|
      ensures RunOk(Next(w, a).runs[n])
      ensures n < |w.runs| ==>
                var r, r' := w.runs[n], Next(w, a).runs[n];
                && r'.request == r.request && (r'.listed ==> r.listed)
                && (Terminal(r.record.state) ==> Terminal(r'.record.state))
    {
      if n < |w.runs| {
        RunOf(w, a, n);
        OneKeepsOk(w, a, n);
      } else {
        FreshIsOk(a.request);
      }
    }
  }

  lemma FreshIsOk(q: Request)
    ensures RunOk(Fresh(q))
  {
  }

  lemma StepKeepsIds(w: World, a: Action)
    requires Inv(w) && Enabled(w, a)
    ensures ListedOnce(Next(w, a).runs)
  {
    hide Count, HasRoom, Moved, RunOk, MayDo, Next;
    StepKeepsRuns(w, a);
    OnlyAdmitted(w, a);
  }

  lemma StepKeepsCounts(w: World, a: Action)
    requires Inv(w) && Enabled(w, a)
    ensures Count(Next(w, a).runs, Worker) <= MAX_WORKERS && Count(Next(w, a).runs, Reviewer) <= MAX_REVIEWERS
  {
    hide Enabled, Next, RunOk, Count, Terminal;
    if a.Admit? {
      AdmissionKeepsCounts(w, a);
    } else {
      StepKeepsRuns(w, a);
      OnlyAdmitted(w, a);
      CountShrinks(w.runs, Next(w, a).runs, Worker);
      CountShrinks(w.runs, Next(w, a).runs, Reviewer);
    }
  }

  lemma StepKeepsInv(w: World, a: Action)
    requires Inv(w) && Enabled(w, a)
    ensures Inv(Next(w, a))
  {
    hide Enabled, Next, RunOk, Count;
    StepKeepsRuns(w, a);
    StepKeepsIds(w, a);
    StepKeepsCounts(w, a);
  }

  lemma AdmissionKeepsCounts(w: World, a: Action)
    requires Inv(w) && Enabled(w, a) && a.Admit?
    ensures Count(Next(w, a).runs, Worker) <= MAX_WORKERS && Count(Next(w, a).runs, Reviewer) <= MAX_REVIEWERS
  {
    CountGrows(w.runs, Fresh(a.request), Worker);
    CountGrows(w.runs, Fresh(a.request), Reviewer);
  }

  lemma NothingRuns(continuity: bool)
    ensures Inv(Initial(continuity))
  {
  }

  lemma {:induction false} RunKeepsInv(states: seq<World>, actions: seq<Action>, i: nat)
    requires IsRun(states, actions) && i <= |actions|
    ensures Inv(states[i])
  {
    hide Enabled, Next, Inv;
    if i > 0 {
      RunKeepsInv(states, actions, i - 1);
      StepOf(states, actions, i - 1);
      StepKeepsInv(states[i - 1], actions[i - 1]);
    } else {
      NothingRuns(states[0].continuity);
    }
  }
}
