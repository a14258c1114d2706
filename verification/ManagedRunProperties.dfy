// What holds of managed runs in every interleaving of their threads with start, cancel, pause,
// resume, reaping and shutdown.

module ManagedRunProperties {
  import opened Options
  import opened ManagedRunModel

  /** What one action leaves of a run it finds. */
  lemma StepOnRun(w: World, a: Action, n: nat)
    requires Inv(w) && Enabled(w, a) && n < |w.runs|
    ensures n < |Next(w, a).runs|
    ensures var r, r' := w.runs[n], Next(w, a).runs[n];
            && r'.request == r.request && (r.stopRequested ==> r'.stopRequested)
            && (Terminal(r.record.state) ==> r'.record == r.record)
            && (!ByThread(a, n) ==> OnlyState(r, r') && SamePlace(r, r'))
  {
    hide Inv, Enabled, Next, RunOk, Moved, Terminal, MayProceed;
    RunOf(w, a, n);
    RunIsOk(w, n);
    if ByThread(a, n) {
      ThreadKeepsOk(w.runs[n], a, n, w.continuity);
      ThreadIsLive(w.runs[n], a, n, w.continuity);
      ThreadKeepsStop(w.runs[n], a, n);
    } else {
      OthersKeepOk(w.runs[n], a, n);
    }
  }

  lemma ThreadKeepsStop(r: Run, a: Action, n: nat)
    requires ByThread(a, n)
    ensures Moved(r, a).stopRequested == r.stopRequested && Moved(r, a).pauseRequested == r.pauseRequested
  {
  }

  /** The thread stands where it stood. */
  predicate SamePlace(r: Run, r': Run) {
    r'.phase == r.phase && r'.stage == r.stage && r'.boundary == r.boundary && r'.holding == r.holding
  }

  /** Other threads change no more of a record than its state, and never to `Paused`. */
  predicate OnlyState(r: Run, r': Run) {
    r'.record == r.record.(state := r'.record.state) && (r'.record.state == Paused ==> r.record.state == Paused)
  }

  /** A terminal state never changes, nor does the record that holds it. */
  lemma {:induction false} TerminalIsFinal(states: seq<World>, actions: seq<Action>, i: nat, j: nat, n: nat)
    requires IsRun(states, actions) && i <= j <= |actions| && n < |states[i].runs|
    requires Terminal(states[i].runs[n].record.state)
    ensures n < |states[j].runs| && states[j].runs[n].record == states[i].runs[n].record
    decreases j
  {
    hide *;
    if i < j {
      TerminalIsFinal(states, actions, i, j - 1, n);
      RunKeepsInv(states, actions, j - 1);
      StepOf(states, actions, j - 1);
      StepOnRun(states[j - 1], actions[j - 1], n);
    }
  }

  /** A request to stop is never taken back, and a run keeps its place and its request. */
  lemma {:induction false} StopIsKept(states: seq<World>, actions: seq<Action>, i: nat, j: nat, n: nat)
    requires IsRun(states, actions) && i <= j <= |actions| && n < |states[i].runs|
    ensures n < |states[j].runs| && states[j].runs[n].request == states[i].runs[n].request
    ensures states[i].runs[n].stopRequested ==> states[j].runs[n].stopRequested
    decreases j
  {
    hide *;
    if i < j {
      StopIsKept(states, actions, i, j - 1, n);
      RunKeepsInv(states, actions, j - 1);
      StepOf(states, actions, j - 1);
      StepOnRun(states[j - 1], actions[j - 1], n);
    }
  }

  predicate Stopping(r: Run) {
    r.stopRequested || r.phase != Working
  }

  lemma StepOnAll(w: World, a: Action)
    requires Inv(w) && Enabled(w, a)
    ensures w.shutdown ==> |Next(w, a).runs| == |w.runs| && Next(w, a).shutdown
    ensures forall n | 0 <= n < |w.runs| && Stopping(w.runs[n]) :: Stopping(Next(w, a).runs[n])
  {
    forall n | 0 <= n < |w.runs| && Stopping(w.runs[n])
      ensures Stopping(Next(w, a).runs[n])
    {
      StepOnRun(w, a, n);
      StepKeepsInv(w, a);
      assert RunOk(w.runs[n]) && RunOk(Next(w, a).runs[n]);
      hide Enabled, Next, Inv;
    }
  }

  /** After a shutdown no run is added, and a run that is stopping or done stays so. */
  lemma {:induction false} ShutdownIsKept(states: seq<World>, actions: seq<Action>, i: nat, j: nat)
    requires IsRun(states, actions) && i <= j <= |actions| && states[i].shutdown
    ensures |states[j].runs| == |states[i].runs| && states[j].shutdown
    ensures forall n | 0 <= n < |states[i].runs| && Stopping(states[i].runs[n]) :: Stopping(states[j].runs[n])
    decreases j
  {
    hide *;
    if i < j {
      ShutdownIsKept(states, actions, i, j - 1);
      RunKeepsInv(states, actions, j - 1);
      StepOf(states, actions, j - 1);
      StepOnAll(states[j - 1], actions[j - 1]);
    }
  }

  /** At most sixteen workers and sixteen read-only runs are unfinished at any time, and a run whose thread
      works is the one listed under its id. */
  lemma UnfinishedAreBounded(states: seq<World>, actions: seq<Action>, i: nat)
    requires IsRun(states, actions) && i <= |actions|
    ensures var runs := states[i].runs;
            && |Workers(runs)| <= 16 && |Reviewers(runs)| <= 16
            && (forall n | 0 <= n < |runs| :: runs[n].phase == Working <==> !Terminal(runs[n].record.state))
            && (forall n | 0 <= n < |runs| && runs[n].phase == Working :: runs[n].listed)
            && (forall n, m | 0 <= n < m < |runs| && runs[n].listed && runs[m].listed ::
                  runs[n].request.id != runs[m].request.id)
  {
    RunKeepsInv(states, actions, i);
    assert forall n | 0 <= n < |states[i].runs| :: RunOk(states[i].runs[n]);
    CountIsSize(states[i].runs);
    hide Enabled, IsRun, Count, Workers, Reviewers;
  }

  // ----- Stopping and pausing -----

  predicate Asked(r: Run) {
    r.stopRequested || r.pauseRequested
  }

  function Dispatches(actions: seq<Action>, n: nat): nat {
    if actions == [] then 0
    else Dispatches(actions[..|actions| - 1], n) + if actions[|actions| - 1] == Dispatch(n) then 1 else 0
  }

  lemma DispatchesGrow(actions: seq<Action>, a: Action, n: nat)
    ensures Dispatches(actions + [a], n) == Dispatches(actions, n) + if a == Dispatch(n) then 1 else 0
  {
    assert (actions + [a])[..|actions|] == actions;
  }

  /** Dispatches the thread may still do without reading the requests again. */
  function Owed(r: Run): nat {
    if r.stage != Acting && (r.boundary == Passed || (r.boundary == SawNoPause && !r.stopRequested)) then 1 else 0
  }

  lemma AskedThread(r: Run, a: Action, n: nat, continuity: bool)
    requires ByThread(a, n) && MayDo(r, a, continuity) && Asked(r)
    ensures Owed(Moved(r, a)) + (if a == Dispatch(n) then 1 else 0) <= Owed(r)
  {
    hide MayPublish, MayTakeCalls;
    if a.Publish? {
      assert Owed(Published(r, a.record)) <= Owed(r);
    }
  }

  lemma AskedStep(w: World, a: Action, n: nat)
    requires Inv(w) && Enabled(w, a) && n < |w.runs| && Asked(w.runs[n])
    ensures n < |Next(w, a).runs|
    ensures Owed(Next(w, a).runs[n]) + (if a == Dispatch(n) then 1 else 0) <= Owed(w.runs[n])
  {
    hide Inv, Enabled, Next, RunOk, Moved, Asked, Owed, Terminal, MayProceed;
    RunOf(w, a, n);
    RunIsOk(w, n);
    if ByThread(a, n) {
      AskedThread(w.runs[n], a, n, w.continuity);
    } else {
      OthersKeepOk(w.runs[n], a, n);
      OwedStays(w.runs[n], NextOf(w.runs[n], a, n));
    }
  }

  lemma OwedStays(r: Run, r': Run)
    requires r'.stage == r.stage && r'.boundary == r.boundary && (r.stopRequested ==> r'.stopRequested)
    ensures Owed(r') <= Owed(r)
  {
  }

  lemma {:induction false} DispatchesAreOwed(states: seq<World>, actions: seq<Action>, i: nat, j: nat, n: nat)
    requires IsRun(states, actions) && i <= j <= |actions| && n < |states[i].runs|
    requires forall k | i <= k < j :: n < |states[k].runs| ==> Asked(states[k].runs[n])
    ensures n < |states[j].runs| && Dispatches(actions[i..j], n) + Owed(states[j].runs[n]) <= Owed(states[i].runs[n])
    decreases j
  {
    hide *;
    if i < j {
      DispatchesAreOwed(states, actions, i, j - 1, n);
      RunKeepsInv(states, actions, j - 1);
      StepOf(states, actions, j - 1);
      AskedStep(states[j - 1], actions[j - 1], n);
      StopIsKept(states, actions, i, j, n);
      LastOf(actions, i, j, n);
    } else {
      NoDispatch(n);
      assert actions[i..j] == [];
    }
  }

  lemma NoDispatch(n: nat)
    ensures Dispatches([], n) == 0
  {
  }

  lemma LastOf(actions: seq<Action>, i: nat, j: nat, n: nat)
    requires i < j <= |actions|
    ensures Dispatches(actions[i..j], n) ==
            Dispatches(actions[i..j - 1], n) + if actions[j - 1] == Dispatch(n) then 1 else 0
  {
    assert actions[i..j] == actions[i..j - 1] + [actions[j - 1]];
    DispatchesGrow(actions[i..j - 1], actions[j - 1], n);
  }

  /** While a run is asked to pause or to stop, it calls the provider or a tool at most once more:
      what it had already been cleared to do. */
  lemma AtMostOneMoreDispatch(states: seq<World>, actions: seq<Action>, i: nat, j: nat, n: nat)
    requires IsRun(states, actions) && i <= j <= |actions| && n < |states[i].runs|
    requires forall k | i <= k < j :: n < |states[k].runs| ==> Asked(states[k].runs[n])
    ensures Dispatches(actions[i..j], n) <= 1
    ensures Owed(states[i].runs[n]) == 0 ==> Dispatches(actions[i..j], n) == 0
  {
    DispatchesAreOwed(states, actions, i, j, n);
    hide IsRun, Dispatches;
  }

  /** After a cancellation a run calls the provider or a tool at most once more, for ever. */
  lemma CancelStopsDispatch(states: seq<World>, actions: seq<Action>, i: nat, j: nat, n: nat)
    requires IsRun(states, actions) && i < j <= |actions| && actions[i] == Cancel(n)
    ensures Dispatches(actions[i + 1..j], n) <= 1
  {
    assert Enabled(states[i], actions[i]);
    assert states[i + 1].runs[n].stopRequested;
    forall k | i + 1 <= k < j
      ensures n < |states[k].runs| && Asked(states[k].runs[n])
    {
      StopIsKept(states, actions, i + 1, k, n);
    }
    AtMostOneMoreDispatch(states, actions, i + 1, j, n);
  }

  /** What a cancelled run shows while its thread works: `Cancelling`, unless the thread published
      a record since. */
  lemma {:induction false} CancellingUntilPublished(states: seq<World>, actions: seq<Action>, i: nat, j: nat, n: nat)
    requires IsRun(states, actions) && i <= j <= |actions| && n < |states[i].runs|
    requires states[i].runs[n].record.state == Cancelling
    requires forall k | i <= k < j :: !actions[k].Publish? || actions[k].n != n
    ensures n < |states[j].runs|
    ensures states[j].runs[n].record.state == Cancelling || states[j].runs[n].phase != Working
    decreases j
  {
    hide *;
    if i < j {
      CancellingUntilPublished(states, actions, i, j - 1, n);
      RunKeepsInv(states, actions, j - 1);
      StepOf(states, actions, j - 1);
      ShowsCancelling(states[j - 1], actions[j - 1], n);
    }
  }

  lemma ShowsCancelling(w: World, a: Action, n: nat)
    requires Inv(w) && Enabled(w, a) && n < |w.runs| && (!a.Publish? || a.n != n)
    requires w.runs[n].record.state == Cancelling || w.runs[n].phase != Working
    ensures n < |Next(w, a).runs|
    ensures var r := Next(w, a).runs[n]; r.record.state == Cancelling || r.phase != Working
  {
    hide Inv, Enabled, Next, MayProceed;
    RunOf(w, a, n);
    RunIsOk(w, n);
  }

  // ----- When a cancellation can be hidden -----

  /** The thread is about to show something without coming to another boundary: it read a pause it has
      not shown, passed the boundary that ended a pause, passed the boundary before a turn or before the
      last call of a reply, is in such a turn or call, or asks continuity for a successor. */
  predicate Hideable(r: Run, continuity: bool) {
    match r.boundary
    case SawPause => !r.holding
    case Passed => r.holding || r.stage == Asking || BeforeLastCall(r)
    case Called => r.stage == Asking || AfterLastCall(r)
    case Observing => MayMove(r, continuity)
    case _ => false
  }

  predicate BeforeLastCall(r: Run) {
    r.stage.Calls? && r.stage.done + 1 == |r.record.pending| && r.record.pending[r.stage.done].parses
  }

  predicate AfterLastCall(r: Run) {
    r.stage.Calls? && r.stage.done == |r.record.pending|
  }

  predicate Hidden(r: Run) {
    r.record.state == Running || r.record.state == Paused
  }

  /** A working run that is shown as cancelling, with nothing about to be shown. */
  predicate Stuck(r: Run, continuity: bool) {
    !Hidden(r) && (r.phase == Working ==> r.record.state == Cancelling && !Hideable(r, continuity))
  }

  /** A thread shows only what was about to be shown. */
  lemma StuckThread(r: Run, a: Action, n: nat, continuity: bool)
    requires RunOk(r) && ByThread(a, n) && MayDo(r, a, continuity) && Stuck(r, continuity)
    ensures Stuck(Moved(r, a), continuity)
  {
    if a.Publish? {
      assert Hideable(r, continuity);
    }
  }

  lemma StuckOthers(r: Run, a: Action, n: nat, continuity: bool)
    requires RunOk(r) && !ByThread(a, n) && Stuck(r, continuity)
    ensures Stuck(NextOf(r, a, n), continuity)
  {
    OthersKeepOk(r, a, n);
    hide StageOk;
  }

  lemma StuckStep(w: World, a: Action, n: nat)
    requires Inv(w) && Enabled(w, a) && n < |w.runs| && Stuck(w.runs[n], w.continuity)
    ensures n < |Next(w, a).runs| && Stuck(Next(w, a).runs[n], w.continuity) && Next(w, a).continuity == w.continuity
  {
    hide Inv, Enabled, Next, RunOk, Moved, Stuck, MayProceed;
    RunOf(w, a, n);
    RunIsOk(w, n);
    if ByThread(a, n) {
      StuckThread(w.runs[n], a, n, w.continuity);
    } else {
      StuckOthers(w.runs[n], a, n, w.continuity);
    }
  }

  /** A cancellation that finds nothing about to be shown stays visible until the run is over. */
  lemma {:induction false} StaysVisible(states: seq<World>, actions: seq<Action>, i: nat, j: nat, n: nat)
    requires IsRun(states, actions) && i <= j <= |actions| && n < |states[i].runs|
    requires states[i].runs[n].record.state == Cancelling && states[i].runs[n].phase == Working
    requires !Hideable(states[i].runs[n], states[i].continuity)
    ensures n < |states[j].runs| && states[j].continuity == states[i].continuity
    ensures Stuck(states[j].runs[n], states[j].continuity)
    decreases j
  {
    hide IsRun, Enabled, Next, Inv, Hideable;
    if i < j {
      StaysVisible(states, actions, i, j - 1, n);
      RunKeepsInv(states, actions, j - 1);
      StepOf(states, actions, j - 1);
      StuckStep(states[j - 1], actions[j - 1], n);
    }
  }

  lemma Extended(states: seq<World>, actions: seq<Action>, a: Action)
    returns (more: seq<World>, acts: seq<Action>)
    requires |states| == |actions| + 1 && IsRun(states, actions) && Enabled(states[|actions|], a)
    ensures acts == actions + [a] && more == states + [Next(states[|actions|], a)] && |more| == |acts| + 1 && IsRun(more, acts)
  {
    hide Enabled, Next;
    acts, more := actions + [a], states + [Next(states[|actions|], a)];
    forall i | 0 <= i < |acts|
      ensures Enabled(more[i], acts[i]) && more[i + 1] == Next(more[i], acts[i])
    {
      if i < |actions| {
        StepOf(states, actions, i);
      }
    }
  }

  /** Where something is about to be shown, the cancellation can be hidden by showing it. */
  lemma CanHide(states: seq<World>, actions: seq<Action>, n: nat) returns (more: seq<World>, acts: seq<Action>)
    requires |states| == |actions| + 1 && IsRun(states, actions) && n < |states[|actions|].runs|
    requires var w := states[|actions|]; w.runs[n].phase == Working && Hideable(w.runs[n], w.continuity)
    ensures IsRun(more, acts) && states <= more && actions <= acts && |more| == |acts| + 1
    ensures n < |more[|acts|].runs| && Hidden(more[|acts|].runs[n])
  {
    RunKeepsInv(states, actions, |actions|);
    var w := states[|actions|];
    assert RunOk(w.runs[n]);
    hide IsRun, Inv, Enabled, Next, Hideable, Hidden, RunOk;
    more, acts := states, actions;
    if w.runs[n].boundary == Passed && !w.runs[n].holding {
      CallsOut(w, n);
      more, acts := Extended(more, acts, Dispatch(n));
    }
    var a := Shows(more[|acts|], n);
    more, acts := Extended(more, acts, a);
  }

  lemma CallsOut(w: World, n: nat)
    requires Works(w, n) && RunOk(w.runs[n]) && Hideable(w.runs[n], w.continuity)
    requires w.runs[n].boundary == Passed && !w.runs[n].holding
    ensures Enabled(w, Dispatch(n)) && Next(w, Dispatch(n)).continuity == w.continuity
    ensures var w' := Next(w, Dispatch(n));
            Works(w', n) && RunOk(w'.runs[n]) && Hideable(w'.runs[n], w'.continuity) && w'.runs[n].boundary == Called
  {
  }

  lemma Shows(w: World, n: nat) returns (a: Action)
    requires Works(w, n) && RunOk(w.runs[n]) && Hideable(w.runs[n], w.continuity)
    requires w.runs[n].boundary != Passed || w.runs[n].holding
    ensures Enabled(w, a) && n < |Next(w, a).runs| && Hidden(Next(w, a).runs[n])
  {
    var r := w.runs[n];
    var record := r.record.(state := if r.boundary == SawPause then Paused else Running);
    a := Publish(n, if r.boundary == Called && r.stage != Asking then record.(pending := [])
                    else if r.boundary == Called || r.boundary == Observing then record.(response := Some(0))
                    else record);
  }

  /** A run that goes on from another, and in the end shows its run `n` as running or paused. */
  ghost predicate HiddenBy(states: seq<World>, actions: seq<Action>, more: seq<World>, acts: seq<Action>, n: nat) {
    && IsRun(more, acts) && states <= more && actions <= acts
    && n < |more[|acts|].runs| && Hidden(more[|acts|].runs[n])
  }

  /** A cancellation of a working run can be hidden exactly if the thread, when the run was cancelled, was
      about to show something without coming to another boundary. */
  lemma CancellationHiddenExactly(states: seq<World>, actions: seq<Action>, n: nat)
    requires |states| == |actions| + 1 && IsRun(states, actions) && Enabled(states[|actions|], Cancel(n))
    requires states[|actions|].runs[n].phase == Working
    ensures (exists more: seq<World>, acts: seq<Action> :: HiddenBy(states, actions + [Cancel(n)], more, acts, n))
            <==> Hideable(states[|actions|].runs[n], states[|actions|].continuity)
  {
    var at := |actions|;
    var r, continuity := states[at].runs[n], states[at].continuity;
    RunKeepsInv(states, actions, at);
    assert RunOk(r);
    var cancelled, cut := Extended(states, actions, Cancel(n));
    CancelShows(states[at], n);
    hide Enabled, Next, Inv, Hideable, IsRun;
    if Hideable(r, continuity) {
      var more, acts := CanHide(cancelled, cut, n);
      assert HiddenBy(states, actions + [Cancel(n)], more, acts, n);
    }
    forall more: seq<World>, acts: seq<Action> | HiddenBy(states, actions + [Cancel(n)], more, acts, n)
      ensures Hideable(r, continuity)
    {
      assert more[at] == states[at] && acts[at] == (actions + [Cancel(n)])[at] == Cancel(n);
      StepOf(more, acts, at);
      if !Hideable(r, continuity) {
        StaysVisible(more, acts, at + 1, |acts|, n);
      }
    }
  }

  /** Cancelling a working run shows it as cancelling and moves its thread nowhere. */
  lemma CancelShows(w: World, n: nat)
    requires Enabled(w, Cancel(n)) && RunOk(w.runs[n]) && w.runs[n].phase == Working
    ensures var w' := Next(w, Cancel(n));
            && w'.continuity == w.continuity && w'.runs[n].record.state == Cancelling && w'.runs[n].phase == Working
            && (Hideable(w'.runs[n], w'.continuity) <==> Hideable(w.runs[n], w.continuity))
  {
  }

  /** Such a run: the thread asks the provider, the run is cancelled, the reply comes and is shown. */
  lemma CancellationCanBeHidden(q: Request, continuity: bool, reply: Record) returns (states: seq<World>, actions: seq<Action>)
    requires reply.state == Running && reply.response.Some? && reply.output.None? && !reply.truncated
    ensures actions == [Admit(q), SeeNoPause(0), Clear(0), Dispatch(0), Cancel(0), Publish(0, reply)]
    ensures IsRun(states, actions) && |states| == 7 && |states[5].runs| == |states[6].runs| == 1
    ensures states[5].runs[0].record.state == Cancelling
    ensures states[6].runs[0].record.state == Running && states[6].runs[0].stopRequested
  {
    hide Enabled, Next, IsRun, OnlyRun;
    states, actions := AsksTheProvider(q, continuity);
    var r := Fresh(q).(boundary := Called);
    states, actions, r := Does(states, actions, r, Cancel(0));
    OnlyRunIs(states[5], r);
    states, actions, r := Does(states, actions, r, Publish(0, reply));
    OnlyRunIs(states[6], r);
  }

  lemma AsksTheProvider(q: Request, continuity: bool) returns (states: seq<World>, actions: seq<Action>)
    ensures actions == [Admit(q), SeeNoPause(0), Clear(0), Dispatch(0)] && IsRun(states, actions) && |states| == 5
    ensures OnlyRun(states[4], Fresh(q).(boundary := Called))
  {
    hide Enabled, Next, IsRun, OnlyRun;
    states, actions := [Initial(continuity)], [];
    AdmittedFirst(q, continuity);
    states, actions := Extended(states, actions, Admit(q));
    var r := Fresh(q);
    states, actions, r := Does(states, actions, r, SeeNoPause(0));
    states, actions, r := Does(states, actions, r, Clear(0));
    states, actions, r := Does(states, actions, r, Dispatch(0));
  }

  /** The service knows one run. */
  predicate OnlyRun(w: World, r: Run) {
    w.runs == [r]
  }

  lemma OnlyRunIs(w: World, r: Run)
    requires OnlyRun(w, r)
    ensures w.runs == [r]
  {
  }

  lemma Does(states: seq<World>, actions: seq<Action>, r: Run, a: Action)
    returns (more: seq<World>, acts: seq<Action>, r': Run)
    requires |states| == |actions| + 1 && IsRun(states, actions) && OnlyRun(states[|actions|], r)
    requires IsAbout(a, 0) && !a.StopRun? && MayDo(r, a, states[|actions|].continuity)
    ensures acts == actions + [a] && |more| == |acts| + 1 && states <= more && IsRun(more, acts)
    ensures r' == Moved(r, a) && OnlyRun(more[|acts|], r') && more[|acts|].continuity == states[|actions|].continuity
  {
    hide MayDo, Moved, IsRun;
    more, acts := Extended(states, actions, a);
    r' := Moved(r, a);
    assert more[|acts|] == Next(states[|actions|], a);
  }

  lemma AdmittedFirst(q: Request, continuity: bool)
    ensures IsRun([Initial(continuity)], []) && Enabled(Initial(continuity), Admit(q))
    ensures OnlyRun(Next(Initial(continuity), Admit(q)), Fresh(q)) && Next(Initial(continuity), Admit(q)).continuity == continuity
  {
  }

  /** A run cancelled in a call that is not the last of its reply: a boundary comes before the next call,
      so nothing hides this cancellation. */
  lemma CancelledBetweenCalls(states: seq<World>, actions: seq<Action>, i: nat, j: nat, n: nat)
    requires IsRun(states, actions) && i < j <= |actions| && actions[i] == Cancel(n)
    requires n < |states[i].runs| && states[i].runs[n].phase == Working && states[i].runs[n].boundary == Called
    requires var r := states[i].runs[n]; r.stage.Calls? && r.stage.done < |r.record.pending|
    ensures n < |states[j].runs| && !Hidden(states[j].runs[n])
  {
    RunKeepsInv(states, actions, i);
    assert RunOk(states[i].runs[n]);
    StepOf(states, actions, i);
    CancelShows(states[i], n);
    hide IsRun, Inv, Enabled, Next;
    StaysVisible(states, actions, i + 1, j, n);
  }
}
