// The managed run service as an object: each method that changes it is one section run under its lock.

module ManagedRunService {
  import opened Options
  import opened ManagedRunModel
  import opened ManagedRunProperties

  datatype Error = Closed | Conflict | Limited | NotFound | Fault

  datatype Answer = Snapshot(record: Record, stopping: bool, pausing: bool) | Refused(error: Error)

  /** Two requests for the same run: the same tools, limits and scope; continuity may differ. */
  predicate AsksTheSame(a: Request, b: Request) {
    (a.id, a.allowTools, a.readOnly, a.scope) == (b.id, b.allowTools, b.readOnly, b.scope)
  }

  /** What a listed run answers to a start under its id. */
  predicate IsAnswer(run: Run, q: Request, r: Answer) {
    && run.listed && run.request.id == q.id
    && r == if AsksTheSame(run.request, q) then Snapshot(run.record, run.stopRequested, run.pauseRequested)
            else Refused(Conflict)
  }

  /** A worker finds sixteen unfinished workers, or a run that only reads as many of its kind. */
  ghost predicate IsFull(runs: seq<Run>, q: Request) {
    if q.scope.Some? then |Workers(runs)| >= 16 else q.readOnly && |Reviewers(runs)| >= 16
  }

  /** A finished worker or run that only reads, whose thread is gone. */
  predicate IsOver(r: Run) {
    && (r.request.scope.Some? || r.request.readOnly)
    && r.phase == Ended && r.record.state in {Completed, Failed, Cancelled}
  }

  class Service {
    const continuity: bool
    var runs: seq<Run>
    var shutdown: bool
    ghost var states: seq<World>
    ghost var actions: seq<Action>

    ghost function View(): World
      reads this
    {
      World(runs, shutdown, continuity)
    }

    /** The service is where a run of the state machine has led. */
    ghost predicate Valid()
      reads this
    {
      IsRun(states, actions) && states[|actions|] == View()
    }

    constructor (continuity: bool)
      ensures Valid() && actions == [] && this.continuity == continuity
    {
      this.continuity := continuity;
      runs, shutdown, states, actions := [], false, [Initial(continuity)], [];
    }

    /** The history only grows. */
    twostate predicate Continues()
      reads this
    {
      old(states) <= states && old(actions) <= actions
    }

    ghost method Log(a: Action)
      requires IsRun(states, actions) && Enabled(states[|actions|], a) && View() == Next(states[|actions|], a)
      modifies this`states, this`actions
      ensures Valid() && actions == old(actions) + [a] && states == old(states) + [View()]
    {
      states, actions := states + [View()], actions + [a];
    }

    /** The run listed under an id. */
    method Find(id: RunId) returns (found: Option<nat>)
      ensures found.Some? ==> found.value < |runs| && runs[found.value].listed && runs[found.value].request.id == id
      ensures found.None? <==> !Bound(runs, id)
    {
      for n := 0 to |runs|
        invariant !Bound(runs[..n], id)
      {
        if runs[n].listed && runs[n].request.id == id {
          return Some(n);
        }
        assert runs[..n + 1] == runs[..n] + [runs[n]];
      }
      assert runs[..|runs|] == runs;
      return None;
    }

    method CountBusy(kind: Kind) returns (c: nat)
      ensures c == Count(runs, kind)
    {
      c := 0;
      for n := 0 to |runs|
        invariant c == Count(runs[..n], kind)
      {
        assert runs[..n + 1][..n] == runs[..n];
        if runs[n].listed && KindOf(runs[n].request) == kind && !Terminal(runs[n].record.state) {
          c := c + 1;
        }
      }
      assert runs[..|runs|] == runs;
    }

    // ----- Starting -----

    /** The second section of a start: the run enters the list unless the id is taken, its kind is at
        its limit, its first record cannot be saved, or its thread cannot be created. */
    method Admit(q: Request) returns (r: Answer)
      requires Valid()
      modifies this
      ensures Valid() && Continues()
      ensures r.Snapshot? ==> r == Snapshot(Fresh(q).record, false, false)
      ensures r.Snapshot? ==> actions == old(actions) + [ManagedRunModel.Admit(q)]
      ensures r.Refused? ==> View() == old(View()) && actions == old(actions)
      ensures r == Refused(Closed) <==> old(shutdown)
      ensures r == Refused(Conflict) <==> !old(shutdown) && Bound(old(runs), q.id)
      ensures r == Refused(Limited) <==> !old(shutdown) && !Bound(old(runs), q.id) && IsFull(old(runs), q)
    {
      hide Count, Bound, IsRun, Workers, Reviewers;
      CountIsSize(runs);
      if shutdown {
        return Refused(Closed);
      }
      var found := Find(q.id);
      if found.Some? {
        return Refused(Conflict);
      }
      if q.scope.Some? {
        var busy := CountBusy(Worker);
        if busy >= MAX_WORKERS {
          return Refused(Limited);
        }
      } else if q.readOnly {
        var busy := CountBusy(Reviewer);
        if busy >= MAX_REVIEWERS {
          return Refused(Limited);
        }
      }
      var saved: bool := *;
      if !saved {
        return Refused(Fault);
      }
      // A run whose thread cannot be created leaves the list before anyone sees it.
      var threaded: bool := *;
      if !threaded {
        return Refused(Fault);
      }
      runs := runs + [Fresh(q)];
      assert View() == Next(old(View()), ManagedRunModel.Admit(q));
      Log(ManagedRunModel.Admit(q));
      return Snapshot(Fresh(q).record, false, false);
    }

    /** A start: a listed id answers its own record or a conflict; otherwise what the store says of it
        decides, and only an id the store does not know is admitted. `durable` is the store's answer. */
    method Start(q: Request, durable: Option<Option<(Request, Record)>>) returns (r: Answer, admitted: bool)
      requires Valid()
      modifies this
      ensures Valid() && Continues()
      ensures admitted ==> |actions| > |old(actions)| && actions[|actions| - 1] == ManagedRunModel.Admit(q) && r.Snapshot?
      ensures old(shutdown) ==> !admitted && r == Refused(Closed)
      ensures !old(shutdown) && Bound(Reaped(old(runs)), q.id) ==>
                !admitted && exists n | 0 <= n < |old(runs)| :: IsAnswer(Reaped(old(runs))[n], q, r)
      ensures !old(shutdown) && !Bound(Reaped(old(runs)), q.id) ==>
                match durable
                case None => !admitted && r == Refused(Fault)
                case Some(Some((was, record))) =>
                  !admitted && r == if AsksTheSame(was, q) then Snapshot(record, false, false) else Refused(Conflict)
                case Some(None) => admitted || r.Refused?
    {
      hide IsRun, Enabled, Next, Reaped;
      Reap();
      if shutdown {
        return Refused(Closed), false;
      }
      var found := Find(q.id);
      if found.Some? {
        var run := runs[found.value];
        r := if SameRequest(run.request, q) then Snapshot(run.record, run.stopRequested, run.pauseRequested)
             else Refused(Conflict);
        assert IsAnswer(Reaped(old(runs))[found.value], q, r);
        return r, false;
      }
      OthersAct(None);
      if durable.None? {
        return Refused(Fault), false;
      }
      if durable.value.Some? {
        var (was, record) := durable.value.value;
        return if SameRequest(was, q) then Snapshot(record, false, false) else Refused(Conflict), false;
      }
      if KindOf(q) == Ordinary {
        var saved: bool := *;
        if !saved {
          return Refused(Fault), false;
        }
      }
      OthersAct(None);
      r := Admit(q);
      admitted := r.Snapshot?;
    }

    // ----- Cancelling, pausing, resuming -----

    method Cancel(id: RunId) returns (found: Option<nat>)
      requires Valid()
      modifies this
      ensures Valid() && Continues()
      ensures found.None? ==> View() == old(View()) && !Bound(runs, id)
      ensures found.Some? ==>
                && actions == old(actions) + [ManagedRunModel.Cancel(found.value)]
                && found.value < |runs| && runs[found.value].listed && runs[found.value].request.id == id
                && runs[found.value].stopRequested && !runs[found.value].pauseRequested
                && var was := old(runs)[found.value].record;
                   var state := if was.state in {Running, Paused} then Cancelling else was.state;
                   runs == old(runs)[found.value := old(runs)[found.value].(
                             record := was.(state := state), pauseRequested := false, stopRequested := true)]
    {
      hide IsRun;
      found := Find(id);
      if found.Some? {
        var n := found.value;
        var run := runs[n];
        if run.record.state == Running || run.record.state == Paused {
          run := run.(record := run.record.(state := Cancelling));
        }
        run := run.(pauseRequested := false);
        run := run.(stopRequested := true);
        runs := runs[n := run];
        Log(ManagedRunModel.Cancel(n));
      }
    }

    method Pause(id: RunId) returns (found: Option<nat>)
      requires Valid()
      modifies this
      ensures Valid() && Continues()
      ensures found.None? ==> View() == old(View()) && !Bound(runs, id)
      ensures found.Some? ==>
                && actions == old(actions) + [ManagedRunModel.Pause(found.value)]
                && found.value < |runs| && runs[found.value].listed && runs[found.value].request.id == id
                && (runs[found.value].record.state == Running ==> runs[found.value].pauseRequested)
                && var was := old(runs)[found.value];
                   runs == old(runs)[found.value := was.(pauseRequested := was.pauseRequested || was.record.state == Running)]
    {
      hide IsRun;
      found := Find(id);
      if found.Some? {
        var n := found.value;
        if runs[n].record.state == Running {
          runs := runs[n := runs[n].(pauseRequested := true)];
        }
        Log(ManagedRunModel.Pause(n));
      }
    }

    method Resume(id: RunId) returns (found: Option<nat>)
      requires Valid()
      modifies this
      ensures Valid() && Continues()
      ensures found.None? ==> View() == old(View()) && !Bound(runs, id)
      ensures found.Some? ==>
                && actions == old(actions) + [ManagedRunModel.Resume(found.value)]
                && found.value < |runs| && runs[found.value].listed && runs[found.value].request.id == id
                && runs[found.value].record.state != Paused
                && (runs[found.value].record.state == Running ==> !runs[found.value].pauseRequested)
                && var was := old(runs)[found.value];
                   runs == old(runs)[found.value :=
                             if was.record.state !in {Running, Paused} then was
                             else was.(pauseRequested := false, record := was.record.(state := Running))]
    {
      hide IsRun;
      found := Find(id);
      if found.Some? {
        var n := found.value;
        if runs[n].record.state == Paused || (runs[n].record.state == Running && runs[n].pauseRequested) {
          var run := runs[n].(pauseRequested := false);
          if run.record.state == Paused {
            run := run.(record := run.record.(state := Running));
          }
          runs := runs[n := run];
        }
        Log(ManagedRunModel.Resume(n));
      }
    }

    // ----- Retiring and shutting down -----

    method Reap()
      requires Valid()
      modifies this
      ensures Valid() && Continues() && shutdown == old(shutdown)
      ensures !shutdown ==> runs == Reaped(old(runs)) && actions == old(actions) + [ManagedRunModel.Reap]
      ensures !shutdown ==> |runs| == |old(runs)| && forall n | 0 <= n < |runs| ::
                runs[n] == old(runs)[n].(listed := old(runs)[n].listed && !IsOver(old(runs)[n]))
      ensures shutdown ==> View() == old(View()) && actions == old(actions)
    {
      hide IsRun;
      if shutdown {
        return;
      }
      ghost var was := runs;
      for n := 0 to |runs|
        invariant |runs| == |was| && shutdown == old(shutdown) && states == old(states) && actions == old(actions)
        invariant forall k | 0 <= k < n :: runs[k] == Reaped(was)[k]
        invariant forall k | n <= k < |runs| :: runs[k] == was[k]
      {
        if KindOf(runs[n].request) != Ordinary && runs[n].phase == Ended && Terminal(runs[n].record.state) {
          runs := runs[n := runs[n].(listed := false)];
        }
      }
      assert runs == Reaped(was);
      Log(ManagedRunModel.Reap);
    }

    /** The first section of a shutdown; `mine` tells whether this caller performs it. */
    method BeginShutdown() returns (mine: bool)
      requires Valid()
      modifies this
      ensures Valid() && Continues() && shutdown && mine == !old(shutdown)
      ensures mine ==> runs == Unpaused(old(runs)) && actions == old(actions) + [Shutdown]
      ensures !mine ==> View() == old(View()) && actions == old(actions)
    {
      hide IsRun;
      if shutdown {
        return false;
      }
      ghost var was := runs;
      for n := 0 to |runs|
        invariant |runs| == |was| && shutdown == old(shutdown) && states == old(states) && actions == old(actions)
        invariant forall k | 0 <= k < n :: runs[k] == Unpaused(was)[k]
        invariant forall k | n <= k < |runs| :: runs[k] == was[k]
      {
        if runs[n].listed {
          runs := runs[n := runs[n].(pauseRequested := false)];
        }
      }
      assert runs == Unpaused(was);
      shutdown := true;
      Log(Shutdown);
      return true;
    }

    /** A shutdown: afterwards every run has been asked to stop or is done, and none can be added. */
    method ShutDown()
      requires Valid()
      modifies this
      ensures Valid() && Continues() && shutdown
      ensures !old(shutdown) ==> forall n | 0 <= n < |runs| :: Stopping(runs[n])
    {
      hide IsRun, Enabled, Next, Stopping;
      Reap();
      var mine := BeginShutdown();
      if !mine {
        return;
      }
      var targets := runs;
      UnlistedAreStopping();
      for n := 0 to |targets|
        invariant Valid() && Continues() && shutdown && |targets| == |runs|
        invariant forall k | 0 <= k < |runs| && (k < n || !targets[k].listed) :: Stopping(runs[k])
      {
        Elapse();
        StoppingWhen(runs[n]);
        if targets[n].listed && (KindOf(targets[n].request) == Ordinary || !Terminal(runs[n].record.state)) {
          RequestStop(n);
        }
      }
    }

    lemma UnlistedAreStopping()
      requires Valid()
      ensures forall n | 0 <= n < |runs| && !runs[n].listed :: Stopping(runs[n])
    {
      RunKeepsInv(states, actions, |actions|);
      assert forall n | 0 <= n < |runs| :: RunOk(runs[n]);
    }

    /** Other threads act during a shutdown. */
    method Elapse()
      requires Valid() && shutdown
      modifies this
      ensures Valid() && Continues() && shutdown && |runs| == |old(runs)|
      ensures forall n | 0 <= n < |runs| && Stopping(old(runs)[n]) :: Stopping(runs[n])
      ensures forall n | 0 <= n < |runs| :: RunOk(runs[n])
    {
      hide Enabled, Next, Stopping;
      ghost var i := |actions|;
      OthersAct(None);
      ShutdownIsKept(states, actions, i, |actions|);
      RunKeepsInv(states, actions, |actions|);
    }

    method RequestStop(n: nat)
      requires Valid() && shutdown && n < |runs|
      modifies this
      ensures Valid() && Continues() && shutdown && runs == old(runs)[n := old(runs)[n].(stopRequested := true)]
      ensures actions == old(actions) + [StopRun(n)]
    {
      hide IsRun;
      runs := runs[n := runs[n].(stopRequested := true)];
      Log(StopRun(n));
    }

    // ----- What the threads of the runs do -----

    /** An action of the thread of run `n`. */
    method Act(n: nat, a: Action)
      requires Valid() && Enabled(View(), a) && IsAbout(a, n) && ByThread(a, n)
      modifies this
      ensures Valid() && Continues() && View() == Next(old(View()), a) && actions == old(actions) + [a]
      ensures Dispatches(actions, n) == Dispatches(old(actions), n) + if a == Dispatch(n) then 1 else 0
    {
      hide IsRun;
      DispatchesGrow(actions, a, n);
      runs := runs[n := Moved(runs[n], a)];
      Log(a);
    }

    /** Any number of actions of other threads. */
    method OthersAct(me: Option<nat>)
      requires Valid() && (me.Some? ==> me.value < |runs|)
      modifies this
      ensures Valid() && Continues() && |runs| >= |old(runs)| && (old(shutdown) ==> shutdown)
      ensures me.Some? ==> Held(old(View()), View(), me.value)
      ensures me.Some? ==> Dispatches(actions, me.value) == Dispatches(old(actions), me.value)
      ensures me.Some? ==> RunOk(runs[me.value])
    {
      var times: nat :| true;
      for k := 0 to times
        invariant Valid() && Continues() && |runs| >= |old(runs)| && (old(shutdown) ==> shutdown)
        invariant me.Some? ==> Held(old(View()), View(), me.value)
        invariant me.Some? ==> Dispatches(actions, me.value) == Dispatches(old(actions), me.value)
      {
        hide IsRun, Enabled, Next, ByThread, Held, Dispatches;
        var a: Action :| true;
        if (me.None? || !ByThread(a, me.value)) && Enabled(World(runs, shutdown, continuity), a) {
          RunKeepsInv(states, actions, |actions|);
          StepOnAll(View(), a);
          if me.Some? {
            HeldStep(old(View()), View(), a, me.value);
            DispatchesGrow(actions, a, me.value);
            assert a != Dispatch(me.value) by { NotDispatch(a, me.value); }
          }
          var w' := Next(World(runs, shutdown, continuity), a);
          runs, shutdown := w'.runs, w'.shutdown;
          Log(a);
        }
      }
      RunKeepsInv(states, actions, |actions|);
    }
  }

  /** What other threads leave of a run: its thread's progress, its request, a request to stop, a
      terminal record, and all of a record but its state. */
  predicate Held(w: World, w': World, n: nat)
  {
    n < |w.runs| <= |w'.runs|
    && var r, r' := w.runs[n], w'.runs[n];
       && r'.request == r.request && SamePlace(r, r')
       && (r.stopRequested ==> r'.stopRequested)
       && (Terminal(r.record.state) ==> r'.record == r.record)
       && OnlyState(r, r')
  }

  lemma HeldStep(w0: World, w: World, a: Action, n: nat)
    requires Held(w0, w, n) && Inv(w) && Enabled(w, a) && !ByThread(a, n)
    ensures Held(w0, Next(w, a), n)
  {
    StepOnRun(w, a, n);
    hide Enabled, Inv, ByThread, Terminal;
  }

  lemma NotDispatch(a: Action, n: nat)
    requires !ByThread(a, n)
    ensures a != Dispatch(n)
  {
  }

  lemma StoppingWhen(r: Run)
    requires RunOk(r)
    ensures Terminal(r.record.state) ==> Stopping(r)
    ensures Stopping(r.(stopRequested := true))
  {
  }
}
