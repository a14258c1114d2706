// The thread of one managed run: it talks to the provider and invokes tools, and passes a boundary
// before each of these where a request to pause or to stop takes effect.

module ManagedRunWorker {
  import opened Options
  import opened Utf8
  import opened ManagedRunModel
  import opened ManagedRunProperties
  import opened ManagedRunTalk
  import S = ManagedRunService
  import SchedulePaging

  /** `Stopped`: the process ended first. */
  datatype Gate = Through | Over | Stopped

  class Worker {
    const service: S.Service
    const n: nat
    const q: Request
    const rules: Rules
    const catalog: seq<Tool>
    const hasAuthority: bool      // whether the service was given a workspace authority, a catalog and a router
    var life: nat                 // how long the process still lives
    ghost var exchanges: seq<Exchange>
    ghost var invocations: seq<Invocation>
    ghost var saved: seq<Record>
    /** Something this run needs has failed it: the store, the provider, the policy or continuity. */
    ghost var troubled: bool

    ghost predicate Valid()
      reads this, service
    {
      && service.Valid() && n < |service.runs| && service.runs[n].request == q
      && OncePerResponse(exchanges) && Chained(exchanges) && InvocationsOk(rules, q, catalog, exchanges, invocations)
      && |exchanges| + |invocations| <= Dispatches(service.actions, n)
    }

    /** The thread shows itself as running and stands somewhere. */
    ghost predicate Stands(b: Boundary, stage: Stage)
      reads this, service
      requires n < |service.runs|
    {
      AtWork() && service.runs[n].boundary == b && service.runs[n].stage == stage && !service.runs[n].holding
    }

    /** The thread shows itself as running and comes to a boundary. */
    ghost predicate ComesTo(stage: Stage)
      reads this, service
      requires n < |service.runs|
    {
      AtWork() && MayLook(service.runs[n]) && service.runs[n].stage == stage && !service.runs[n].holding
    }

    /** The thread can only finish. */
    ghost predicate Ends()
      reads this, service
      requires n < |service.runs|
    {
      AtWork() && service.runs[n].boundary == Ending
    }

    /** The thread's record is the one the service shows, up to its state. */
    ghost predicate IsShown(record: Record)
      reads this, service
      requires n < |service.runs|
    {
      record == service.runs[n].record.(state := record.state)
    }

    /** Nothing but the state of the record shown has changed. */
    twostate predicate ShownStays()
      reads this, service
      requires n < |old(service.runs)| && n < |service.runs|
    {
      service.runs[n].record == old(service.runs)[n].record.(state := service.runs[n].record.state)
    }

    /** Neither a trouble nor a request to stop is ever taken back. */
    twostate predicate Onward()
      reads this, service
    {
      && (old(troubled) ==> troubled)
      && (n < |old(service.runs)| && old(service.runs)[n].stopRequested ==> n < |service.runs| && service.runs[n].stopRequested)
    }

    /** A run ends as failed only over a trouble, or a tool called where there are none; and as cancelled only
        over a request to stop or a trouble. */
    ghost predicate Caused(r: Record)
      reads this, service
      requires n < |service.runs|
    {
      && (r.state == Failed ==> troubled || LacksTools())
      && (r.state == Cancelled ==> troubled || service.runs[n].stopRequested)
    }

    ghost predicate LacksTools()
      reads this
    {
      exchanges != [] && exchanges[|exchanges| - 1].reply.calls != [] && !(q.allowTools && hasAuthority)
    }

    ghost predicate AtWork()
      reads this, service
      requires n < |service.runs|
    {
      service.runs[n].phase == Working
    }

    constructor (service: S.Service, n: nat, rules: Rules, catalog: seq<Tool>, hasAuthority: bool, life: nat)
      requires service.Valid() && n < |service.runs|
      ensures Valid() && this.service == service && this.n == n && this.q == service.runs[n].request
      ensures this.rules == rules && this.catalog == catalog && exchanges == [] && invocations == []
    {
      hide InvocationsOk, Chained, OncePerResponse, Dispatches, IsRun;
      this.service, this.n, this.q := service, n, service.runs[n].request;
      this.rules, this.catalog, this.hasAuthority, this.life := rules, catalog, hasAuthority, life;
      exchanges, invocations, saved, troubled := [], [], [], false;
      new;
      NothingSaid(rules, q, catalog);
    }

    /** Other threads act. */
    method Elapse()
      requires Valid()
      modifies service
      ensures Onward()
      ensures Valid() && S.Held(old(service.View()), service.View(), n) && ShownStays()
      ensures SamePlace(old(service.runs[n]), service.runs[n])
      ensures RunOk(service.runs[n])
      ensures Dispatches(service.actions, n) == Dispatches(old(service.actions), n)
    {
      hide InvocationsOk, Chained, OncePerResponse;
      service.OthersAct(Some(n));
    }

    /** One action of this thread while it works. */
    method Proceed(a: Action)
      requires Valid() && AtWork() && ByThread(a, n) && !a.EndThread? && MayProceed(service.runs[n], a, service.continuity)
      modifies service
      ensures Valid() && |service.runs| == |old(service.runs)| && service.runs[n] == Moved(old(service.runs[n]), a)
      ensures Onward()
      ensures Dispatches(service.actions, n) == Dispatches(old(service.actions), n) + if a == Dispatch(n) then 1 else 0
    {
      hide InvocationsOk, Chained, OncePerResponse, MayProceed, Moved, Dispatches, Enabled, Next, IsRun;
      ThreadMoves(service.View(), a, n);
      StopStays(service.runs[n], a);
      service.Act(n, a);
    }

    method Publish(record: Record)
      requires Valid() && AtWork() && MayPublish(service.runs[n], record, service.continuity)
      modifies service
      ensures Onward()
      ensures Valid() && AtWork() && service.runs[n] == Published(old(service.runs[n]), record)
      ensures Dispatches(service.actions, n) == Dispatches(old(service.actions), n)
    {
      hide InvocationsOk, Chained, OncePerResponse, MayPublish, Dispatches, IsRun;
      Proceed(ManagedRunModel.Publish(n, record));
    }

    /** The thread has decided to finish. */
    method GiveUp()
      requires Valid() && AtWork()
      modifies service
      ensures Onward()
      ensures Valid() && Ends() && Dispatches(service.actions, n) == Dispatches(old(service.actions), n)
    {
      hide InvocationsOk, Chained, OncePerResponse, Dispatches, IsRun;
      Proceed(ManagedRunModel.GiveUp(n));
    }

    /** Something outside works, or fails the run. */
    method Served() returns (ok: bool)
      modifies this`troubled
      ensures troubled == (old(troubled) || !ok)
    {
      ok := *;
      troubled := troubled || !ok;
    }

    /** Saves a record; `saved` are those the store took. */
    method Save(record: Record) returns (ok: bool)
      modifies this`saved, this`troubled
      ensures saved == old(saved) + if ok then [record] else []
      ensures troubled == (old(troubled) || !ok)
    {
      ok := Served();
      saved := saved + if ok then [record] else [];
    }

    // ----- The boundary -----

    method PauseRequested() returns (pause: bool)
      requires Valid() && AtWork() && MayLook(service.runs[n])
      modifies service
      ensures Onward()
      ensures Valid() && AtWork() && ShownStays() && service.runs[n].stage == old(service.runs[n].stage)
      ensures service.runs[n].holding == old(service.runs[n].holding)
      ensures service.runs[n].boundary == if pause then SawPause else SawNoPause
    {
      hide InvocationsOk, Chained, OncePerResponse, Dispatches, IsRun;
      Elapse();
      pause := service.runs[n].pauseRequested;
      Proceed(if pause then SeePause(n) else SeeNoPause(n));
    }

    /** The last look at the stop token before going on. */
    method MayGoOn() returns (ok: bool)
      requires Valid() && AtWork() && service.runs[n].boundary == SawNoPause
      modifies service
      ensures Onward()
      ensures Valid() && AtWork() && ShownStays() && service.runs[n].stage == old(service.runs[n].stage)
      ensures service.runs[n].holding == old(service.runs[n].holding)
      ensures if ok then service.runs[n].boundary == Passed else service.runs[n].stopRequested
    {
      hide InvocationsOk, Chained, OncePerResponse, Dispatches, IsRun;
      Elapse();
      ok := !service.runs[n].stopRequested;
      if ok {
        Proceed(Clear(n));
      }
    }

    method PublishAndSave(record: Record) returns (ok: bool)
      requires Valid() && AtWork() && IsShown(record)
      requires MayPublish(service.runs[n], service.runs[n].record.(state := record.state), service.continuity)
      modifies service, this`saved, this`troubled
      ensures Onward()
      ensures Valid() && AtWork() && IsShown(record) && (!ok ==> troubled)
      ensures SamePlace(old(Published(service.runs[n], record)), service.runs[n])
    {
      hide InvocationsOk, Chained, OncePerResponse, Dispatches, S.Held, IsRun;
      Elapse();
      Publish(record);
      Elapse();
      ok := Save(record);
    }

    /** awaitDispatchBoundary: passes only after reading no request to pause and then none to stop. It is
        called where the thread comes to a boundary, so passing it takes new reads. */
    method AwaitBoundary(record: Record) returns (gate: Gate, r: Record)
      requires Valid() && ComesTo(service.runs[n].stage) && record.state == Running && IsShown(record)
      modifies service, this`life, this`saved, this`troubled
      ensures Onward()
      ensures Valid() && life <= old(life)
      ensures gate == Through ==> r == record && Stands(Passed, old(service.runs[n].stage)) && IsShown(r)
      ensures gate == Over ==> r == record.(state := r.state) && (r.state == Cancelled || r.state == Failed) && Ends()
      ensures gate == Over ==> if r.state == Failed then troubled else service.runs[n].stopRequested
    {
      hide InvocationsOk, Chained, OncePerResponse, S.Held, Dispatches, IsRun;
      ghost var stage := service.runs[n].stage;
      r := record;
      while life > 0
        invariant Onward()
        invariant Valid() && AtWork() && life <= old(life)
        invariant r == record.(state := r.state) && (r.state == Running || r.state == Paused) && IsShown(r)
        invariant service.runs[n].holding <==> r.state == Paused
        invariant MayLook(service.runs[n]) && service.runs[n].stage == stage
      {
        life := life - 1;
        var go;
        go, r := LookForStop(r, q.scope.Some?);
        if !go {
          return Over, r;
        }
        var pause := PauseRequested();
        if !pause {
          gate, r := PassBoundary(r);
          return;
        }
        go, r := ShowPause(r);
        if !go {
          return Over, r;
        }
        go, r := LookForStop(r, false);
        if !go {
          return Over, r;
        }
      }
      return Stopped, r;
    }

    /** The run shows that it pauses, once. */
    method ShowPause(record: Record) returns (go: bool, r: Record)
      requires Valid() && AtWork() && IsShown(record) && service.runs[n].boundary == SawPause
      requires (record.state == Running || record.state == Paused) && (service.runs[n].holding <==> record.state == Paused)
      modifies service, this`saved, this`troubled
      ensures Onward()
      ensures Valid() && AtWork()
      ensures go ==>
                && r == record.(state := Paused) && IsShown(r) && MayLook(service.runs[n]) && service.runs[n].holding
                && service.runs[n].stage == old(service.runs[n].stage)
      ensures !go ==> r == record.(state := Failed) && Ends() && troubled
    {
      hide InvocationsOk, Chained, OncePerResponse, S.Held, Dispatches, IsRun;
      r, go := record, true;
      if r.state != Paused {
        r := r.(state := Paused);
        go := PublishAndSave(r);
        if !go {
          GiveUp();
          r := r.(state := Failed);
        }
      }
    }

    /** A look at the stop token, and at the deadline where there is one. */
    method LookForStop(record: Record, timed: bool) returns (go: bool, r: Record)
      requires Valid() && AtWork() && IsShown(record)
      modifies service, this`troubled
      ensures Onward()
      ensures Valid() && AtWork()
      ensures go ==> r == record && IsShown(r) && SamePlace(old(service.runs[n]), service.runs[n])
      ensures !go ==> r == record.(state := r.state) && (r.state == Cancelled || r.state == Failed) && Ends()
      ensures !go ==> if r.state == Failed then troubled else service.runs[n].stopRequested
    {
      hide InvocationsOk, Chained, OncePerResponse, S.Held, Dispatches, IsRun;
      r := record;
      Elapse();
      if service.runs[n].stopRequested {
        GiveUp();
        return false, r.(state := Cancelled);
      }
      go := true;
      if timed {
        go := Served();
      }
      if !go {
        GiveUp();
        r := r.(state := Failed);
      }
    }

    /** No pause was requested: the thread goes on unless it is asked to stop, and shows the end of a pause. */
    method PassBoundary(record: Record) returns (gate: Gate, r: Record)
      requires Valid() && AtWork() && IsShown(record) && service.runs[n].boundary == SawNoPause
      requires (record.state == Running || record.state == Paused) && (service.runs[n].holding <==> record.state == Paused)
      modifies service, this`saved, this`troubled
      ensures Onward()
      ensures Valid() && gate != Stopped
      ensures gate == Through ==>
                r == record.(state := Running) && Stands(Passed, old(service.runs[n].stage)) && IsShown(r)
      ensures gate == Over ==> r == record.(state := r.state) && (r.state == Cancelled || r.state == Failed) && Ends()
      ensures gate == Over ==> if r.state == Failed then troubled else service.runs[n].stopRequested
    {
      hide InvocationsOk, Chained, OncePerResponse, S.Held, Dispatches, IsRun;
      r := record;
      var ok := MayGoOn();
      if !ok {
        GiveUp();
        return Over, r.(state := Cancelled);
      }
      if r.state == Paused {
        r := r.(state := Running);
        var saves := PublishAndSave(r);
        if !saves {
          GiveUp();
          return Over, r.(state := Failed);
        }
      }
      return Through, r;
    }

    // ----- A turn -----

    /** An error of an external call: cancelled if the run was asked to stop or the error says so. */
    method Fail(record: Record) returns (r: Record)
      requires Valid() && AtWork()
      modifies service
      ensures Onward()
      ensures Valid() && Ends()
      ensures r == record.(state := r.state) && (r.state == Cancelled || r.state == Failed)
      ensures old(service.runs[n].stopRequested) ==> r.state == Cancelled
    {
      hide InvocationsOk, Chained, OncePerResponse, Dispatches, IsRun;
      var cancelled: bool := *;
      r := record.(state := if service.runs[n].stopRequested || cancelled then Cancelled else Failed);
      GiveUp();
    }

    /** The thread calls out: what it was cleared for is used up. */
    method CallOut()
      requires Valid() && AtWork() && MayCall(service.runs[n])
      modifies service
      ensures Onward()
      ensures Valid() && ShownStays() && Stands(Called, old(AfterCall(service.runs[n]).stage))
      ensures |exchanges| + |invocations| < Dispatches(service.actions, n)
    {
      hide InvocationsOk, Chained, OncePerResponse, Dispatches, S.Held, IsRun;
      Elapse();
      Proceed(Dispatch(n));
      Elapse();
    }

    /** The provider's answer. It is a trouble if there is none, if it repeats a response, or if a call in it cannot
        be read. */
    method Complete(ghost observed: set<ResponseId>) returns (outcome: Option<Reply>)
      modifies this`troubled
      ensures old(troubled) ==> troubled
      ensures !troubled ==>
                && outcome.Some? && outcome.value.response !in observed
                && forall c | c in outcome.value.calls :: c.parses
    {
      outcome :| true;
      troubled := troubled || outcome.None? || outcome.value.response in observed
                  || exists c | c in outcome.value.calls :: !c.parses;
    }

    /** One turn with the provider. A reply is acted on only if its response was not seen before. */
    method Ask(record: Record, input: Input, answers: seq<CallId>, observed: set<ResponseId>)
      returns (reply: Option<Reply>, r: Record, observed': set<ResponseId>)
      requires Valid() && Stands(Passed, Asking) && record.state == Running && IsShown(record)
      requires observed == Responses(exchanges) && MaySend(exchanges, input, record.response, answers)
      requires Totals(record, exchanges)
      modifies service, this`exchanges, this`saved, this`troubled
      ensures Onward()
      ensures Valid() && Totals(r, exchanges) && observed' == Responses(exchanges)
      ensures old(exchanges) <= exchanges && |exchanges| <= |old(exchanges)| + 1
      ensures reply.Some? ==>
                && exchanges == old(exchanges) + [Exchange(input, record.response, answers, reply.value)]
                && Until(invocations, |exchanges| - 1, 0)
                && r == Accounted(record, reply.value) && r.state == Running && Stands(Unchecked, Acting) && IsShown(r)
      ensures reply.None? ==> (r.state == Cancelled || r.state == Failed) && Ends() && troubled
      ensures reply.Some? && !troubled ==> forall c | c in reply.value.calls :: c.parses
    {
      hide InvocationsOk, Chained, OncePerResponse, MaySend, Responses, Totals, Dispatches, S.Held, Saturated,
        Accounted, Until;
      r, observed' := record, observed;
      CallOut();
      var outcome := Complete(observed);
      if outcome.None? {
        r := Fail(r);
        SameTotals(record, r, exchanges);
        return None, r, observed';
      }
      if outcome.value.response in observed {
        GiveUp();
        r := r.(state := Failed);
        SameTotals(record, r, exchanges);
        return None, r, observed';
      }
      var taken;
      taken, r := Accept(record, input, answers, outcome.value);
      observed' := observed + {outcome.value.response};
      if taken {
        reply := outcome;
      } else {
        reply := None;
      }
    }

    /** A new reply is accounted for, saved and shown. */
    method Accept(record: Record, input: Input, answers: seq<CallId>, value: Reply) returns (taken: bool, r: Record)
      requires Valid() && Stands(Called, Asking) && record.state == Running && IsShown(record)
      requires value.response !in Responses(exchanges) && MaySend(exchanges, input, record.response, answers)
      requires Totals(record, exchanges) && |exchanges| + |invocations| < Dispatches(service.actions, n)
      modifies service, this`exchanges, this`saved, this`troubled
      ensures Onward() && (!taken ==> troubled)
      ensures Valid() && Totals(r, exchanges) && Responses(exchanges) == old(Responses(exchanges)) + {value.response}
      ensures exchanges == old(exchanges) + [Exchange(input, record.response, answers, value)]
      ensures Until(invocations, |exchanges| - 1, 0)
      ensures if taken then r == Accounted(record, value) && r.state == Running && Stands(Unchecked, Acting) && IsShown(r)
              else r.state == Failed && Ends()
    {
      hide InvocationsOk, Chained, OncePerResponse, MaySend, Responses, Totals, Dispatches, S.Held, Saturated, Until;
      ghost var e := Exchange(input, record.response, answers, value);
      ExchangingKeeps(rules, q, catalog, exchanges, invocations, e);
      r := Account(record, value);
      AccountKeeps(record, value, exchanges, e);
      exchanges := exchanges + [e];
      taken := Save(r);
      if taken {
        Publish(r);
      } else {
        SameTotals(r, r.(state := Failed), exchanges);
        r := r.(state := Failed);
        GiveUp();
      }
    }

    // ----- The tools -----

    /** All tools of the catalog within the limits of the run, and no other. */
    ghost predicate IsOffer(offered: seq<Tool>) {
      forall t :: t in offered <==> t in catalog && Offered(rules, q, t)
    }

    method Offer() returns (offered: seq<Tool>)
      ensures IsOffer(offered) && |offered| <= |catalog|
    {
      offered := [];
      for i := 0 to |catalog|
        invariant |offered| <= i && forall t :: t in offered <==> t in catalog[..i] && Offered(rules, q, t)
      {
        var t := catalog[i];
        if (!q.readOnly || t.onlyReads) &&
           (q.scope.None? || (rules.inheritable(t.name) && t.name in q.scope.value.allowedTools)) {
          offered := offered + [t];
        }
      }
    }

    /** Checked for each call, whatever was advertised. */
    method Permitted(offered: seq<Tool>, name: Name) returns (ok: bool)
      requires q.allowTools && IsOffer(offered)
      ensures ok <==> (!q.readOnly && q.scope.None?)
                      || exists t | t in offered :: t.name == name && (!q.readOnly || t.onlyReads)
      ensures ok <==> MayInvoke(rules, q, catalog, name)
    {
      if !q.readOnly && q.scope.None? {
        return true;
      }
      for i := 0 to |offered|
        invariant forall j | 0 <= j < i :: !(offered[j].name == name && (!q.readOnly || offered[j].onlyReads))
      {
        if offered[i].name == name && (!q.readOnly || offered[i].onlyReads) {
          assert offered[i] in offered;
          return true;
        }
      }
      return false;
    }

    /** The policy as it is now. It is a trouble if it cannot be read or no longer grants the scope. */
    method CurrentPolicy(scope: Scope) returns (current: Option<Authority>)
      modifies this`troubled
      ensures old(troubled) ==> troubled
      ensures !troubled ==> current.Some? && StillGranted(scope, current.value)
    {
      current :| true;
      troubled := troubled || current.None? || !StillGranted(scope, current.value);
    }

    /** Whether the policy as it is now still grants the scope. */
    method StillMay(scope: Scope) returns (granted: bool, ghost under: Option<Authority>)
      modifies this`troubled
      ensures (old(troubled) ==> troubled) && (!granted ==> troubled)
      ensures granted ==> under.Some? && StillGranted(scope, under.value)
    {
      var current := CurrentPolicy(scope);
      under := current;
      granted := false;
      if current.Some? {
        granted := Refresh(scope, current.value);
      }
    }

    /** One call of the last reply: a boundary, then the tool, or a refusal in its place. */
    method Handle(record: Record, i: nat, call: Call, offered: seq<Tool>) returns (gate: Gate, r: Record)
      requires Valid() && ComesTo(Calls(i)) && record.state == Running && q.allowTools && IsShown(record)
      requires exchanges != [] && i < |exchanges[|exchanges| - 1].reply.calls|
      requires record.pending == exchanges[|exchanges| - 1].reply.calls && call == record.pending[i]
      requires Until(invocations, |exchanges| - 1, i)
      requires IsOffer(offered) && (call.parses || troubled)
      modifies service, this`life, this`invocations, this`saved, this`troubled
      ensures Onward()
      ensures Valid() && life <= old(life)
      ensures gate == Through ==>
                && r == record && Stands(Called, Calls(i + 1)) && IsShown(r)
                && Until(invocations, |exchanges| - 1, i + 1)
      // Passing through, the call is invoked exactly if the run permits it; nothing else is invoked.
      ensures gate == Through && MayInvoke(rules, q, catalog, call.name) ==>
                && |invocations| == |old(invocations)| + 1 && old(invocations) <= invocations
                && invocations[|old(invocations)|].exchange == |exchanges| - 1 && invocations[|old(invocations)|].call == i
      ensures gate != Through || !MayInvoke(rules, q, catalog, call.name) ==> invocations == old(invocations)
      ensures gate == Through ==> call.parses
      ensures gate == Over ==> r == record.(state := r.state) && (r.state == Cancelled || r.state == Failed) && Ends()
      ensures gate == Over ==> troubled || (r.state == Cancelled && service.runs[n].stopRequested)
    {
      hide Published, MayPublish, Answered, InvocationsOk, Chained, OncePerResponse, Offered, MayInvoke, Until,
        Dispatches, S.Held, IsRun, StillGranted;
      gate, r := AwaitBoundary(record);
      if gate != Through {
        return;
      }
      if !call.parses {
        GiveUp();
        return Over, r.(state := Failed);
      }
      var permitted := Permitted(offered, call.name);
      ghost var under: Option<Authority> := None;
      if permitted && q.scope.Some? {
        var granted;
        granted, under := StillMay(q.scope.value);
        if !granted {
          r := Fail(r);
          return Over, r;
        }
      }
      InvokeOrRefuse(i, permitted, under);
    }

    /** The tool is invoked, or the call refused in its place. */
    method InvokeOrRefuse(i: nat, permitted: bool, ghost under: Option<Authority>)
      requires Valid() && Stands(Passed, Calls(i)) && MayCall(service.runs[n])
      requires exchanges != [] && i < |exchanges[|exchanges| - 1].reply.calls|
      requires permitted ==>
                 && MayInvoke(rules, q, catalog, exchanges[|exchanges| - 1].reply.calls[i].name)
                 && UnderPolicy(q, Invocation(|exchanges| - 1, i, under))
      requires Until(invocations, |exchanges| - 1, i)
      modifies service, this`invocations
      ensures Onward()
      ensures Valid() && Stands(Called, Calls(i + 1)) && ShownStays()
      ensures Until(invocations, |exchanges| - 1, i + 1)
      ensures invocations == old(invocations) + if permitted then [Invocation(|exchanges| - 1, i, under)] else []
    {
      hide InvocationsOk, Chained, OncePerResponse, MayInvoke, Until, Dispatches, UnderPolicy, IsRun;
      if permitted {
        Invoke(i, under);
      } else {
        Proceed(Refuse(n));
        UntilNext(invocations, |exchanges| - 1, i);
      }
    }

    /** The calls of the last reply, each after a boundary, in their order and each answered. */
    method InvokeAll(record: Record, calls: seq<Call>, offered: seq<Tool>)
      returns (gate: Gate, r: Record, answers: seq<CallId>)
      requires Valid() && Stands(Unchecked, Calls(0)) && record.state == Running && q.allowTools && IsShown(record)
      requires exchanges != [] && exchanges[|exchanges| - 1].reply.calls == calls == record.pending && calls != []
      requires Until(invocations, |exchanges| - 1, 0)
      requires IsOffer(offered) && (troubled || forall c | c in calls :: c.parses)
      modifies service, this`life, this`invocations, this`saved, this`troubled
      ensures Onward()
      ensures Valid() && life <= old(life)
      ensures gate == Through ==>
                r == record && answers == CallIds(calls) && Stands(Called, Calls(|calls|)) && IsShown(r)
      // Exactly the calls that the run permits are invoked.
      ensures OnlyOf(|exchanges| - 1, old(invocations))
      ensures gate == Through ==> InvokedExactly(rules, q, catalog, calls, invocations, |exchanges| - 1)
      ensures gate == Over ==> r == record.(state := r.state) && (r.state == Cancelled || r.state == Failed) && Ends()
      ensures gate == Over ==> troubled || (r.state == Cancelled && service.runs[n].stopRequested)
    {
      hide InvocationsOk, Chained, OncePerResponse, Offered, Until, Dispatches, InvokedExactly, MayInvoke;
      gate, r, answers := Through, record, [];
      NoCalls(invocations, |exchanges| - 1);
      for i := 0 to |calls|
        invariant Onward()
        invariant InvokedExactly(rules, q, catalog, calls[..i], invocations, |exchanges| - 1)
        invariant OnlyOf(|exchanges| - 1, old(invocations))
        invariant Valid() && life <= old(life) && r == record && IsShown(r)
        invariant answers == CallIds(calls)[..i]
        invariant Stands(if i == 0 then Unchecked else Called, Calls(i))
        invariant Until(invocations, |exchanges| - 1, i)
      {
        ghost var before := invocations;
        gate, r := Handle(record, i, calls[i], offered);
        if gate != Through {
          return;
        }
        NextCall(rules, q, catalog, calls, i, before, invocations, |exchanges| - 1);
        answers := answers + [calls[i].id];
      }
      assert calls[..|calls|] == calls;
      return Through, r, answers;
    }

    /** The invocations since are for calls of this exchange. */
    ghost predicate OnlyOf(exchange: nat, before: seq<Invocation>)
      reads this
    {
      before <= invocations && forall j | |before| <= j < |invocations| :: invocations[j].exchange == exchange
    }

    lemma NoCalls(inv: seq<Invocation>, exchange: nat)
      ensures InvokedExactly(rules, q, catalog, [], inv, exchange)
    {
    }

    method Invoke(i: nat, ghost under: Option<Authority>)
      requires Valid() && Stands(Passed, Calls(i)) && MayCall(service.runs[n])
      requires exchanges != [] && i < |exchanges[|exchanges| - 1].reply.calls|
      requires MayInvoke(rules, q, catalog, exchanges[|exchanges| - 1].reply.calls[i].name)
      requires Until(invocations, |exchanges| - 1, i) && UnderPolicy(q, Invocation(|exchanges| - 1, i, under))
      modifies service, this`invocations
      ensures Onward()
      ensures Valid() && Stands(Called, Calls(i + 1)) && ShownStays()
      ensures Until(invocations, |exchanges| - 1, i + 1)
      ensures invocations == old(invocations) + [Invocation(|exchanges| - 1, i, under)]
    {
      hide InvocationsOk, Chained, OncePerResponse, MayInvoke, Until, Dispatches, UnderPolicy;
      CallOut();
      InvokingKeeps(rules, q, catalog, exchanges, invocations, Invocation(|exchanges| - 1, i, under));
      invocations := invocations + [Invocation(|exchanges| - 1, i, under)];
    }

    // ----- The whole run -----

    /** Whether there is an authority, and the tools it offers; or the run is over at once. */
    method Prepare(record: Record) returns (r: Record, authority: bool, offered: seq<Tool>)
      requires Valid() && Stands(Unchecked, Asking) && IsShown(record)
      requires record.state == Running || (record.state == Cancelling && service.runs[n].stopRequested)
      modifies service, this`troubled
      ensures Onward()
      ensures Valid() && r == record.(state := r.state)
      ensures r.state == Running || r.state == Cancelled || r.state == Failed
      ensures if r.state == Running then Stands(Unchecked, Asking) && IsShown(r) else Ends()
      ensures authority ==> q.allowTools && IsOffer(offered)
      ensures if r.state == Running then authority == (q.allowTools && hasAuthority)
              else troubled || (r.state == Cancelled && service.runs[n].stopRequested)
    {
      hide InvocationsOk, Chained, OncePerResponse, Offered, Dispatches;
      r, authority, offered := record, false, [];
      if service.runs[n].stopRequested {
        GiveUp();
        return r.(state := Cancelled), false, [];
      }
      if !hasAuthority {
        return;
      }
      Elapse();
      var resolved := Served();
      if !resolved {
        r := Fail(r);
        return;
      }
      var current := Served();
      if !current {
        GiveUp();
        return r.(state := Failed), false, [];
      }
      if q.allowTools {
        if q.scope.Some? {
          var narrowed := Served();
          if !narrowed {
            r := Fail(r);
            return;
          }
        }
        authority := true;
        offered := Offer();
      }
    }

    /** The last reply made no call: its text is the run's, cut at a character boundary. */
    method Conclude(record: Record, text: seq<byte>) returns (r: Record)
      requires Valid()
      ensures r == record.(output := r.output, truncated := r.truncated, pending := [], state := r.state)
      ensures r.state == (if service.runs[n].stopRequested then Cancelled else Completed)
      ensures !record.truncated ==> Concluded(r, text)
    {
      var cut := text;
      r := record;
      if |text| > MAX_OUTPUT_BYTES {
        cut := SchedulePaging.Page(text, MAX_OUTPUT_BYTES);
        r := r.(truncated := true);
      } else {
        WholePage(text);
      }
      r := r.(output := Some(cut));
      r := r.(pending := []);
      r := r.(state := if service.runs[n].stopRequested then Cancelled else Completed);
    }

    /** What continuity answers: an error; no successor; or one, which it is a trouble not to name. */
    method Observe() returns (observed: Option<Option<Option<ResponseId>>>)
      modifies this`troubled
      ensures old(troubled) ==> troubled
      ensures !troubled ==> observed.Some? && (observed.value.Some? ==> observed.value.value.Some?)
    {
      observed :| true;
      troubled := troubled || observed.None? || (observed.value.Some? && observed.value.value.None?);
    }

    /** Whether continuity moved the conversation to a successor; `None` when the run is over. */
    method Successor(record: Record) returns (moved: Option<bool>, r: Record)
      requires Valid() && Stands(Observing, Asking) && record.state == Running && IsShown(record)
      modifies service, this`saved, this`troubled
      ensures Onward()
      ensures Valid() && r.inputTokens == record.inputTokens && r.outputTokens == record.outputTokens
      ensures moved.None? ==> r.state == Failed && Ends() && troubled
      ensures moved == Some(false) ==> r == record
      ensures moved.Some? ==> r == record.(response := r.response)
      ensures moved == Some(true) ==>
                && r.response.Some? && saved == old(saved) + [r]
                && service.continuity && q.automaticContinuity && record.retained.Some?
      ensures moved.Some? ==> Stands(Unchecked, Asking) && IsShown(r)
    {
      hide InvocationsOk, Chained, OncePerResponse, Dispatches, S.Held, IsRun;
      r := record;
      if !q.automaticContinuity || record.retained.None? || !service.continuity {
        Proceed(Stay(n));
        return Some(false), r;
      }
      Elapse();
      var observed := Observe();
      if observed.None? {
        GiveUp();
        return None, r.(state := Failed);
      }
      if observed.value.None? {
        Proceed(Stay(n));
        return Some(false), r;
      }
      if observed.value.value.None? {
        GiveUp();
        return None, r.(state := Failed);
      }
      r := r.(response := observed.value.value);
      var saves := Save(r);
      if !saves {
        GiveUp();
        return None, r.(state := Failed);
      }
      Publish(r);
      return Some(true), r;
    }

    ghost predicate IsOver(r: Record)
      reads this, service
      requires n < |service.runs|
    {
      && Caused(r) && Totals(r, exchanges) && (r.state == Completed || r.state == Cancelled || r.state == Failed)
      && (r.state == Completed ==> Answered(r, exchanges))
    }

    /** A boundary, a turn, and the boundary before acting on its reply. */
    method Turn(record: Record, input: Input, answers: seq<CallId>, observed: set<ResponseId>)
      returns (gate: Gate, r: Record, reply: Option<Reply>, observed': set<ResponseId>)
      requires Valid() && Stands(Unchecked, Asking) && record.state == Running && IsShown(record)
      requires observed == Responses(exchanges)
      requires MaySend(exchanges, input, record.response, answers) && Totals(record, exchanges)
      modifies service, this`life, this`exchanges, this`saved, this`troubled
      ensures Onward()
      ensures Valid() && life <= old(life) && (gate == Over ==> IsOver(r) && r.state != Completed && Ends())
      ensures old(exchanges) <= exchanges && |exchanges| <= |old(exchanges)| + 1
      ensures gate == Through ==>
                && reply.Some? && exchanges == old(exchanges) + [Exchange(input, record.response, answers, reply.value)]
                && Until(invocations, |exchanges| - 1, 0)
                && r == Accounted(record, reply.value) && Totals(r, exchanges) && observed' == Responses(exchanges)
                && Stands(Passed, Acting) && IsShown(r)
                && (!troubled ==> forall c | c in reply.value.calls :: c.parses)
    {
      hide IsRun, Accounted, Answered, InvocationsOk, Chained, OncePerResponse, MaySend, Responses, Totals, Until,
        Dispatches, S.Held;
      reply, observed' := None, observed;
      gate, r := AwaitBoundary(record);
      if gate != Through {
        SameTotals(record, if gate == Over then r else record, exchanges);
        return;
      }
      reply, r, observed' := Ask(r, input, answers, observed);
      if reply.None? {
        return Over, r, reply, observed';
      }
      ghost var was := r;
      gate, r := AwaitBoundary(r);
      SameTotals(was, if gate == Over then r else was, exchanges);
    }

    /** The calls of a reply, and what to send next. */
    method Carry(record: Record, calls: seq<Call>, offered: seq<Tool>)
      returns (gate: Gate, r: Record, input: Input, answers: seq<CallId>)
      requires Valid() && Stands(Passed, Acting) && record.state == Running && q.allowTools && IsShown(record)
      requires exchanges != [] && exchanges[|exchanges| - 1].reply.calls == calls == record.pending && calls != []
      requires record.response == Some(exchanges[|exchanges| - 1].reply.response) && Totals(record, exchanges)
      requires Until(invocations, |exchanges| - 1, 0)
      requires troubled || forall c | c in calls :: c.parses
      requires IsOffer(offered) && AllInvoked(rules, q, catalog, exchanges, invocations, |exchanges| - 1)
      modifies service, this`life, this`invocations, this`saved, this`troubled
      ensures AllInvoked(rules, q, catalog, exchanges, invocations, |exchanges| - 1)
      ensures gate == Through ==> AllInvoked(rules, q, catalog, exchanges, invocations, |exchanges|)
      ensures Onward()
      ensures Valid() && life <= old(life) && (gate == Over ==> IsOver(r) && r.state != Completed && Ends())
      ensures gate == Through ==> r.state == Running && r.truncated == record.truncated && Totals(r, exchanges)
      ensures gate == Through ==> MaySend(exchanges, input, r.response, answers)
      ensures gate == Through ==> Stands(Unchecked, Asking) && IsShown(r)
    {
      hide InvocationsOk, Chained, OncePerResponse, MaySend, Totals, Offered, Until, Dispatches, S.Held, IsRun,
        Published,
        MayPublish, AfterCall, InvokedExactly, AllInvoked, MayInvoke, Answered;
      input := Results;
      Proceed(TakeCalls(n));
      gate, r, answers := InvokeAll(record, calls, offered);
      EarlierStay(rules, q, catalog, exchanges, old(invocations), invocations, |exchanges| - 1);
      LastInvoked(rules, q, catalog, exchanges, invocations);
      SameTotals(record, if gate == Stopped then record else r, exchanges);
      if gate == Through {
        gate, r, input, answers := Follow(r, answers);
      }
    }

    /** After the calls of a reply: their results are sent next, or the instruction to continue. */
    method Follow(record: Record, results: seq<CallId>) returns (gate: Gate, r: Record, input: Input, answers: seq<CallId>)
      requires Valid() && Stands(Called, Calls(|record.pending|)) && record.state == Running && IsShown(record)
      requires exchanges != [] && record.pending == exchanges[|exchanges| - 1].reply.calls && record.pending != []
      requires record.response == Some(exchanges[|exchanges| - 1].reply.response) && Totals(record, exchanges)
      requires results == CallIds(record.pending)
      modifies service, this`saved, this`troubled
      ensures Onward()
      ensures Valid() && gate != Stopped && (gate == Over ==> IsOver(r) && r.state != Completed && Ends())
      ensures gate == Through ==> r.state == Running && r.truncated == record.truncated && Totals(r, exchanges)
      ensures gate == Through ==> MaySend(exchanges, input, r.response, answers)
      ensures gate == Through ==> Stands(Unchecked, Asking) && IsShown(r)
    {
      hide InvocationsOk, Chained, OncePerResponse, MaySend, Totals, Dispatches, S.Held, IsRun, Published, MayPublish,
        AfterCall,
        Answered;
      input, answers := Results, results;
      var moved;
      moved, r := EndRound(record);
      SameTotals(record, r, exchanges);
      if moved.None? {
        return Over, r, input, answers;
      }
      gate := Through;
      SendNext(exchanges, r.response, answers, moved.value);
      if moved.value {
        input, answers := Continue, [];
      }
    }

    /** After the last call of a reply: the round is saved and shown, and continuity may move the
        conversation. */
    method EndRound(record: Record) returns (moved: Option<bool>, r: Record)
      requires Valid() && Stands(Called, Calls(|record.pending|)) && record.state == Running && IsShown(record)
      modifies service, this`saved, this`troubled
      ensures Onward()
      ensures Valid() && r.inputTokens == record.inputTokens && r.outputTokens == record.outputTokens
      ensures moved.None? ==> r.state == Failed && Ends() && troubled
      ensures moved.Some? ==> r == record.(pending := [], response := r.response) && Stands(Unchecked, Asking) && IsShown(r)
      ensures moved == Some(false) ==> r.response == record.response
      ensures moved == Some(true) ==> r.response.Some? && saved == old(saved) + [record.(pending := []), r]
    {
      hide InvocationsOk, Chained, OncePerResponse, Dispatches, S.Held, IsRun;
      r := record.(pending := []);
      var saves := Save(r);
      if !saves {
        GiveUp();
        return None, r.(state := Failed);
      }
      Publish(r);
      moved, r := Successor(r);
    }

    /** Of every reply but the last, exactly the calls the run permits were invoked; of the last too, if `all`. */
    ghost predicate Acted(all: bool)
      reads this
    {
      && (exchanges != [] ==> AllInvoked(rules, q, catalog, exchanges, invocations, |exchanges| - 1))
      && (all ==> AllInvoked(rules, q, catalog, exchanges, invocations, |exchanges|))
    }

    /** The loop of turns, until the run is over or the process ends. */
    method Converse(start: Record, authority: bool, offered: seq<Tool>) returns (over: bool, r: Record)
      requires Valid() && Stands(Unchecked, Asking) && exchanges == [] && invocations == [] && start.state == Running
      requires start.response == None && start.inputTokens == start.outputTokens == 0 && !start.truncated && IsShown(start)
      requires authority == (q.allowTools && hasAuthority) && (authority ==> IsOffer(offered))
      modifies service, this`life, this`exchanges, this`invocations, this`saved, this`troubled
      ensures Onward()
      ensures Valid() && (over ==> IsOver(r) && Ends()) && Acted(over && r.state == Completed)
    {
      hide IsRun, InvocationsOk, Chained, OncePerResponse, MaySend, Responses, Totals, Offered, Until, Dispatches,
        InvokedExactly;
      NothingSaid(rules, q, catalog);
      NoTotals(start);
      r := start;
      var input, answers, observed: set<ResponseId> := Task, [], {};
      while life > 0
        invariant Valid() && Stands(Unchecked, Asking) && r.state == Running && !r.truncated && IsShown(r)
        invariant Totals(r, exchanges) && observed == Responses(exchanges) && MaySend(exchanges, input, r.response, answers)
        invariant Onward()
        invariant AllInvoked(rules, q, catalog, exchanges, invocations, |exchanges|)
        decreases life
      {
        life := life - 1;
        var gate, reply;
        ghost var before := exchanges;
        gate, r, reply, observed := Turn(r, input, answers, observed);
        StillInvoked(rules, q, catalog, before, exchanges, invocations);
        if gate != Through {
          return gate == Over, r;
        }
        if reply.value.calls == [] {
          ghost var was := r;
          NoneToInvoke(rules, q, catalog, exchanges, invocations);
          r := Conclude(r, reply.value.text);
          GiveUp();
          SameTotals(was, r, exchanges);
          return true, r;
        }
        if !authority {
          GiveUp();
          SameTotals(r, r.(state := Failed), exchanges);
          return true, r.(state := Failed);
        }
        gate, r, input, answers := Carry(r, reply.value.calls, offered);
        if gate != Through {
          return gate == Over, r;
        }
      }
      return false, r;
    }

    /** What the thread first reads: the fresh record, unless it was cancelled already. */
    method Begin() returns (record: Record)
      requires Valid() && Stands(Unchecked, Asking) && exchanges == [] && OnlyState(Fresh(q), service.runs[n])
      modifies service
      ensures Onward()
      ensures Valid() && Stands(Unchecked, Asking) && record == Fresh(q).record.(state := record.state) && IsShown(record)
      ensures Totals(record, exchanges)
      ensures record.state == Running || (record.state == Cancelling && service.runs[n].stopRequested)
    {
      hide InvocationsOk, Chained, OncePerResponse, Totals, Dispatches, IsRun;
      Elapse();
      record := service.runs[n].record;
      NoTotals(record);
      Elapse();
    }

    /** The thread from its start: unless the process ends first, the run ends in a terminal record
        whose totals are those of the turns acted on, each response once. */
    method Run() returns (over: bool)
      requires Valid() && Stands(Unchecked, Asking) && exchanges == [] && invocations == []
      requires OnlyState(Fresh(q), service.runs[n])
      modifies service, this`life, this`exchanges, this`invocations, this`saved, this`troubled
      ensures Valid()
      ensures over ==>
                && service.runs[n].phase == Ended && Terminal(service.runs[n].record.state)
                && IsOver(service.runs[n].record)
      ensures Acted(over && service.runs[n].record.state == Completed)
    {
      hide InvocationsOk, Chained, OncePerResponse, Totals, Offered, Answered, Dispatches, IsRun;
      var first := Begin();
      var record, authority, offered := Prepare(first);
      over := true;
      if record.state == Running {
        over, record := Converse(record, authority, offered);
        if !over {
          return;
        }
      } else {
        SameTotals(first, record, exchanges);
      }
      var saves := Save(record);
      if !saves {
        SameTotals(record, record.(state := Failed), exchanges);
        record := record.(state := Failed);
      }
      End(record);
    }

    method End(record: Record)
      requires Valid() && Ends() && IsOver(record)
      modifies service
      ensures Valid() && service.runs[n].phase == Ended && service.runs[n].record == record && Onward()
    {
      hide InvocationsOk, Chained, OncePerResponse, Totals, Answered, Dispatches, IsRun;
      Elapse();
      StopStays(service.runs[n], Finish(n, record));
      service.Act(n, Finish(n, record));
      Elapse();
      service.Act(n, EndThread(n));
    }
  }

  lemma StopStays(r: Run, a: Action)
    ensures r.stopRequested ==> Moved(r, a).stopRequested
  {
  }

  /** An action of a working thread changes its run and nothing else. */
  lemma ThreadMoves(w: World, a: Action, n: nat)
    requires Works(w, n) && ByThread(a, n) && !a.EndThread? && MayProceed(w.runs[n], a, w.continuity)
    ensures Enabled(w, a) && Next(w, a) == w.(runs := w.runs[n := Moved(w.runs[n], a)])
    ensures Moved(w.runs[n], a).request == w.runs[n].request
  {
    hide MayProceed;
  }

  /** currentWorkerAuthority: what the policy no longer grants is taken out of the scope, and the worker
      goes on only if nothing was. */
  method Refresh(scope: Scope, current: Authority) returns (ok: bool)
    ensures ok <==> StillGranted(scope, current)
  {
    if !current.ownerMatches {
      return false;
    }
    var roots, grants := [], [];
    for i := 0 to |scope.roots|
      invariant |roots| <= i && (|roots| == i <==> forall k | 0 <= k < i :: scope.roots[k] in current.roots)
      invariant |roots| == i ==> roots == scope.roots[..i]
    {
      if scope.roots[i] in current.roots {
        roots := roots + [scope.roots[i]];
      }
    }
    for i := 0 to |scope.grants|
      invariant |grants| <= i
      invariant |grants| == i <==>
                forall k | 0 <= k < i :: scope.grants[k] in current.grants && scope.grants[k] !in current.denials
      invariant |grants| == i ==> grants == scope.grants[..i]
    {
      if scope.grants[i] in current.grants && scope.grants[i] !in current.denials {
        grants := grants + [scope.grants[i]];
      }
    }
    var shell := scope.shell && current.shell && Execute in grants;
    assert scope.roots[..|scope.roots|] == scope.roots && scope.grants[..|scope.grants|] == scope.grants;
    return roots != [] && grants != [] && roots == scope.roots && grants == scope.grants && shell == scope.shell;
  }

  /** The record after a reply: response, totals, retained context and pending calls. */
  method Account(record: Record, value: Reply) returns (r: Record)
    ensures r == Accounted(record, value)
    ensures r.response == Some(value.response) && r.retained == value.retained && r.pending == value.calls
    ensures record == r.(response := record.response, inputTokens := record.inputTokens, outputTokens := record.outputTokens,
                         retained := record.retained, pending := record.pending)
  {
    r := record.(response := Some(value.response));
    r := r.(inputTokens := if r.inputTokens > MAX_TOKENS - value.inputTokens then MAX_TOKENS
                           else r.inputTokens + value.inputTokens);
    r := r.(outputTokens := if r.outputTokens > MAX_TOKENS - value.outputTokens then MAX_TOKENS
                            else r.outputTokens + value.outputTokens);
    r := r.(retained := value.retained);
    r := r.(pending := value.calls);
  }

  function Accounted(record: Record, value: Reply): Record {
    record.(response := Some(value.response), retained := value.retained, pending := value.calls,
            inputTokens := if record.inputTokens > MAX_TOKENS - value.inputTokens then MAX_TOKENS
                           else record.inputTokens + value.inputTokens,
            outputTokens := if record.outputTokens > MAX_TOKENS - value.outputTokens then MAX_TOKENS
                            else record.outputTokens + value.outputTokens)
  }

  lemma AccountKeeps(record: Record, value: Reply, ex: seq<Exchange>, e: Exchange)
    requires Totals(record, ex) && e.reply == value
    ensures Totals(Accounted(record, value), ex + [e])
  {
    SaturatingSum(ex, e);
  }

  lemma SameTotals(r: Record, r': Record, ex: seq<Exchange>)
    requires Totals(r, ex) && r'.inputTokens == r.inputTokens && r'.outputTokens == r.outputTokens
    ensures Totals(r', ex)
  {
  }

  /** A further reply leaves the calls of the earlier ones as they are. */
  lemma StillInvoked(rules: Rules, q: Request, catalog: seq<Tool>, ex: seq<Exchange>, ex': seq<Exchange>, inv: seq<Invocation>)
    requires ex <= ex' && |ex'| <= |ex| + 1 && AllInvoked(rules, q, catalog, ex, inv, |ex|)
    ensures AllInvoked(rules, q, catalog, ex', inv, |ex|)
    ensures ex' != [] ==> AllInvoked(rules, q, catalog, ex', inv, |ex'| - 1)
  {
    hide InvokedExactly;
    assert forall k | 0 <= k < |ex| :: ex'[k] == ex[k];
  }

  lemma LastInvoked(rules: Rules, q: Request, catalog: seq<Tool>, ex: seq<Exchange>, inv: seq<Invocation>)
    requires ex != [] && AllInvoked(rules, q, catalog, ex, inv, |ex| - 1)
    ensures InvokedExactly(rules, q, catalog, ex[|ex| - 1].reply.calls, inv, |ex| - 1) ==>
              AllInvoked(rules, q, catalog, ex, inv, |ex|)
  {
    hide InvokedExactly;
  }

  lemma NoneToInvoke(rules: Rules, q: Request, catalog: seq<Tool>, ex: seq<Exchange>, inv: seq<Invocation>)
    requires ex != [] && AllInvoked(rules, q, catalog, ex, inv, |ex| - 1) && ex[|ex| - 1].reply.calls == []
    ensures AllInvoked(rules, q, catalog, ex, inv, |ex|)
  {
    assert InvokedExactly(rules, q, catalog, ex[|ex| - 1].reply.calls, inv, |ex| - 1);
    hide InvokedExactly;
  }

  lemma UntilNext(inv: seq<Invocation>, exchange: nat, call: nat)
    requires Until(inv, exchange, call)
    ensures Until(inv, exchange, call + 1)
  {
  }

  /** The output of a run: a text whole, or cut at the last character boundary within the limit. */
  predicate Concluded(r: Record, text: seq<byte>) {
    && r.output.Some? && SchedulePaging.IsPage(text, MAX_OUTPUT_BYTES, r.output.value)
    && r.truncated == (|text| > MAX_OUTPUT_BYTES)
  }

  /** A completed run's output is the text of its last reply, which made no call. */
  predicate Answered(r: Record, ex: seq<Exchange>) {
    ex != [] && ex[|ex| - 1].reply.calls == [] && Concluded(r, ex[|ex| - 1].reply.text)
  }

  lemma WholePage(text: seq<byte>)
    requires |text| <= MAX_OUTPUT_BYTES
    ensures SchedulePaging.IsPage(text, MAX_OUTPUT_BYTES, text)
  {
  }

  lemma NoTotals(r: Record)
    requires r.inputTokens == r.outputTokens == 0
    ensures Totals(r, [])
  {
  }

  /** What may be sent after a turn whose calls were answered. */
  lemma SendNext(ex: seq<Exchange>, response: Option<ResponseId>, answers: seq<CallId>, moved: bool)
    requires ex != [] && ex[|ex| - 1].reply.calls != [] && response.Some?
    requires !moved ==> response == Some(ex[|ex| - 1].reply.response) && answers == CallIds(ex[|ex| - 1].reply.calls)
    ensures MaySend(ex, if moved then Continue else Results, response, if moved then [] else answers)
  {
  }

  /** A text cut for a record is still text, and only what does not fit is cut. */
  lemma OutputIsText(r: Record, text: seq<byte>)
    requires Concluded(r, text) && WellFormed(text)
    ensures WellFormed(r.output.value) && r.output.value <= text && |r.output.value| <= MAX_OUTPUT_BYTES
    ensures r.truncated ==> |r.output.value| + 4 > MAX_OUTPUT_BYTES
    ensures !r.truncated ==> r.output.value == text
  {
    SchedulePaging.PageOfText(text, MAX_OUTPUT_BYTES, r.output.value);
  }
}
