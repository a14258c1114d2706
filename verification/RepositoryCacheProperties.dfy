// Safety of the repository cache in every interleaving of its lock sections.

module RepositoryCacheProperties {
  import opened Options
  import opened RepositoryCacheModel
  import opened RepositoryCacheInvariant

  // ----- Runs -----

  datatype Action = Action(thread: Thread, event: Event)

  const START := World(Cache([], [], 0, false, false, false), map[], multiset{}, map[], [], false, false, map[], 0, 0)

  /** The worlds of a run from an empty cache: each action was possible when it was taken. */
  predicate IsRun(worlds: seq<World>, actions: seq<Action>, maximum: nat) {
    && |worlds| == |actions| + 1 && worlds[0] == START
    && forall i | 0 <= i < |actions| ::
         Step(worlds[i], actions[i].thread, actions[i].event, maximum) == Some(worlds[i + 1])
  }

  lemma RunPrefix(worlds: seq<World>, actions: seq<Action>, maximum: nat)
    requires IsRun(worlds, actions, maximum) && actions != []
    ensures var (front, last) := (actions[..|actions| - 1], actions[|actions| - 1]);
            && actions == front + [last] && IsRun(worlds[..|actions|], front, maximum)
            && Step(worlds[|actions| - 1], last.thread, last.event, maximum) == Some(worlds[|actions|])
  {
    hide Step;
  }

  lemma {:induction false} RunKeepsInv(worlds: seq<World>, actions: seq<Action>, maximum: nat)
    requires IsRun(worlds, actions, maximum)
    ensures Inv(worlds[|actions|], maximum)
    decreases |actions|
  {
    if actions == [] {
      StartIsGood(maximum);
    } else {
      hide Inv, Step;
      RunPrefix(worlds, actions, maximum);
      var front, last := actions[..|actions| - 1], actions[|actions| - 1];
      RunKeepsInv(worlds[..|actions|], front, maximum);
      StepKeepsInv(worlds[|front|], last.thread, last.event, maximum, worlds[|actions|]);
    }
  }

  lemma StartIsGood(maximum: nat)
    ensures Inv(START, maximum)
  {
    assert forall t :: ReservationOf(START, t).None?;
    assert forall r, there :: !At(START, r, there);
  }

  // ----- The bound, and why a redundant repository never turns up -----

  /** The cache never holds or awaits more than its maximum, and knows no project twice. */
  lemma BoundedWithoutDuplicates(worlds: seq<World>, actions: seq<Action>, maximum: nat)
    requires IsRun(worlds, actions, maximum)
    ensures var c := worlds[|actions|].cache;
            && |c.entries| + |c.pending| <= maximum
            && Distinct(seq(|c.entries|, i requires 0 <= i < |c.entries| => c.entries[i].project) + c.pending)
  {
    RunKeepsInv(worlds, actions, maximum);
  }

  /** Whenever an open publishes, the cache has no entry for its project. */
  lemma NothingIsRedundant(worlds: seq<World>, actions: seq<Action>, maximum: nat, t: Thread)
    requires IsRun(worlds, actions, maximum) && Enabled(worlds[|actions|], t, PublishLocked)
    ensures var w := worlds[|actions|];
            !Publish(w.cache, w.threads[t].project, w.threads[t].created).1.Redundant?
  {
    var w := worlds[|actions|];
    RunKeepsInv(worlds, actions, maximum);
    HasReservation(w, t);
    PublishKeepsBookkeeping(w.cache, w.threads[t].project, w.threads[t].created, maximum);
  }

  /** A null repository is dereferenced exactly when the opener answered success without a
      repository and the publication lock was refused, or shutdown had been requested. */
  lemma CrashCondition(worlds: seq<World>, actions: seq<Action>, maximum: nat, t: Thread, e: Event, w': World)
    requires IsRun(worlds, actions, maximum) && Step(worlds[|actions|], t, e, maximum) == Some(w')
    requires !worlds[|actions|].crashed
    ensures var w := worlds[|actions|];
            w'.crashed <==> && (e.PublishLockFailed? || (e.PublishLocked? && w.cache.shutdownRequested))
                            && w.threads[t].created.OpenedNull?
  {
    RunKeepsInv(worlds, actions, maximum);
    hide IsRun, Reservations, Places, HeldAreCached, ShutdownOrder, Ages, Bookkeeping;
    CrashingStep(worlds[|actions|], t, e, maximum, w');
  }

  /** Such a run: an open reserves, its opener answers success without a repository, a shutdown is
      requested meanwhile, and the open publishes. */
  lemma CrashingRun(p: Project, t: Thread, u: Thread, maximum: nat) returns (worlds: seq<World>, actions: seq<Action>)
    requires t != u && maximum > 0
    ensures actions == [Action(t, Open(p)), Action(t, OpenerReturns(OpenedNull)), Action(u, BeginShutdown),
                        Action(t, PublishLocked)]
    ensures IsRun(worlds, actions, maximum) && !worlds[3].crashed && worlds[4].crashed
  {
    actions := [Action(t, Open(p)), Action(t, OpenerReturns(OpenedNull)), Action(u, BeginShutdown),
                Action(t, PublishLocked)];
    var reserved := AfterOpen(START, t, p, maximum);
    assert reserved.threads[t] == Opening(p) && reserved.cache.pending == [p];
    var answered := AfterOpenerReturns(reserved, t, OpenedNull);
    var requested := AfterBeginShutdown(answered, u);
    assert requested.threads[t] == Publishing(p, OpenedNull) && requested.cache.shutdownRequested;
    worlds := [START, reserved, answered, requested, AfterPublish(requested, t)];
  }

  lemma CrashingPublish(w: World, t: Thread, maximum: nat)
    requires Bookkeeping(w.cache, maximum) && Reservations(w) && Enabled(w, t, PublishLocked) && !w.crashed
    ensures AfterPublish(w, t).crashed <==> w.cache.shutdownRequested && w.threads[t].created.OpenedNull?
  {
    HasReservation(w, t);
    ErasingKeepsBookkeeping(w.cache, w.threads[t].project, maximum);
    hide Bookkeeping, Reservations, Touched, Appended;
  }

  lemma CrashingStep(w: World, t: Thread, e: Event, maximum: nat, w': World)
    requires Bookkeeping(w.cache, maximum) && Reservations(w) && !w.crashed && Step(w, t, e, maximum) == Some(w')
    ensures w'.crashed <==> && (e.PublishLockFailed? || (e.PublishLocked? && w.cache.shutdownRequested))
                            && w.threads[t].created.OpenedNull?
  {
    hide Bookkeeping, Reservations, AfterPublish, Reserve, Detach, SortedByProject;
    if e.PublishLocked? {
      CrashingPublish(w, t, maximum);
    }
  }

  // ----- Pins -----

  /** A repository a caller holds is in the cache, until shutdown was requested and has drained
      it; nothing but that drain takes it out, and nobody but shutdown closes it. */
  lemma HeldStaysCached(worlds: seq<World>, actions: seq<Action>, maximum: nat, t: Thread, e: Event, w': World,
                         r: Repo)
    requires IsRun(worlds, actions, maximum) && Step(worlds[|actions|], t, e, maximum) == Some(w')
    requires r in worlds[|actions|].held
    ensures var w := worlds[|actions|];
            && (Cached(w.cache.entries, r) || w.cache.shutdownRequested)
            && (Cached(w.cache.entries, r) && !e.Drain? ==> Cached(w'.cache.entries, r))
            && (r !in w.closed && r in w'.closed ==> e.CloseNext?)
  {
    var w := worlds[|actions|];
    RunKeepsInv(worlds, actions, maximum);
    hide IsRun, Bookkeeping, Reservations, Places, Ages, ShutdownOrder, Step, HeldAreCached;
    StepKeepsInv(w, t, e, maximum, w');
    HeldMeans(w, r);
    NowhereElse(w, r);
    NowhereElse(w', r);
    HeldDoesNotMove(w, t, e, maximum, w', r);
  }

  lemma HeldMeans(w: World, r: Repo)
    requires HeldAreCached(w) && ShutdownOrder(w) && r in w.held
    ensures r in w.place && (w.place[r] != InCache ==> w.cache.shutdownRequested)
  {
  }

  lemma HeldDoesNotMove(w: World, t: Thread, e: Event, maximum: nat, w': World, r: Repo)
    requires Places(w) && HeldAreCached(w) && r in w.held && Step(w, t, e, maximum) == Some(w')
    ensures r in w.place && r in w'.place
    ensures w'.place[r] == w.place[r] || e.Drain? || e.CloseNext?
    ensures e.CloseNext? && w.place[r] == InCache ==> w'.place[r] == InCache
  {
    NotHeldByOthers(w, t, r);
    hide Places, HeldAreCached, AfterOpen, AfterPublish, AfterClose;
    match e
    case Open(p) =>
      OpenMoves(w, t, p, maximum);
      OpenVictim(w, p, maximum);
    case PublishLocked => PublishMoves(w, t);
    case Close(p) =>
      CloseMoves(w, t, p);
    case _ =>
  }

  lemma OpenVictim(w: World, p: Project, maximum: nat)
    requires Places(w)
    ensures var outcome := Reserve(w.cache, p, w.held, maximum).1;
            outcome.Reserved? && outcome.victim.Some? ==> outcome.victim.value !in w.held && outcome.victim.value in w.place
  {
    ReserveOnEntries(w.cache, p, w.held, maximum);
    hide Reserve;
    var outcome := Reserve(w.cache, p, w.held, maximum).1;
    if outcome.Reserved? && outcome.victim.Some? {
      NowhereElse(w, outcome.victim.value);
    }
  }

  lemma CloseMoves(w: World, t: Thread, p: Project)
    requires Places(w)
    ensures var (w', outcome) := (AfterClose(w, t, p), Detach(w.cache, p, w.held).1);
            && w'.closed == w.closed
            && (if outcome.Detached? then
                  outcome.repo !in w.held && outcome.repo in w.place && w'.place == w.place[outcome.repo := InThread(t)]
                else w'.place == w.place)
  {
    hide Places;
    if FindEntry(w.cache.entries, p).Some? {
      CachedIsPlaced(w, FindEntry(w.cache.entries, p).value);
    }
  }

  lemma NotHeldByOthers(w: World, t: Thread, r: Repo)
    requires Places(w) && HeldAreCached(w) && r in w.held
    ensures r in w.place
    ensures OwnedBy(w, t, r) ==> w.threads[t].ClosingAll? && w.place[r] == InThread(t)
    ensures t in w.threads && w.threads[t].ClosingAll? && w.threads[t].rest != [] && w.place[r] == InCache ==>
              r != w.threads[t].rest[0].repo
  {
    if OwnedBy(w, t, r) {
      OwnedIsThere(w, t, r);
    }
    if t in w.threads && w.threads[t].ClosingAll? && w.threads[t].rest != [] {
      assert w.threads[t].rest[0] in w.threads[t].rest;
      OwnedIsThere(w, t, w.threads[t].rest[0].repo);
    }
  }

  // ----- Conservation -----

  /** Every repository the opener returned in these actions. */
  function Issued(actions: seq<Action>): set<Repo> {
    set a | a in actions && a.event.OpenerReturns? && a.event.result.OpenedRepo? :: a.event.result.repo
  }

  function IssuedBy(e: Event): set<Repo> {
    if e.OpenerReturns? && e.result.OpenedRepo? then {e.result.repo} else {}
  }

  lemma OwnedIsPlaced(w: World, t: Thread)
    requires Places(w) && t in w.threads
    ensures match w.threads[t]
            case Evicting(_, v) => v in w.place
            case Publishing(_, created) => created.OpenedRepo? ==> created.repo in w.place
            case Closing(v) => v in w.place
            case ClosingAll(rest) => rest != [] ==> rest[0].repo in w.place
            case _ => true
  {
    match w.threads[t]
    case Evicting(_, v) => OwnedIsThere(w, t, v);
    case Publishing(_, created) => if created.OpenedRepo? { OwnedIsThere(w, t, created.repo); }
    case Closing(v) => OwnedIsThere(w, t, v);
    case ClosingAll(rest) =>
      if rest != [] {
        assert rest[0] in rest;
        OwnedIsThere(w, t, rest[0].repo);
      }
    case _ =>
  }

  lemma CachedIsPlaced(w: World, i: nat)
    requires Places(w) && i < |w.cache.entries|
    ensures w.cache.entries[i].repo in w.place
  {
    assert w.cache.entries[i] in w.cache.entries && At(w, w.cache.entries[i].repo, InCache);
  }

  lemma OpenPlacesNothingNew(w: World, t: Thread, p: Project, maximum: nat)
    requires Places(w) && t !in w.threads
    ensures AfterOpen(w, t, p, maximum).place.Keys == w.place.Keys
  {
    hide Places, AfterOpen, Reserve;
    OpenMoves(w, t, p, maximum);
    OpenVictim(w, p, maximum);
  }

  lemma PublishPlacesNothingNew(w: World, t: Thread)
    requires Places(w) && Enabled(w, t, PublishLocked)
    ensures AfterPublish(w, t).place.Keys == w.place.Keys
  {
    hide Places, AfterPublish, Publish;
    PublishMoves(w, t);
    OwnedIsPlaced(w, t);
  }

  lemma ClosePlacesNothingNew(w: World, t: Thread, p: Project)
    requires Places(w) && t !in w.threads
    ensures AfterClose(w, t, p).place.Keys == w.place.Keys
  {
    hide Places, AfterClose, Detach;
    CloseMoves(w, t, p);
  }

  lemma ShutPlacesNothingNew(w: World, t: Thread, e: Event, maximum: nat, w': World)
    requires Places(w) && Step(w, t, e, maximum) == Some(w')
    requires e.CloseVictim? || e.FinishClose? || e.CloseNext? || e.PublishLockFailed?
    ensures w'.place.Keys == w.place.Keys
  {
    OwnedIsPlaced(w, t);
    hide Places;
  }

  lemma PlaceGrows(w: World, t: Thread, e: Event, maximum: nat, w': World)
    requires Places(w) && Step(w, t, e, maximum) == Some(w')
    ensures w'.place.Keys == w.place.Keys + IssuedBy(e)
  {
    hide Places, AfterOpen, AfterPublish, AfterClose, AfterCloseVictim, AfterCloseNext, AfterPublishLockFailed,
      SortedByProject,
      Erased;
    match e
    case Open(p) => OpenPlacesNothingNew(w, t, p, maximum);
    case PublishLocked => PublishPlacesNothingNew(w, t);
    case Close(p) => ClosePlacesNothingNew(w, t, p);
    case CloseVictim => ShutPlacesNothingNew(w, t, e, maximum, w');
    case FinishClose => ShutPlacesNothingNew(w, t, e, maximum, w');
    case CloseNext => ShutPlacesNothingNew(w, t, e, maximum, w');
    case PublishLockFailed => ShutPlacesNothingNew(w, t, e, maximum, w');
    case Drain => assert w'.place.Keys == w.place.Keys;
    case _ =>
  }

  lemma {:induction false} EveryIssueIsPlaced(worlds: seq<World>, actions: seq<Action>, maximum: nat)
    requires IsRun(worlds, actions, maximum)
    ensures worlds[|actions|].place.Keys == Issued(actions)
    decreases |actions|
  {
    if actions != [] {
      RunPrefix(worlds, actions, maximum);
      hide IsRun, Step, Bookkeeping, Reservations, Places, HeldAreCached, ShutdownOrder, Ages, Issued, IssuedBy;
      var front, last := actions[..|actions| - 1], actions[|actions| - 1];
      RunKeepsInv(worlds[..|actions|], front, maximum);
      EveryIssueIsPlaced(worlds[..|actions|], front, maximum);
      PlaceGrows(worlds[|front|], last.thread, last.event, maximum, worlds[|actions|]);
      IssuedLast(front, last);
    }
  }

  lemma IssuedLast(front: seq<Action>, last: Action)
    ensures Issued(front + [last]) == Issued(front) + IssuedBy(last.event)
  {
    var all := front + [last];
    forall r | r in Issued(front) + IssuedBy(last.event)
      ensures r in Issued(all)
    {
      if r in Issued(front) {
        var a :| a in front && a.event.OpenerReturns? && a.event.result.OpenedRepo? && a.event.result.repo == r;
        assert a in all;
      } else {
        assert last in all;
      }
    }
  }

  /** Each repository the opener ever returned is in exactly one place: cached, in the hands of
      one thread, or closed; and nothing is closed twice. */
  lemma Conservation(worlds: seq<World>, actions: seq<Action>, maximum: nat, r: Repo)
    requires IsRun(worlds, actions, maximum)
    ensures var w := worlds[|actions|];
            && (r in Issued(actions) <==> exists there :: At(w, r, there))
            && (forall there, elsewhere :: At(w, r, there) && At(w, r, elsewhere) ==> there == elsewhere)
            && Distinct(w.closed) && DistinctRepos(w.cache.entries)
  {
    var w := worlds[|actions|];
    RunKeepsInv(worlds, actions, maximum);
    EveryIssueIsPlaced(worlds, actions, maximum);
    if r in w.place {
      assert At(w, r, w.place[r]);
    }
  }

  /** When every call has returned and shutdown is complete, everything issued has been closed,
      once, and nothing is pending. */
  lemma AllClosedAtTheEnd(worlds: seq<World>, actions: seq<Action>, maximum: nat)
    requires IsRun(worlds, actions, maximum)
    requires worlds[|actions|].threads == map[] && worlds[|actions|].cache.shutdownCompleted
    ensures var w := worlds[|actions|];
            && w.cache.pending == [] && w.cache.entries == []
            && (set r | r in w.closed) == Issued(actions) && Distinct(w.closed)
  {
    var w := worlds[|actions|];
    RunKeepsInv(worlds, actions, maximum);
    EveryIssueIsPlaced(worlds, actions, maximum);
    forall r
      ensures r in w.closed <==> r in Issued(actions)
    {
      assert At(w, r, IsClosed) <==> r in w.closed;
      if r in w.place {
        assert At(w, r, w.place[r]);
      }
    }
  }

  /** Shutdown waits for nobody but opens that are still inside. */
  lemma DrainIsNotStuck(worlds: seq<World>, actions: seq<Action>, maximum: nat, t: Thread)
    requires IsRun(worlds, actions, maximum)
    requires var w := worlds[|actions|]; t in w.threads && w.threads[t].Draining?
    ensures var w := worlds[|actions|];
            Enabled(w, t, Drain) <==> forall u | u in w.threads :: Reservation(w.threads[u]).None?
  {
    var w := worlds[|actions|];
    RunKeepsInv(worlds, actions, maximum);
    if w.cache.pending != [] {
      var p := w.cache.pending[0];
      var u :| ReservationOf(w, u) == Some(p);
      assert Reservation(w.threads[u]).Some?;
    }
    forall u | u in w.threads && Reservation(w.threads[u]).Some?
      ensures w.cache.pending != []
    {
      HasReservation(w, u);
    }
  }

  /** Shutdown closes the repositories in order of project. */
  lemma {:induction false} ShutdownOrderIsByProject(es: seq<Entry>, i: nat, j: nat)
    requires i < j < |es|
    ensures SortedByProject(es)[i].project <= SortedByProject(es)[j].project
  {
    SortedIsOrdered(es);
  }

  predicate Ordered(es: seq<Entry>) {
    forall i, j | 0 <= i < j < |es| :: es[i].project <= es[j].project
  }

  lemma {:induction false} SortedIsOrdered(es: seq<Entry>)
    ensures Ordered(SortedByProject(es))
  {
    if es != [] {
      SortedIsOrdered(es[..|es| - 1]);
      InsertingKeepsOrder(es[|es| - 1], SortedByProject(es[..|es| - 1]));
    }
  }

  lemma {:induction false} InsertingKeepsOrder(e: Entry, es: seq<Entry>)
    requires Ordered(es)
    ensures Ordered(InsertByProject(e, es))
  {
    if es != [] && e.project >= es[0].project {
      InsertingKeepsOrder(e, es[1..]);
      var rest := InsertByProject(e, es[1..]);
      forall d | d in rest
        ensures es[0].project <= d.project
      {
        assert d in multiset(rest);
        assert d == e || d in multiset(es[1..]);
      }
      assert forall k | 0 <= k < |rest| :: rest[k] in rest;
    }
  }

  // ----- Least recently used -----

  /** The victim of an eviction is the least recently used repository no caller holds: any other
      was used later, unless neither was used since the generation counter last wrapped, where
      the project identity decides. */
  lemma VictimIsLeastRecentlyUsed(worlds: seq<World>, actions: seq<Action>, maximum: nat, i: nat, j: nat)
    requires IsRun(worlds, actions, maximum)
    requires var w := worlds[|actions|];
             && Victim(w.cache.entries, w.held) == Some(i)
             && j < |w.cache.entries| && j != i && w.cache.entries[j].repo !in w.held
    ensures var w := worlds[|actions|];
            var v, e := w.cache.entries[i], w.cache.entries[j];
            && v.repo !in w.held && v.repo in w.stamp && e.repo in w.stamp
            && (w.stamp[v.repo] < w.stamp[e.repo]
                || (w.stamp[v.repo] <= w.wrappedAt && w.stamp[e.repo] <= w.wrappedAt && v.project < e.project))
  {
    RunKeepsInv(worlds, actions, maximum);
    OldestGoes(worlds[|actions|], i, j);
  }

  lemma OldestGoes(w: World, i: nat, j: nat)
    requires Ages(w) && DistinctProjects(w.cache.entries) && Victim(w.cache.entries, w.held) == Some(i)
    requires j < |w.cache.entries| && j != i && w.cache.entries[j].repo !in w.held
    ensures var v, e := w.cache.entries[i], w.cache.entries[j];
            && v.repo !in w.held && v.repo in w.stamp && e.repo in w.stamp
            && (w.stamp[v.repo] < w.stamp[e.repo]
                || (w.stamp[v.repo] <= w.wrappedAt && w.stamp[e.repo] <= w.wrappedAt && v.project < e.project))
  {
    var v, e := w.cache.entries[i], w.cache.entries[j];
    assert !Precedes(e, v);
    assert AgeIsRecorded(v, w.stamp, w.uses, w.wrappedAt) && AgeIsRecorded(e, w.stamp, w.uses, w.wrappedAt);
  }
}
