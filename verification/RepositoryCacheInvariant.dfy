// The invariant of the repository cache, and why each lock section keeps it.

module RepositoryCacheInvariant {
  import opened Options
  import opened RepositoryCacheModel

  // ----- The invariant -----

  /** Bounded; no project twice; every reservation belongs to exactly one thread. */
  ghost predicate Bookkeeping(c: Cache, maximum: nat) {
    && |c.entries| + |c.pending| <= maximum
    && DistinctProjects(c.entries)
    && Distinct(c.pending)
    && Apart(c.entries, c.pending)
  }

  predicate DistinctProjects(entries: seq<Entry>) {
    forall i, j | 0 <= i < j < |entries| :: entries[i].project != entries[j].project
  }

  predicate Apart(entries: seq<Entry>, pending: seq<Project>) {
    forall i | 0 <= i < |entries| :: entries[i].project !in pending
  }

  function ReservationOf(w: World, t: Thread): Option<Project> {
    if t in w.threads then Reservation(w.threads[t]) else None
  }

  ghost predicate Reservations(w: World) {
    && (forall t :: ReservationOf(w, t).Some? ==> ReservationOf(w, t).value in w.cache.pending)
    && (forall t, u | t != u && ReservationOf(w, t).Some? :: ReservationOf(w, t) != ReservationOf(w, u))
    && (forall p | p in w.cache.pending :: exists t :: ReservationOf(w, t) == Some(p))
  }

  predicate DistinctRepos(entries: seq<Entry>) {
    forall i, j | 0 <= i < j < |entries| :: entries[i].repo != entries[j].repo
  }

  predicate OwnedBy(w: World, t: Thread, r: Repo) {
    t in w.threads && Owns(w.threads[t], r)
  }

  /** The repository object can be reached from this place. */
  predicate At(w: World, r: Repo, there: Place) {
    match there
    case InCache => Cached(w.cache.entries, r)
    case InThread(t) => OwnedBy(w, t, r)
    case IsClosed => r in w.closed
  }

  /** Every repository the opener ever returned is where `place` says, once, and nowhere else. */
  ghost predicate Places(w: World) {
    && (forall r, there :: At(w, r, there) <==> r in w.place && w.place[r] == there)
    && OncePerPlace(w)
  }

  ghost predicate OncePerPlace(w: World) {
    && DistinctRepos(w.cache.entries)
    && Distinct(w.closed)
    && (forall t | t in w.threads && w.threads[t].ClosingAll? :: DistinctRepos(w.threads[t].rest))
  }

  /** A repository some caller holds is in the cache until shutdown has taken everything, and
      then only shutdown may have it or have closed it. */
  ghost predicate HeldAreCached(w: World) {
    forall r | r in w.held :: r in w.place && (w.place[r] == InCache || (w.drained && LeftToShutdown(w, w.place[r])))
  }

  predicate LeftToShutdown(w: World, there: Place) {
    there == IsClosed || (there.InThread? && there.thread in w.threads && w.threads[there.thread].ClosingAll?)
  }

  predicate ShutsDown(w: World, t: Thread) {
    t in w.threads && (w.threads[t].Draining? || w.threads[t].ClosingAll?)
  }

  predicate FlagsInOrder(w: World) {
    && (w.cache.shutdownInProgress || w.cache.shutdownCompleted <==> w.cache.shutdownRequested)
    && (w.drained ==> w.cache.shutdownRequested && w.cache.entries == [] && w.cache.pending == [])
    && (w.cache.shutdownCompleted ==> w.drained && !w.cache.shutdownInProgress)
  }

  /** One shutdown at a time, which drains once. */
  ghost predicate ShutdownOrder(w: World) {
    && FlagsInOrder(w)
    && (forall t | ShutsDown(w, t) :: w.cache.shutdownInProgress && (w.threads[t].ClosingAll? <==> w.drained))
    && (forall t, u | t != u && ShutsDown(w, t) :: !ShutsDown(w, u))
  }

  predicate AgeIsRecorded(e: Entry, stamp: map<Repo, nat>, uses: nat, wrappedAt: nat) {
    && e.repo in stamp && stamp[e.repo] <= uses
    && e.lastUse == if stamp[e.repo] > wrappedAt then stamp[e.repo] - wrappedAt else 0
  }

  predicate StampsDiffer(entries: seq<Entry>, stamp: map<Repo, nat>)
    requires forall i | 0 <= i < |entries| :: entries[i].repo in stamp
  {
    forall i, j | 0 <= i < j < |entries| :: stamp[entries[i].repo] != stamp[entries[j].repo]
  }

  /** The recorded generation of an entry is its true age since the last wrap. */
  ghost predicate Ages(w: World) {
    && w.cache.generation <= MAX_GENERATION && w.wrappedAt <= w.uses && w.cache.generation == w.uses - w.wrappedAt
    && (forall i | 0 <= i < |w.cache.entries| :: AgeIsRecorded(w.cache.entries[i], w.stamp, w.uses, w.wrappedAt))
    && StampsDiffer(w.cache.entries, w.stamp)
  }

  ghost predicate Inv(w: World, maximum: nat) {
    Bookkeeping(w.cache, maximum) && Reservations(w) && Places(w) && HeldAreCached(w) && ShutdownOrder(w) && Ages(w)
  }

  // ----- Sequences of entries -----

  lemma WithoutIs(entries: seq<Entry>, i: nat)
    requires i < |entries|
    ensures forall e :: e in Without(entries, i) ==> e in entries
    ensures forall e :: e in entries && e != entries[i] ==> e in Without(entries, i)
    ensures DistinctRepos(entries) ==> DistinctRepos(Without(entries, i)) && !Cached(Without(entries, i), entries[i].repo)
    ensures DistinctProjects(entries) ==> DistinctProjects(Without(entries, i))
  {
    var rest := Without(entries, i);
    assert forall k | 0 <= k < |rest| :: rest[k] == entries[if k < i then k else k + 1];
    forall e | e in entries && e != entries[i]
      ensures e in rest
    {
      var k :| 0 <= k < |entries| && entries[k] == e;
      assert rest[if k < i then k else k - 1] == e;
    }
  }

  lemma {:induction false} ErasedKeepsDistinct(pending: seq<Project>, p: Project)
    requires Distinct(pending)
    ensures Distinct(Erased(pending, p))
  {
    if pending != [] {
      assert forall i, j | 0 <= i < j < |pending[1..]| :: pending[1..][i] == pending[i + 1] && pending[1..][j] == pending[j + 1];
      ErasedKeepsDistinct(pending[1..], p);
      if pending[0] != p {
        assert forall i | 0 < i < |pending| :: pending[i] != pending[0];
        assert pending[0] !in pending[1..];
      }
    }
  }

  predicate SameOwners(a: seq<Entry>, b: seq<Entry>) {
    |a| == |b| && forall k | 0 <= k < |a| :: a[k].project == b[k].project && a[k].repo == b[k].repo
  }

  lemma SameOwnersKeep(a: seq<Entry>, b: seq<Entry>)
    requires SameOwners(a, b)
    ensures forall r :: Cached(a, r) <==> Cached(b, r)
    ensures DistinctRepos(a) ==> DistinctRepos(b)
  {
    forall r
      ensures Cached(a, r) <==> Cached(b, r)
    {
      if Cached(a, r) {
        var k :| 0 <= k < |a| && a[k].repo == r;
        assert b[k] in b;
      }
      if Cached(b, r) {
        var k :| 0 <= k < |b| && b[k].repo == r;
        assert a[k] in a;
      }
    }
  }

  // ----- Bookkeeping -----

  lemma AgedSame(c: Cache)
    ensures SameOwners(c.entries, Aged(c).entries) && Aged(c).pending == c.pending
  {
  }

  lemma TouchedSame(c: Cache, i: nat)
    requires i < |c.entries|
    ensures SameOwners(c.entries, Touched(c, i).entries) && Touched(c, i).pending == c.pending
  {
    AgedSame(c);
  }

  lemma SameOwnersBookkeeping(c: Cache, d: Cache, maximum: nat)
    requires Bookkeeping(c, maximum) && SameOwners(c.entries, d.entries) && d.pending == c.pending
    ensures Bookkeeping(d, maximum)
  {
  }

  lemma EvictingKeepsBookkeeping(c: Cache, i: nat, maximum: nat)
    requires Bookkeeping(c, maximum) && i < |c.entries|
    ensures Bookkeeping(c.(entries := Without(c.entries, i)), maximum - 1)
  {
    WithoutIs(c.entries, i);
    var rest := Without(c.entries, i);
    assert forall k | 0 <= k < |rest| :: rest[k] == c.entries[if k < i then k else k + 1];
  }

  lemma ReservingKeepsBookkeeping(c: Cache, p: Project, maximum: nat)
    requires Bookkeeping(c, maximum) && p !in c.pending && forall k | 0 <= k < |c.entries| :: c.entries[k].project != p
    ensures Bookkeeping(c.(pending := c.pending + [p]), maximum + 1)
  {
  }

  lemma ReserveKeepsBookkeeping(c: Cache, p: Project, held: multiset<Repo>, maximum: nat)
    requires Bookkeeping(c, maximum)
    ensures Bookkeeping(Reserve(c, p, held, maximum).0, maximum)
  {
    hide Bookkeeping, Touched, SameOwners, IsVictim;
    var i := FindEntry(c.entries, p);
    if i.Some? {
      TouchedSame(c, i.value);
      SameOwnersBookkeeping(c, Touched(c, i.value), maximum);
    } else if !c.shutdownRequested && p !in c.pending {
      assert forall k | 0 <= k < |c.entries| :: c.entries[k].project != p by {
        assert forall k | 0 <= k < |c.entries| :: c.entries[k] in c.entries;
      }
      if |c.entries| + |c.pending| < maximum {
        ReservingWithinBound(c, p, maximum);
      } else {
        var v := Victim(c.entries, held);
        if v.Some? {
          VictimInRange(c.entries, held);
          EvictThenReserve(c, v.value, p, maximum);
        }
      }
    }
  }

  lemma VictimInRange(entries: seq<Entry>, held: multiset<Repo>)
    ensures Victim(entries, held).Some? ==> Victim(entries, held).value < |entries|
                                            && entries[Victim(entries, held).value].repo !in held
  {
  }

  lemma ReservingWithinBound(c: Cache, p: Project, maximum: nat)
    requires Bookkeeping(c, maximum) && |c.entries| + |c.pending| < maximum
    requires p !in c.pending && forall k | 0 <= k < |c.entries| :: c.entries[k].project != p
    ensures Bookkeeping(c.(pending := c.pending + [p]), maximum)
  {
    ReservingKeepsBookkeeping(c, p, maximum - 1);
  }

  lemma EvictThenReserve(c: Cache, i: nat, p: Project, maximum: nat)
    requires Bookkeeping(c, maximum) && i < |c.entries|
    requires p !in c.pending && forall k | 0 <= k < |c.entries| :: c.entries[k].project != p
    ensures Bookkeeping(c.(entries := Without(c.entries, i), pending := c.pending + [p]), maximum)
  {
    EvictingKeepsBookkeeping(c, i, maximum);
    var d := c.(entries := Without(c.entries, i));
    assert forall k | 0 <= k < |d.entries| :: d.entries[k] == c.entries[if k < i then k else k + 1];
    ReservingKeepsBookkeeping(d, p, maximum - 1);
  }

  lemma ErasingKeepsBookkeeping(c: Cache, p: Project, maximum: nat)
    requires Bookkeeping(c, maximum) && p in c.pending
    ensures 0 < maximum && Bookkeeping(c.(pending := Erased(c.pending, p)), maximum - 1)
    ensures forall k | 0 <= k < |c.entries| :: c.entries[k].project != p
    ensures FindEntry(c.entries, p).None?
  {
    ErasedKeepsDistinct(c.pending, p);
  }

  lemma AppendingKeepsBookkeeping(c: Cache, e: Entry, maximum: nat)
    requires Bookkeeping(c, maximum)
    requires e.project !in c.pending && forall k | 0 <= k < |c.entries| :: c.entries[k].project != e.project
    ensures Bookkeeping(c.(entries := c.entries + [e]), maximum + 1)
  {
  }

  lemma PublishKeepsBookkeeping(c: Cache, p: Project, created: Opened, maximum: nat)
    requires Bookkeeping(c, maximum) && p in c.pending
    ensures Bookkeeping(Publish(c, p, created).0, maximum)
    ensures !Publish(c, p, created).1.Redundant?
    ensures Publish(c, p, created).1.NullDereference? ==> c.shutdownRequested
  {
    ErasingKeepsBookkeeping(c, p, maximum);
    var d := c.(pending := Erased(c.pending, p));
    var a := Aged(d);
    AgedSame(d);
    SameOwnersBookkeeping(d, a, maximum - 1);
    if created.OpenedRepo? {
      AppendingKeepsBookkeeping(a, Entry(p, created.repo, a.generation), maximum - 1);
      assert Appended(d, p, created.repo).pending == a.pending;
    }
  }

  lemma DetachKeepsBookkeeping(c: Cache, p: Project, held: multiset<Repo>, maximum: nat)
    requires Bookkeeping(c, maximum)
    ensures Bookkeeping(Detach(c, p, held).0, maximum)
  {
    var i := FindEntry(c.entries, p);
    if i.Some? {
      EvictingKeepsBookkeeping(c, i.value, maximum);
    }
  }

  lemma StepKeepsBookkeeping(w: World, t: Thread, e: Event, maximum: nat, w': World)
    requires Bookkeeping(w.cache, maximum) && Reservations(w) && Step(w, t, e, maximum) == Some(w')
    ensures Bookkeeping(w'.cache, maximum)
  {
    hide Reserve, Publish, Detach, Erased, Reservations, SortedByProject;
    match e
    case Open(p) => ReserveKeepsBookkeeping(w.cache, p, w.held, maximum);
    case PublishLocked =>
      HasReservation(w, t);
      PublishKeepsBookkeeping(w.cache, w.threads[t].project, w.threads[t].created, maximum);
    case ClearPending =>
      HasReservation(w, t);
      ErasingKeepsBookkeeping(w.cache, w.threads[t].project, maximum);
    case Close(p) => DetachKeepsBookkeeping(w.cache, p, w.held, maximum);
    case _ =>
  }

  lemma HasReservation(w: World, t: Thread)
    requires Reservations(w) && t in w.threads && Reservation(w.threads[t]).Some?
    ensures Reservation(w.threads[t]).value in w.cache.pending
  {
    assert ReservationOf(w, t).Some?;
  }

  // ----- Reservations -----

  ghost predicate SameThreadsBut(w: World, w': World, t: Thread) {
    forall u | u != t :: (u in w.threads <==> u in w'.threads) && (u in w.threads ==> w.threads[u] == w'.threads[u])
  }

  lemma ReservationsKept(w: World, w': World, t: Thread)
    requires Reservations(w) && SameThreadsBut(w, w', t)
    requires w'.cache.pending == w.cache.pending && ReservationOf(w', t) == ReservationOf(w, t)
    ensures Reservations(w')
  {
    assert forall u :: ReservationOf(w', u) == ReservationOf(w, u);
  }

  lemma ReservationAdded(w: World, w': World, t: Thread, p: Project)
    requires Reservations(w) && SameThreadsBut(w, w', t) && p !in w.cache.pending
    requires w'.cache.pending == w.cache.pending + [p]
    requires ReservationOf(w, t).None? && ReservationOf(w', t) == Some(p)
    ensures Reservations(w')
  {
    assert forall u | u != t :: ReservationOf(w', u) == ReservationOf(w, u);
    forall q | q in w'.cache.pending
      ensures exists u :: ReservationOf(w', u) == Some(q)
    {
      if q != p {
        var u :| ReservationOf(w, u) == Some(q);
        assert u != t && ReservationOf(w', u) == Some(q);
      }
    }
  }

  lemma ReservationDropped(w: World, w': World, t: Thread, p: Project)
    requires Reservations(w) && SameThreadsBut(w, w', t)
    requires w'.cache.pending == Erased(w.cache.pending, p)
    requires ReservationOf(w, t) == Some(p) && ReservationOf(w', t).None?
    ensures Reservations(w')
  {
    assert forall u | u != t :: ReservationOf(w', u) == ReservationOf(w, u) && ReservationOf(w, u) != Some(p);
    forall q | q in w'.cache.pending
      ensures exists u :: ReservationOf(w', u) == Some(q)
    {
      var u :| ReservationOf(w, u) == Some(q);
      assert u != t && ReservationOf(w', u) == Some(q);
    }
  }

  lemma ReserveOnPending(c: Cache, p: Project, held: multiset<Repo>, maximum: nat)
    ensures var (d, outcome) := Reserve(c, p, held, maximum);
            d.pending == if outcome.Reserved? then c.pending + [p] else c.pending
    ensures Reserve(c, p, held, maximum).1.Reserved? ==> p !in c.pending
  {
    hide Victim, FindEntry, SameOwners;
    var i := FindEntry(c.entries, p);
    if i.Some? {
      TouchedSame(c, i.value);
    }
  }

  lemma PublishOnPending(c: Cache, p: Project, created: Opened)
    ensures Publish(c, p, created).0.pending == Erased(c.pending, p)
  {
  }

  lemma DetachOnPending(c: Cache, p: Project, held: multiset<Repo>)
    ensures Detach(c, p, held).0.pending == c.pending
  {
  }

  lemma OpenKeepsReservations(w: World, t: Thread, p: Project, maximum: nat)
    requires Reservations(w) && t !in w.threads
    ensures Reservations(AfterOpen(w, t, p, maximum))
  {
    hide Reserve, Reservations, SameThreadsBut;
    var w' := AfterOpen(w, t, p, maximum);
    ReserveOnPending(w.cache, p, w.held, maximum);
    assert SameThreadsBut(w, w', t) by {
      SameThreadsMeans(w, w', t);
    }
    if Reserve(w.cache, p, w.held, maximum).1.Reserved? {
      ReservationAdded(w, w', t, p);
    } else {
      ReservationsKept(w, w', t);
    }
  }

  lemma SameThreadsMeans(w: World, w': World, t: Thread)
    requires forall u | u != t :: (u in w.threads <==> u in w'.threads) && (u in w.threads ==> w.threads[u] == w'.threads[u])
    ensures SameThreadsBut(w, w', t)
  {
  }

  lemma PublishKeepsReservations(w: World, t: Thread)
    requires Reservations(w) && Enabled(w, t, PublishLocked)
    ensures Reservations(AfterPublish(w, t))
  {
    hide Publish, Reservations, SameThreadsBut;
    var w' := AfterPublish(w, t);
    SameThreadsMeans(w, w', t);
    PublishOnPending(w.cache, w.threads[t].project, w.threads[t].created);
    ReservationDropped(w, w', t, w.threads[t].project);
  }

  lemma OtherStands(w: World, t: Thread, e: Event, maximum: nat, w': World, u: Thread)
    requires Step(w, t, e, maximum) == Some(w') && u != t && !e.Open? && !e.PublishLocked?
    ensures (u in w.threads <==> u in w'.threads) && (u in w.threads ==> w.threads[u] == w'.threads[u])
  {
    hide AfterOpen, AfterPublish, Detach, Erased, SortedByProject;
  }

  /** An action other than opening and publishing leaves every other thread where it stands. */
  lemma OthersStand(w: World, t: Thread, e: Event, maximum: nat, w': World)
    requires Step(w, t, e, maximum) == Some(w') && !e.Open? && !e.PublishLocked?
    ensures SameThreadsBut(w, w', t)
  {
    hide Step;
    forall u | u != t
      ensures (u in w.threads <==> u in w'.threads) && (u in w.threads ==> w.threads[u] == w'.threads[u])
    {
      OtherStands(w, t, e, maximum, w', u);
    }
  }

  lemma OtherStepKeepsReservations(w: World, t: Thread, e: Event, maximum: nat, w': World)
    requires Reservations(w) && Step(w, t, e, maximum) == Some(w')
    requires !e.Open? && !e.PublishLocked? && !e.ClearPending?
    ensures Reservations(w')
  {
    hide Detach, Reservations, SortedByProject, SameThreadsBut, Erased;
    if e.Close? {
      DetachOnPending(w.cache, e.p, w.held);
    }
    OthersStand(w, t, e, maximum, w');
    ReservationsKept(w, w', t);
  }

  lemma StepKeepsReservations(w: World, t: Thread, e: Event, maximum: nat, w': World)
    requires Reservations(w) && Step(w, t, e, maximum) == Some(w')
    ensures Reservations(w')
  {
    hide AfterOpen, AfterPublish, AfterClose, AfterDrain, AfterCloseNext, AfterBeginShutdown, AfterFinishShutdown,
      AfterCloseVictim, AfterOpenerReturns, AfterPublishLockFailed, Reservations, SortedByProject, SameThreadsBut, Erased;
    match e
    case Open(p) => OpenKeepsReservations(w, t, p, maximum);
    case PublishLocked => PublishKeepsReservations(w, t);
    case ClearPending =>
      SameThreadsMeans(w, w', t);
      ReservationDropped(w, w', t, w.threads[t].project);
    case _ => OtherStepKeepsReservations(w, t, e, maximum, w');
  }

  // ----- Conservation -----

  /** Only `r` moved, and it is now at `there` alone. */
  ghost predicate Moved(w: World, w': World, r: Repo, there: Place) {
    && (forall q, x | q != r :: At(w', q, x) <==> At(w, q, x))
    && (forall x :: At(w', r, x) <==> x == there)
    && w'.place == w.place[r := there]
  }

  ghost predicate Stayed(w: World, w': World) {
    (forall q, x :: At(w', q, x) <==> At(w, q, x)) && w'.place == w.place
  }

  lemma MovedKeepsPlaces(w: World, w': World, r: Repo, there: Place)
    requires Places(w) && Moved(w, w', r, there) && OncePerPlace(w')
    ensures Places(w')
  {
    forall q, x
      ensures At(w', q, x) <==> q in w'.place && w'.place[q] == x
    {
    }
  }

  lemma StayedKeepsPlaces(w: World, w': World)
    requires Places(w) && Stayed(w, w') && OncePerPlace(w')
    ensures Places(w')
  {
  }

  /** `t` is the only thread whose belongings may have changed. */
  ghost predicate OnlyOwner(w: World, w': World, t: Thread) {
    forall u, q | u != t :: OwnedBy(w', u, q) <==> OwnedBy(w, u, q)
  }

  lemma OnlyOwnerMeans(w: World, w': World, t: Thread)
    requires SameThreadsBut(w, w', t)
    ensures OnlyOwner(w, w', t)
  {
  }

  /** A repository passes from one place to another; the four kinds of place are checked apart. */
  lemma MoveIs(w: World, w': World, t: Thread, r: Repo, there: Place)
    requires OnlyOwner(w, w', t) && w'.place == w.place[r := there]
    requires forall q | q != r :: OwnedBy(w', t, q) <==> OwnedBy(w, t, q)
    requires forall q | q != r :: Cached(w'.cache.entries, q) <==> Cached(w.cache.entries, q)
    requires forall q | q != r :: q in w'.closed <==> q in w.closed
    requires OwnedBy(w', t, r) <==> there == InThread(t)
    requires Cached(w'.cache.entries, r) <==> there == InCache
    requires r in w'.closed <==> there == IsClosed
    requires forall u | u != t :: !OwnedBy(w, u, r)
    requires there.InThread? ==> there.thread == t
    ensures Moved(w, w', r, there)
  {
    forall q, x | q != r
      ensures At(w', q, x) <==> At(w, q, x)
    {
    }
    forall x
      ensures At(w', r, x) <==> x == there
    {
    }
  }

  lemma StayIs(w: World, w': World, t: Thread)
    requires OnlyOwner(w, w', t) && w'.place == w.place && w'.closed == w.closed
    requires forall q :: OwnedBy(w', t, q) <==> OwnedBy(w, t, q)
    requires forall q :: Cached(w'.cache.entries, q) <==> Cached(w.cache.entries, q)
    ensures Stayed(w, w')
  {
    forall q, x
      ensures At(w', q, x) <==> At(w, q, x)
    {
    }
  }

  /** Where a repository known to be at one place is not. */
  lemma NowhereElse(w: World, r: Repo)
    requires Places(w)
    ensures r !in w.place ==> forall u :: !OwnedBy(w, u, r)
    ensures r in w.place ==> forall u | w.place[r] != InThread(u) :: !OwnedBy(w, u, r)
    ensures Cached(w.cache.entries, r) <==> r in w.place && w.place[r] == InCache
    ensures r in w.closed <==> r in w.place && w.place[r] == IsClosed
  {
    assert At(w, r, InCache) <==> Cached(w.cache.entries, r);
    assert At(w, r, IsClosed) <==> r in w.closed;
    assert forall u :: At(w, r, InThread(u)) <==> OwnedBy(w, u, r);
  }

  lemma OwnedIsThere(w: World, t: Thread, r: Repo)
    requires Places(w) && OwnedBy(w, t, r)
    ensures r in w.place && w.place[r] == InThread(t)
  {
    assert At(w, r, InThread(t));
  }

  ghost predicate SameRepos(before: seq<Entry>, after: seq<Entry>) {
    forall r :: Cached(after, r) <==> Cached(before, r)
  }

  ghost predicate LostOne(before: seq<Entry>, after: seq<Entry>, gone: Repo) {
    forall r :: Cached(after, r) <==> Cached(before, r) && r != gone
  }

  ghost predicate GainedOne(before: seq<Entry>, after: seq<Entry>, new_: Repo) {
    forall r :: Cached(after, r) <==> Cached(before, r) || r == new_
  }

  /** What the first section of open does to the cache contents. */
  lemma ReserveOnEntries(c: Cache, p: Project, held: multiset<Repo>, maximum: nat)
    requires DistinctRepos(c.entries)
    ensures var (d, outcome) := Reserve(c, p, held, maximum);
            && DistinctRepos(d.entries)
            && (if outcome.Reserved? && outcome.victim.Some? then
                  && Cached(c.entries, outcome.victim.value) && outcome.victim.value !in held
                  && LostOne(c.entries, d.entries, outcome.victim.value)
                else SameRepos(c.entries, d.entries))
            && (outcome.Hit? ==> Cached(c.entries, outcome.repo))
            && (outcome.Hit? || outcome.Reserved? ==> !c.shutdownRequested)
  {
    hide Touched, IsVictim;
    var i := FindEntry(c.entries, p);
    if c.shutdownRequested {
    } else if i.Some? {
      TouchedSame(c, i.value);
      SameOwnersKeep(c.entries, Touched(c, i.value).entries);
      assert c.entries[i.value] in c.entries;
    } else {
      VictimInRange(c.entries, held);
      var v := Victim(c.entries, held);
      if v.Some? {
        WithoutKeeps(c.entries, v.value);
      }
    }
  }

  lemma WithoutKeeps(entries: seq<Entry>, i: nat)
    requires DistinctRepos(entries) && i < |entries|
    ensures DistinctRepos(Without(entries, i)) && Cached(entries, entries[i].repo)
    ensures LostOne(entries, Without(entries, i), entries[i].repo)
  {
    WithoutIs(entries, i);
    assert entries[i] in entries;
    forall r
      ensures Cached(Without(entries, i), r) <==> Cached(entries, r) && r != entries[i].repo
    {
      if Cached(entries, r) && r != entries[i].repo {
        var e :| e in entries && e.repo == r;
        assert e in Without(entries, i);
      }
    }
  }

  lemma OnceKept(w: World, w': World, t: Thread)
    requires Places(w) && SameThreadsBut(w, w', t)
    requires DistinctRepos(w'.cache.entries) && Distinct(w'.closed) && !(t in w'.threads && w'.threads[t].ClosingAll?)
    ensures OncePerPlace(w')
  {
  }

  lemma EvictionKeepsPlaces(w: World, w': World, t: Thread, v: Repo)
    requires Places(w) && t !in w.threads && Cached(w.cache.entries, v) && DistinctRepos(w'.cache.entries)
    requires t in w'.threads && w'.threads == w.threads[t := w'.threads[t]]
    requires !w'.threads[t].ClosingAll? && forall q :: Owns(w'.threads[t], q) <==> q == v
    requires w'.place == w.place[v := InThread(t)] && w'.closed == w.closed
    requires LostOne(w.cache.entries, w'.cache.entries, v)
    ensures Places(w')
  {
    assert SameThreadsBut(w, w', t);
    OnceKept(w, w', t);
    OnlyOwnerMeans(w, w', t);
    NowhereElse(w, v);
    hide Owns, Cached, Places, SameThreadsBut;
    MoveIs(w, w', t, v, InThread(t));
    MovedKeepsPlaces(w, w', v, InThread(t));
  }

  /** Nothing moves: the thread owns what it owned, and the cache holds what it held. */
  lemma NoMoveKeepsPlaces(w: World, w': World, t: Thread)
    requires Places(w) && SameThreadsBut(w, w', t) && DistinctRepos(w'.cache.entries)
    requires !(t in w'.threads && w'.threads[t].ClosingAll?)
    requires w'.place == w.place && w'.closed == w.closed
    requires forall q :: OwnedBy(w', t, q) <==> OwnedBy(w, t, q)
    requires SameRepos(w.cache.entries, w'.cache.entries)
    ensures Places(w')
  {
    OnceKept(w, w', t);
    OnlyOwnerMeans(w, w', t);
    hide Owns, OwnedBy, Cached, Places, SameThreadsBut;
    StayIs(w, w', t);
    StayedKeepsPlaces(w, w');
  }

  lemma EvictingOpenKeepsPlaces(w: World, t: Thread, p: Project, maximum: nat)
    requires Places(w) && t !in w.threads
    requires var outcome := Reserve(w.cache, p, w.held, maximum).1; outcome.Reserved? && outcome.victim.Some?
    ensures Places(AfterOpen(w, t, p, maximum))
  {
    ReserveOnEntries(w.cache, p, w.held, maximum);
    hide Reserve, Cached, DistinctRepos, Distinct, Places, LostOne, SameRepos;
    EvictionKeepsPlaces(w, AfterOpen(w, t, p, maximum), t, Reserve(w.cache, p, w.held, maximum).1.victim.value);
  }

  lemma OpenKeepsPlaces(w: World, t: Thread, p: Project, maximum: nat)
    requires Places(w) && t !in w.threads
    ensures Places(AfterOpen(w, t, p, maximum))
  {
    ReserveOnEntries(w.cache, p, w.held, maximum);
    hide Reserve, Cached, DistinctRepos, Distinct, Places, LostOne, SameRepos;
    var outcome := Reserve(w.cache, p, w.held, maximum).1;
    if outcome.Reserved? && outcome.victim.Some? {
      EvictingOpenKeepsPlaces(w, t, p, maximum);
    } else {
      var w' := AfterOpen(w, t, p, maximum);
      SameThreadsMeans(w, w', t);
      hide SameThreadsBut;
      NoMoveKeepsPlaces(w, w', t);
    }
  }

  lemma PublishOnEntries(c: Cache, p: Project, created: Opened)
    requires DistinctRepos(c.entries) && (created.OpenedRepo? ==> !Cached(c.entries, created.repo))
    ensures var (d, outcome) := Publish(c, p, created);
            && DistinctRepos(d.entries)
            && (if outcome.Published? then GainedOne(c.entries, d.entries, outcome.repo) else SameRepos(c.entries, d.entries))
            && (outcome.Published? || outcome.ToClose? || outcome.Redundant? <==> created.OpenedRepo?)
            && (created.OpenedRepo? ==> outcome.repo == created.repo)
  {
    var d := c.(pending := Erased(c.pending, p));
    AgedSame(d);
    SameOwnersKeep(c.entries, Aged(d).entries);
    var i := FindEntry(c.entries, p);
    if i.Some? {
      TouchedSame(d, i.value);
      SameOwnersKeep(c.entries, Touched(d, i.value).entries);
    } else if created.OpenedRepo? {
      AppendedKeeps(Aged(d).entries, Entry(p, created.repo, Aged(d).generation));
    }
  }

  lemma AppendedKeeps(entries: seq<Entry>, e: Entry)
    requires DistinctRepos(entries) && !Cached(entries, e.repo)
    ensures DistinctRepos(entries + [e]) && GainedOne(entries, entries + [e], e.repo)
  {
    assert forall k | 0 <= k < |entries| :: entries[k] in entries;
    assert e in entries + [e];
  }

  lemma PublishedKeepsPlaces(w: World, w': World, t: Thread, r: Repo)
    requires Places(w) && t in w.threads && (forall q :: Owns(w.threads[t], q) <==> q == r)
    requires w'.threads == w.threads - {t} && w'.place == w.place[r := InCache] && w'.closed == w.closed
    requires GainedOne(w.cache.entries, w'.cache.entries, r) && DistinctRepos(w'.cache.entries)
    ensures Places(w')
  {
    SameThreadsMeans(w, w', t);
    OnceKept(w, w', t);
    OnlyOwnerMeans(w, w', t);
    OwnedIsThere(w, t, r);
    NowhereElse(w, r);
    hide Owns, Cached, Places, SameThreadsBut;
    MoveIs(w, w', t, r, InCache);
    MovedKeepsPlaces(w, w', r, InCache);
  }

  /** A thread closes a repository it owns. */
  lemma ShutKeepsPlaces(w: World, w': World, t: Thread, r: Repo)
    requires Places(w) && OwnedBy(w, t, r)
    requires forall q | q != r :: OwnedBy(w', t, q) <==> OwnedBy(w, t, q)
    requires !OwnedBy(w', t, r) && SameThreadsBut(w, w', t)
    requires t in w'.threads && w'.threads[t].ClosingAll? ==> DistinctRepos(w'.threads[t].rest)
    requires w'.place == w.place[r := IsClosed] && w'.closed == w.closed + [r] && w'.cache.entries == w.cache.entries
    ensures Places(w')
  {
    OnlyOwnerMeans(w, w', t);
    OwnedIsThere(w, t, r);
    NowhereElse(w, r);
    assert OncePerPlace(w');
    hide Owns, OwnedBy, Cached, Places, SameThreadsBut;
    MoveIs(w, w', t, r, IsClosed);
    MovedKeepsPlaces(w, w', r, IsClosed);
  }

  lemma PublishKeepsPlaces(w: World, t: Thread)
    requires Places(w) && Enabled(w, t, PublishLocked)
    ensures Places(AfterPublish(w, t))
  {
    var l := w.threads[t];
    var w' := AfterPublish(w, t);
    if l.created.OpenedRepo? {
      assert OwnedBy(w, t, l.created.repo);
      OwnedIsThere(w, t, l.created.repo);
      NowhereElse(w, l.created.repo);
    }
    PublishOnEntries(w.cache, l.project, l.created);
    hide Publish, Cached, DistinctRepos, Distinct, Places, GainedOne, SameRepos;
    if Publish(w.cache, l.project, l.created).1.Published? {
      PublishedKeepsPlaces(w, w', t, l.created.repo);
    } else {
      SameThreadsMeans(w, w', t);
      hide SameThreadsBut;
      NoMoveKeepsPlaces(w, w', t);
    }
  }

  lemma OpenerReturnsKeepsPlaces(w: World, t: Thread, result: Opened)
    requires Places(w) && Enabled(w, t, OpenerReturns(result))
    ensures Places(AfterOpenerReturns(w, t, result))
  {
    var w' := AfterOpenerReturns(w, t, result);
    SameThreadsMeans(w, w', t);
    if result.OpenedRepo? {
      OnceKept(w, w', t);
      OnlyOwnerMeans(w, w', t);
      NowhereElse(w, result.repo);
      hide Cached, Places, SameThreadsBut;
      MoveIs(w, w', t, result.repo, InThread(t));
      MovedKeepsPlaces(w, w', result.repo, InThread(t));
    } else {
      hide SameThreadsBut, Cached;
      NoMoveKeepsPlaces(w, w', t);
    }
  }

  lemma CloseKeepsPlaces(w: World, t: Thread, p: Project)
    requires Places(w) && t !in w.threads
    ensures Places(AfterClose(w, t, p))
  {
    var outcome := Detach(w.cache, p, w.held).1;
    if outcome.Detached? {
      WithoutKeeps(w.cache.entries, FindEntry(w.cache.entries, p).value);
      hide Places, DistinctRepos, Cached, Without, LostOne;
      EvictionKeepsPlaces(w, AfterClose(w, t, p), t, outcome.repo);
    }
  }

  lemma {:induction false} SortingKeepsRepos(es: seq<Entry>)
    requires DistinctRepos(es)
    ensures DistinctRepos(SortedByProject(es)) && SameRepos(es, SortedByProject(es))
  {
    if es != [] {
      var last := |es| - 1;
      assert DistinctRepos(es[..last]);
      SortingKeepsRepos(es[..last]);
      forall e | e in es[..last]
        ensures e.repo != es[last].repo
      {
      }
      assert !Cached(es[..last], es[last].repo);
      InsertingKeepsRepos(es[last], SortedByProject(es[..last]));
      SortedSameMembers(es);
    }
  }

  lemma SortedSameMembers(es: seq<Entry>)
    ensures SameRepos(es, SortedByProject(es))
  {
    var sorted := SortedByProject(es);
    assert forall e :: e in es <==> e in multiset(es);
    assert forall e :: e in sorted <==> e in multiset(sorted);
  }

  lemma {:induction false} InsertingKeepsRepos(e: Entry, es: seq<Entry>)
    requires DistinctRepos(es) && !Cached(es, e.repo)
    ensures DistinctRepos(InsertByProject(e, es))
  {
    if es != [] && e.project >= es[0].project {
      assert forall k | 0 <= k < |es[1..]| :: es[1..][k] == es[k + 1];
      assert es[0] in es && !Cached(es[1..], e.repo);
      InsertingKeepsRepos(e, es[1..]);
      var rest := InsertByProject(e, es[1..]);
      forall d | d in rest
        ensures d.repo != es[0].repo
      {
        assert d in multiset(rest);
        assert d == e || d in multiset(es[1..]);
      }
    } else if es != [] {
      assert forall d | d in es :: d.repo != e.repo;
    }
  }

  lemma DrainKeepsPlaces(w: World, t: Thread)
    requires Places(w) && Enabled(w, t, Drain)
    ensures Places(AfterDrain(w, t))
  {
    var w' := AfterDrain(w, t);
    SortingKeepsRepos(w.cache.entries);
    SameThreadsMeans(w, w', t);
    OnlyOwnerMeans(w, w', t);
    assert forall q :: OwnedBy(w', t, q) <==> Cached(w.cache.entries, q);
    assert forall q :: !OwnedBy(w, t, q);
    assert OncePerPlace(w');
    forall q, x
      ensures At(w', q, x) <==> q in w'.place && w'.place[q] == x
    {
      hide Owns, SortedByProject, DistinctRepos, SameThreadsBut;
      NowhereElse(w, q);
      assert At(w, q, x) <==> q in w.place && w.place[q] == x;
    }
  }

  lemma CloseNextKeepsPlaces(w: World, t: Thread)
    requires Places(w) && Enabled(w, t, CloseNext)
    ensures Places(AfterCloseNext(w, t))
  {
    var w' := AfterCloseNext(w, t);
    var rest := w.threads[t].rest;
    SameThreadsMeans(w, w', t);
    assert rest[0] in rest && DistinctRepos(rest);
    assert forall k | 0 <= k < |rest[1..]| :: rest[1..][k] == rest[k + 1];
    forall q
      ensures Cached(rest[1..], q) <==> Cached(rest, q) && q != rest[0].repo
    {
      if Cached(rest, q) && q != rest[0].repo {
        var e :| e in rest && e.repo == q;
        assert e in rest[1..];
      }
    }
    hide Places, Cached, SameThreadsBut;
    ShutKeepsPlaces(w, w', t, rest[0].repo);
  }

  lemma CloseVictimKeepsPlaces(w: World, t: Thread)
    requires Places(w) && Enabled(w, t, CloseVictim)
    ensures Places(AfterCloseVictim(w, t))
  {
    hide Places;
    SameThreadsMeans(w, AfterCloseVictim(w, t), t);
    ShutKeepsPlaces(w, AfterCloseVictim(w, t), t, w.threads[t].victim);
  }

  lemma PublishLockFailedKeepsPlaces(w: World, t: Thread)
    requires Places(w) && Enabled(w, t, PublishLockFailed)
    ensures Places(AfterPublishLockFailed(w, t))
  {
    hide Places;
    var w' := AfterPublishLockFailed(w, t);
    SameThreadsMeans(w, w', t);
    if w.threads[t].created.OpenedRepo? {
      ShutKeepsPlaces(w, w', t, w.threads[t].created.repo);
    } else {
      StillKeepsPlaces(w, w', t);
    }
  }

  lemma StepKeepsPlaces(w: World, t: Thread, e: Event, maximum: nat, w': World)
    requires Places(w) && Step(w, t, e, maximum) == Some(w')
    ensures Places(w')
  {
    hide Places, AfterOpen, AfterPublish, AfterPublishLockFailed, AfterOpenerReturns, AfterClose, AfterCloseVictim,
      AfterDrain,
      AfterCloseNext, Cached, SameThreadsBut;
    match e
    case Open(p) => OpenKeepsPlaces(w, t, p, maximum);
    case OpenerReturns(result) => OpenerReturnsKeepsPlaces(w, t, result);
    case PublishLocked => PublishKeepsPlaces(w, t);
    case PublishLockFailed => PublishLockFailedKeepsPlaces(w, t);
    case Close(p) => CloseKeepsPlaces(w, t, p);
    case Drain => DrainKeepsPlaces(w, t);
    case CloseNext => CloseNextKeepsPlaces(w, t);
    case CloseVictim => CloseVictimKeepsPlaces(w, t);
    case FinishClose =>
      OthersStand(w, t, e, maximum, w');
      ShutKeepsPlaces(w, w', t, w.threads[t].repo);
    case _ =>
      OthersStand(w, t, e, maximum, w');
      NothingCached();
      StillKeepsPlaces(w, w', t);
  }

  lemma NothingCached()
    ensures forall q :: !Cached([], q)
  {
  }

  lemma StillKeepsPlaces(w: World, w': World, t: Thread)
    requires Places(w) && SameThreadsBut(w, w', t) && w'.cache.entries == w.cache.entries
    requires !(t in w'.threads && w'.threads[t].ClosingAll?) || w'.threads == w.threads
    requires w'.place == w.place && w'.closed == w.closed
    requires forall q :: OwnedBy(w', t, q) <==> OwnedBy(w, t, q)
    ensures Places(w')
  {
    if w'.threads == w.threads {
      assert forall q, x :: At(w', q, x) <==> At(w, q, x);
    } else {
      NoMoveKeepsPlaces(w, w', t);
    }
  }

  // ----- Held repositories, shutdown and ages -----

  predicate SameFlags(c: Cache, d: Cache) {
    && d.shutdownRequested == c.shutdownRequested
    && d.shutdownInProgress == c.shutdownInProgress
    && d.shutdownCompleted == c.shutdownCompleted
  }

  lemma ReserveOnFlags(c: Cache, p: Project, held: multiset<Repo>, maximum: nat)
    ensures var (d, outcome) := Reserve(c, p, held, maximum);
            && SameFlags(c, d)
            && (c.shutdownRequested ==> d == c && outcome.ShuttingDown?)
  {
    hide Victim, FindEntry, Without;
  }

  lemma PublishOnFlags(c: Cache, p: Project, created: Opened)
    ensures SameFlags(c, Publish(c, p, created).0)
  {
    hide FindEntry;
  }

  lemma DetachOnFlags(c: Cache, p: Project, held: multiset<Repo>)
    ensures SameFlags(c, Detach(c, p, held).0)
    ensures c.entries == [] ==> Detach(c, p, held).0 == c && !Detach(c, p, held).1.Detached?
  {
  }

  /** What moved was held by no caller, and the thread that acted is not shutdown. */
  lemma HeldKept(w: World, w': World, t: Thread, moved: Option<Repo>, there: Place)
    requires HeldAreCached(w) && w'.held <= w.held && (w.drained ==> w'.drained)
    requires SameThreadsBut(w, w', t) && (t in w.threads ==> !w.threads[t].ClosingAll?)
    requires if moved.Some? then moved.value !in w.held && w'.place == w.place[moved.value := there] else w'.place == w.place
    ensures HeldAreCached(w')
  {
  }

  /** A thread other than shutdown owns nothing that is held. */
  lemma OwnedIsNotHeld(w: World, t: Thread, r: Repo)
    requires Places(w) && HeldAreCached(w) && OwnedBy(w, t, r) && !w.threads[t].ClosingAll?
    ensures r !in w.held
  {
    OwnedIsThere(w, t, r);
  }

  lemma OpenMoves(w: World, t: Thread, p: Project, maximum: nat)
    requires t !in w.threads
    ensures var (w', outcome) := (AfterOpen(w, t, p, maximum), Reserve(w.cache, p, w.held, maximum).1);
            && SameThreadsBut(w, w', t) && w'.drained == w.drained && w'.closed == w.closed
            && (outcome.Hit? ==> w'.held == w.held + multiset{outcome.repo} && w'.place == w.place && w'.threads == w.threads)
            && (outcome.Reserved? ==>
                  && w'.held == w.held
                  && w'.place == if outcome.victim.Some? then w.place[outcome.victim.value := InThread(t)] else w.place)
            && (!outcome.Hit? && !outcome.Reserved? ==> w' == w)
  {
    hide Reserve, SameThreadsBut;
    SameThreadsMeans(w, AfterOpen(w, t, p, maximum), t);
  }

  lemma OpenKeepsHeld(w: World, t: Thread, p: Project, maximum: nat)
    requires Places(w) && HeldAreCached(w) && t !in w.threads
    ensures HeldAreCached(AfterOpen(w, t, p, maximum))
  {
    OnceKept(w, w, t);
    ReserveOnEntries(w.cache, p, w.held, maximum);
    hide Reserve, Cached, DistinctRepos, Places, LostOne, SameRepos, AfterOpen, SameThreadsBut, HeldAreCached;
    OpenMoves(w, t, p, maximum);
    var w' := AfterOpen(w, t, p, maximum);
    var outcome := Reserve(w.cache, p, w.held, maximum).1;
    if outcome.Hit? {
      NowhereElse(w, outcome.repo);
      HitKeepsHeld(w, w', outcome.repo);
    } else if outcome.Reserved? {
      HeldKept(w, w', t, outcome.victim, InThread(t));
    }
  }

  /** A caller is handed a repository that is now in the cache. */
  lemma HitKeepsHeld(w: World, w': World, r: Repo)
    requires HeldAreCached(w) && w'.held == w.held + multiset{r} && w'.drained == w.drained && w'.threads == w.threads
    requires w'.place == w.place && r in w.place && w.place[r] == InCache
    ensures HeldAreCached(w')
  {
  }

  lemma PublishMoves(w: World, t: Thread)
    requires Enabled(w, t, PublishLocked)
    ensures var (l, w') := (w.threads[t], AfterPublish(w, t));
            && SameThreadsBut(w, w', t) && w'.drained == w.drained && w'.closed == w.closed
            && (if Publish(w.cache, l.project, l.created).1.Published?
                then l.created.OpenedRepo? && w'.place == w.place[l.created.repo := InCache]
                     && w'.held == w.held + multiset{l.created.repo}
                else w'.place == w.place && w'.held == w.held)
  {
    PublishOutcome(w.cache, w.threads[t].project, w.threads[t].created);
    hide Publish, SameThreadsBut;
    SameThreadsMeans(w, AfterPublish(w, t), t);
  }

  lemma PublishKeepsHeld(w: World, t: Thread)
    requires Places(w) && HeldAreCached(w) && Enabled(w, t, PublishLocked)
    ensures HeldAreCached(AfterPublish(w, t))
  {
    hide Publish, Places, SameThreadsBut, AfterPublish, HeldAreCached;
    var l := w.threads[t];
    PublishMoves(w, t);
    if Publish(w.cache, l.project, l.created).1.Published? {
      PublishedKeepsHeld(w, AfterPublish(w, t), t, l.created.repo);
    } else {
      HeldKept(w, AfterPublish(w, t), t, None, InCache);
    }
  }

  lemma PublishedKeepsHeld(w: World, w': World, t: Thread, r: Repo)
    requires Places(w) && HeldAreCached(w) && OwnedBy(w, t, r) && !w.threads[t].ClosingAll?
    requires SameThreadsBut(w, w', t) && w'.place == w.place[r := InCache]
    requires w'.held == w.held + multiset{r} && w'.drained == w.drained
    ensures HeldAreCached(w')
  {
    OwnedIsNotHeld(w, t, r);
    var settled := w.(threads := w'.threads, place := w'.place);
    SameThreadsMeans(w, settled, t);
    HeldKept(w, settled, t, Some(r), InCache);
    HitKeepsHeld(settled, w', r);
  }

  lemma PublishOutcome(c: Cache, p: Project, created: Opened)
    ensures var outcome := Publish(c, p, created).1;
            outcome.Published? ==> created.OpenedRepo? && outcome.repo == created.repo
  {
  }

  lemma CloseKeepsHeld(w: World, t: Thread, p: Project)
    requires HeldAreCached(w) && t !in w.threads
    ensures HeldAreCached(AfterClose(w, t, p))
  {
    var w' := AfterClose(w, t, p);
    SameThreadsMeans(w, w', t);
    var outcome := Detach(w.cache, p, w.held).1;
    HeldKept(w, w', t, if outcome.Detached? then Some(outcome.repo) else None, InThread(t));
  }

  lemma ShutKeepsHeld(w: World, w': World, t: Thread, r: Repo)
    requires Places(w) && HeldAreCached(w) && OwnedBy(w, t, r) && !w.threads[t].ClosingAll?
    requires SameThreadsBut(w, w', t) && w'.held == w.held && w'.drained == w.drained && w'.place == w.place[r := IsClosed]
    ensures HeldAreCached(w')
  {
    OwnedIsNotHeld(w, t, r);
    HeldKept(w, w', t, Some(r), IsClosed);
  }

  /** The events of shutdown may take what callers still hold. */
  lemma ShutdownKeepsHeld(w: World, t: Thread, e: Event, maximum: nat, w': World)
    requires Places(w) && HeldAreCached(w) && ShutdownOrder(w) && Step(w, t, e, maximum) == Some(w')
    requires e.Drain? || e.CloseNext? || e.FinishShutdown?
    ensures HeldAreCached(w')
  {
    hide Places, SortedByProject;
    if e.FinishShutdown? {
      NothingCached();
      forall r | r in w.held
        ensures w.place[r] != InThread(t)
      {
        NowhereElse(w, r);
        OwnersAreRight(w, r);
      }
    }
  }

  lemma OwnersAreRight(w: World, r: Repo)
    requires Places(w)
    ensures forall u | r in w.place && w.place[r] == InThread(u) :: OwnedBy(w, u, r)
  {
    assert forall u :: At(w, r, InThread(u)) <==> OwnedBy(w, u, r);
  }

  /** An event that closes what its thread owns. */
  lemma ClosingKeepsHeld(w: World, t: Thread, e: Event, maximum: nat, w': World)
    requires Places(w) && HeldAreCached(w) && Step(w, t, e, maximum) == Some(w')
    requires e.CloseVictim? || e.FinishClose? || e.PublishLockFailed?
    ensures HeldAreCached(w')
  {
    hide Places, HeldAreCached, SameThreadsBut;
    OthersStand(w, t, e, maximum, w');
    match e
    case CloseVictim => ShutKeepsHeld(w, w', t, w.threads[t].victim);
    case FinishClose => ShutKeepsHeld(w, w', t, w.threads[t].repo);
    case PublishLockFailed =>
      if w.threads[t].created.OpenedRepo? {
        ShutKeepsHeld(w, w', t, w.threads[t].created.repo);
      } else {
        HeldKept(w, w', t, None, InCache);
      }
  }

  lemma StepKeepsHeld(w: World, t: Thread, e: Event, maximum: nat, w': World)
    requires Places(w) && HeldAreCached(w) && ShutdownOrder(w) && Step(w, t, e, maximum) == Some(w')
    ensures HeldAreCached(w')
  {
    hide Places, HeldAreCached, ShutdownOrder, AfterOpen, AfterPublish, AfterClose, AfterDrain, AfterCloseNext,
      AfterCloseVictim,
      AfterPublishLockFailed, SameThreadsBut;
    match e
    case Open(p) => OpenKeepsHeld(w, t, p, maximum);
    case PublishLocked => PublishKeepsHeld(w, t);
    case Close(p) => CloseKeepsHeld(w, t, p);
    case CloseVictim => ClosingKeepsHeld(w, t, e, maximum, w');
    case FinishClose => ClosingKeepsHeld(w, t, e, maximum, w');
    case PublishLockFailed => ClosingKeepsHeld(w, t, e, maximum, w');
    case OpenerReturns(result) =>
      OthersStand(w, t, e, maximum, w');
      if result.OpenedRepo? {
        HeldIsPlaced(w, result.repo);
        HeldKept(w, w', t, Some(result.repo), InThread(t));
      } else {
        HeldKept(w, w', t, None, InCache);
      }
    case Release(repo) => FewerHeld(w, w');
    case ClearPending =>
      OthersStand(w, t, e, maximum, w');
      HeldKept(w, w', t, None, InCache);
    case BeginShutdown =>
      OthersStand(w, t, e, maximum, w');
      HeldKept(w, w', t, None, InCache);
    case _ => ShutdownKeepsHeld(w, t, e, maximum, w');
  }

  lemma FewerHeld(w: World, w': World)
    requires HeldAreCached(w) && w'.held <= w.held && w' == w.(held := w'.held)
    ensures HeldAreCached(w')
  {
  }

  lemma HeldIsPlaced(w: World, r: Repo)
    requires HeldAreCached(w) && r !in w.place
    ensures r !in w.held
  {
  }

  lemma OrderKept(w: World, w': World, t: Thread)
    requires ShutdownOrder(w) && SameThreadsBut(w, w', t) && SameFlags(w.cache, w'.cache) && w'.drained == w.drained
    requires w.drained ==> w'.cache.entries == [] && w'.cache.pending == []
    requires ShutsDown(w', t) ==> ShutsDown(w, t) && (w'.threads[t].ClosingAll? <==> w.threads[t].ClosingAll?)
    ensures ShutdownOrder(w')
  {
    assert forall u | u != t :: ShutsDown(w', u) ==> ShutsDown(w, u);
  }

  lemma OpenKeepsOrder(w: World, t: Thread, p: Project, maximum: nat)
    requires ShutdownOrder(w) && t !in w.threads
    ensures ShutdownOrder(AfterOpen(w, t, p, maximum))
  {
    var w' := AfterOpen(w, t, p, maximum);
    ReserveOnFlags(w.cache, p, w.held, maximum);
    hide Reserve;
    SameThreadsMeans(w, w', t);
    hide ShutdownOrder, SameThreadsBut;
    OrderMeans(w);
    OrderKept(w, w', t);
  }

  lemma OrderMeans(w: World)
    requires ShutdownOrder(w)
    ensures w.drained ==> w.cache.shutdownRequested && w.cache.entries == [] && w.cache.pending == []
  {
  }

  lemma PublishKeepsOrder(w: World, t: Thread)
    requires Reservations(w) && ShutdownOrder(w) && Enabled(w, t, PublishLocked)
    ensures ShutdownOrder(AfterPublish(w, t))
  {
    var w' := AfterPublish(w, t);
    HasReservation(w, t);
    OrderMeans(w);
    PublishOnFlags(w.cache, w.threads[t].project, w.threads[t].created);
    SameThreadsMeans(w, w', t);
    hide ShutdownOrder, SameThreadsBut, Publish, Reservations;
    OrderKept(w, w', t);
  }

  lemma CloseKeepsOrder(w: World, t: Thread, p: Project)
    requires ShutdownOrder(w) && t !in w.threads
    ensures ShutdownOrder(AfterClose(w, t, p))
  {
    var w' := AfterClose(w, t, p);
    OrderMeans(w);
    DetachOnFlags(w.cache, p, w.held);
    hide Detach;
    SameThreadsMeans(w, w', t);
    hide ShutdownOrder, SameThreadsBut;
    OrderKept(w, w', t);
  }

  lemma ShutdownKeepsOrder(w: World, t: Thread, e: Event, maximum: nat, w': World)
    requires ShutdownOrder(w) && Step(w, t, e, maximum) == Some(w')
    requires e.BeginShutdown? || e.Drain? || e.FinishShutdown?
    ensures ShutdownOrder(w')
  {
    hide SortedByProject;
    assert t in w'.threads ==> t in w.threads || e.BeginShutdown?;
    assert forall u | u != t :: ShutsDown(w', u) ==> ShutsDown(w, u);
    assert t in w.threads ==> ShutsDown(w, t);
  }

  lemma StepKeepsShutdownOrder(w: World, t: Thread, e: Event, maximum: nat, w': World)
    requires Reservations(w) && ShutdownOrder(w) && Step(w, t, e, maximum) == Some(w')
    ensures ShutdownOrder(w')
  {
    if t in w.threads && Reservation(w.threads[t]).Some? {
      HasReservation(w, t);
    }
    OrderMeans(w);
    hide Reservations, AfterOpen, AfterPublish, AfterClose, AfterBeginShutdown, AfterDrain, AfterFinishShutdown,
      ShutdownOrder,
      Erased, SameThreadsBut;
    match e
    case Open(p) => OpenKeepsOrder(w, t, p, maximum);
    case PublishLocked => PublishKeepsOrder(w, t);
    case Close(p) => CloseKeepsOrder(w, t, p);
    case BeginShutdown => ShutdownKeepsOrder(w, t, e, maximum, w');
    case Drain => ShutdownKeepsOrder(w, t, e, maximum, w');
    case FinishShutdown => ShutdownKeepsOrder(w, t, e, maximum, w');
    case _ =>
      OthersStand(w, t, e, maximum, w');
      OrderKept(w, w', t);
  }

  // ----- Ages -----

  lemma TouchingKeepsAges(w: World, w': World, i: nat)
    requires Ages(w) && DistinctRepos(w.cache.entries) && i < |w.cache.entries|
    requires var u := Used(w, w.cache.entries[i].repo);
             w'.cache == Touched(w.cache, i) && w'.stamp == u.stamp && w'.uses == u.uses && w'.wrappedAt == u.wrappedAt
    ensures Ages(w')
  {
    TouchedSame(w.cache, i);
    var old_, new_ := w.cache.entries, w'.cache.entries;
    forall k | 0 <= k < |new_|
      ensures AgeIsRecorded(new_[k], w'.stamp, w'.uses, w'.wrappedAt)
    {
      assert AgeIsRecorded(old_[k], w.stamp, w.uses, w.wrappedAt);
    }
    forall j, k | 0 <= j < k < |new_|
      ensures w'.stamp[new_[j].repo] != w'.stamp[new_[k].repo]
    {
      assert AgeIsRecorded(old_[j], w.stamp, w.uses, w.wrappedAt) && AgeIsRecorded(old_[k], w.stamp, w.uses, w.wrappedAt);
    }
  }

  lemma AppendingKeepsAges(w: World, w': World, p: Project, r: Repo)
    requires Ages(w) && !Cached(w.cache.entries, r)
    requires var u := Used(w, r);
             w'.cache.entries == Appended(w.cache, p, r).entries && w'.cache.generation == Appended(w.cache, p, r).generation
             && w'.stamp == u.stamp && w'.uses == u.uses && w'.wrappedAt == u.wrappedAt
    ensures Ages(w')
  {
    var old_, new_ := w.cache.entries, w'.cache.entries;
    forall k | 0 <= k < |old_|
      ensures old_[k].repo != r && new_[k].repo == old_[k].repo && AgeIsRecorded(new_[k], w'.stamp, w'.uses, w'.wrappedAt)
      ensures w'.stamp[new_[k].repo] == w.stamp[old_[k].repo] <= w.uses
    {
      assert old_[k] in old_ && AgeIsRecorded(old_[k], w.stamp, w.uses, w.wrappedAt);
    }
  }

  lemma RemovingKeepsAges(w: World, w': World, i: nat)
    requires Ages(w) && i < |w.cache.entries| && w'.cache.entries == Without(w.cache.entries, i)
    requires w'.cache.generation == w.cache.generation
    requires w'.stamp == w.stamp && w'.uses == w.uses && w'.wrappedAt == w.wrappedAt
    ensures Ages(w')
  {
    var rest := Without(w.cache.entries, i);
    assert forall k | 0 <= k < |rest| :: rest[k] == w.cache.entries[if k < i then k else k + 1];
  }

  lemma SameAges(w: World, w': World)
    requires Ages(w) && (w'.cache.entries == w.cache.entries || w'.cache.entries == [])
    requires w'.cache.generation == w.cache.generation
    requires w'.stamp == w.stamp && w'.uses == w.uses && w'.wrappedAt == w.wrappedAt
    ensures Ages(w')
  {
  }

  lemma OpenKeepsAges(w: World, t: Thread, p: Project, maximum: nat)
    requires DistinctRepos(w.cache.entries) && Ages(w) && t !in w.threads
    ensures Ages(AfterOpen(w, t, p, maximum))
  {
    hide Touched, IsVictim, Without, DistinctRepos, Ages;
    var w' := AfterOpen(w, t, p, maximum);
    var i := FindEntry(w.cache.entries, p);
    var v := Victim(w.cache.entries, w.held);
    var outcome := Reserve(w.cache, p, w.held, maximum).1;
    if outcome.Hit? {
      TouchingKeepsAges(w, w', i.value);
    } else if outcome.Reserved? && outcome.victim.Some? {
      VictimInRange(w.cache.entries, w.held);
      RemovingKeepsAges(w, w', v.value);
    } else {
      SameAges(w, w');
    }
  }

  lemma PublishKeepsAges(w: World, t: Thread, maximum: nat)
    requires Bookkeeping(w.cache, maximum) && Reservations(w) && Places(w) && Ages(w) && Enabled(w, t, PublishLocked)
    ensures Ages(AfterPublish(w, t))
  {
    hide Ages, Appended, Places, Bookkeeping, Reservations, Cached, Touched;
    var l := w.threads[t];
    HasReservation(w, t);
    ErasingKeepsBookkeeping(w.cache, l.project, maximum);
    AppendingIgnoresPending(w.cache, l.project, if l.created.OpenedRepo? then l.created.repo else 0);
    if Publish(w.cache, l.project, l.created).1.Published? {
      assert OwnedBy(w, t, l.created.repo);
      OwnedIsThere(w, t, l.created.repo);
      NowhereElse(w, l.created.repo);
      AppendingKeepsAges(w, AfterPublish(w, t), l.project, l.created.repo);
    } else {
      SameAges(w, AfterPublish(w, t));
    }
  }

  lemma AppendingIgnoresPending(c: Cache, p: Project, r: Repo)
    ensures var d := Appended(c.(pending := Erased(c.pending, p)), p, r);
            d.entries == Appended(c, p, r).entries && d.generation == Appended(c, p, r).generation
  {
  }

  lemma CloseKeepsAges(w: World, t: Thread, p: Project)
    requires Ages(w)
    ensures Ages(AfterClose(w, t, p))
  {
    hide Ages;
    var i := FindEntry(w.cache.entries, p);
    if Detach(w.cache, p, w.held).1.Detached? {
      RemovingKeepsAges(w, AfterClose(w, t, p), i.value);
    }
  }

  lemma StepKeepsAges(w: World, t: Thread, e: Event, maximum: nat, w': World)
    requires Bookkeeping(w.cache, maximum) && Reservations(w) && Places(w) && Ages(w) && Step(w, t, e, maximum) == Some(w')
    ensures Ages(w')
  {
    assert DistinctRepos(w.cache.entries);
    hide Bookkeeping, Places, Reservations, Ages, AfterOpen, AfterPublish, AfterClose;
    match e
    case Open(p) => OpenKeepsAges(w, t, p, maximum);
    case PublishLocked => PublishKeepsAges(w, t, maximum);
    case Close(p) => CloseKeepsAges(w, t, p);
    case _ => SameAges(w, w');
  }

  lemma StepKeepsInv(w: World, t: Thread, e: Event, maximum: nat, w': World)
    requires Inv(w, maximum) && Step(w, t, e, maximum) == Some(w')
    ensures Inv(w', maximum)
  {
    hide Bookkeeping, Reservations, Places, HeldAreCached, ShutdownOrder, Ages, Step;
    StepKeepsBookkeeping(w, t, e, maximum, w');
    StepKeepsReservations(w, t, e, maximum, w');
    StepKeepsPlaces(w, t, e, maximum, w');
    StepKeepsHeld(w, t, e, maximum, w');
    StepKeepsShutdownOrder(w, t, e, maximum, w');
    StepKeepsAges(w, t, e, maximum, w');
  }
}
