// The bounded repository cache as a transition system: lock sections of any number of threads,
// repositories handed out and released, and the shutdown that drains them.

module RepositoryCacheModel {
  import opened Options

  type Project = nat    // ordered as project identities are
  type Repo = nat       // one number for each repository object ever opened
  type Thread = nat

  const MAX_GENERATION: nat := 0xFFFF_FFFF_FFFF_FFFF

  datatype Entry = Entry(project: Project, repo: Repo, lastUse: nat)

  datatype Cache = Cache(entries: seq<Entry>, pending: seq<Project>, generation: nat, shutdownRequested: bool,
                         shutdownInProgress: bool, shutdownCompleted: bool)

  // ----- The cache's own bookkeeping -----

  function FindEntry(entries: seq<Entry>, p: Project): (r: Option<nat>)
    ensures r.Some? ==> r.value < |entries| && entries[r.value].project == p
    ensures r.None? ==> forall e | e in entries :: e.project != p
  {
    if entries == [] then None
    else if entries[0].project == p then Some(0)
    else match FindEntry(entries[1..], p) case None => None case Some(i) => Some(i + 1)
  }

  function Zeroed(entries: seq<Entry>): (r: seq<Entry>)
    ensures |r| == |entries|
    ensures forall i | 0 <= i < |r| :: r[i] == entries[i].(lastUse := 0)
  {
    if entries == [] then [] else [entries[0].(lastUse := 0)] + Zeroed(entries[1..])
  }

  /** nextGeneration: count up, and start over from one, with every entry forgotten, at the top. */
  function Aged(c: Cache): Cache {
    if c.generation != MAX_GENERATION then c.(generation := c.generation + 1)
    else c.(entries := Zeroed(c.entries), generation := 1)
  }

  function Touched(c: Cache, i: nat): Cache
    requires i < |c.entries|
  {
    var a := Aged(c);
    a.(entries := a.entries[i := a.entries[i].(lastUse := a.generation)])
  }

  function Appended(c: Cache, p: Project, repo: Repo): Cache {
    var a := Aged(c);
    a.(entries := a.entries + [Entry(p, repo, a.generation)])
  }

  predicate Precedes(a: Entry, b: Entry) {
    a.lastUse < b.lastUse || (a.lastUse == b.lastUse && a.project < b.project)
  }

  /** The first entry in (last use, project) order among those no caller holds. */
  predicate IsVictim(entries: seq<Entry>, held: multiset<Repo>, i: nat) {
    && i < |entries| && entries[i].repo !in held
    && forall j | 0 <= j < |entries| && entries[j].repo !in held :: !Precedes(entries[j], entries[i])
  }

  function Victim(entries: seq<Entry>, held: multiset<Repo>): (r: Option<nat>)
    ensures r.Some? ==> IsVictim(entries, held, r.value)
    ensures r.None? ==> forall e | e in entries :: e.repo in held
  {
    if entries == [] then None
    else
      var last := |entries| - 1;
      var r := Victim(entries[..last], held);
      if entries[last].repo in held then r
      else if r.None? || Precedes(entries[last], entries[r.value]) then Some(last)
      else r
  }

  function Without(entries: seq<Entry>, i: nat): seq<Entry>
    requires i < |entries|
  {
    entries[..i] + entries[i + 1..]
  }

  function Erased(pending: seq<Project>, p: Project): (r: seq<Project>)
    ensures |r| <= |pending| && p !in r
    ensures forall q | q != p :: q in r <==> q in pending
    ensures p in pending ==> |r| < |pending|
  {
    if pending == [] then []
    else if pending[0] == p then Erased(pending[1..], p)
    else [pending[0]] + Erased(pending[1..], p)
  }

  predicate Distinct<T(==)>(s: seq<T>) {
    forall i, j | 0 <= i < j < |s| :: s[i] != s[j]
  }

  // ----- Lock sections -----

  datatype ReserveOutcome = Hit(repo: Repo) | Busy | ShuttingDown | Reserved(victim: Option<Repo>)

  /** First section of open: hit, refusal, or a reservation that may have evicted a victim. */
  function Reserve(c: Cache, p: Project, held: multiset<Repo>, maximum: nat): (Cache, ReserveOutcome) {
    if c.shutdownRequested then (c, ShuttingDown)
    else
      match FindEntry(c.entries, p)
      case Some(i) => (Touched(c, i), Hit(c.entries[i].repo))
      case None =>
        if p in c.pending then (c, Busy)
        else if |c.entries| + |c.pending| < maximum then (c.(pending := c.pending + [p]), Reserved(None))
        else
          match Victim(c.entries, held)
          case None => (c, Busy)
          case Some(i) =>
            (c.(entries := Without(c.entries, i), pending := c.pending + [p]), Reserved(Some(c.entries[i].repo)))
  }

  /** What the opener answers. A repository may belong to another project than the one asked for. */
  datatype Opened = OpenFailed | OpenedNull | OpenedRepo(repo: Repo, project: Project)

  datatype PublishOutcome = Published(repo: Repo) | OpenError | ToClose(repo: Repo) | Redundant(repo: Repo) | NullDereference

  /** Second section of open, after the opener returned. */
  function Publish(c: Cache, p: Project, created: Opened): (Cache, PublishOutcome) {
    var d := c.(pending := Erased(c.pending, p));
    match created
    case OpenFailed => (d, OpenError)
    case OpenedNull =>
      if d.shutdownRequested then (d, NullDereference)
      else
        (match FindEntry(d.entries, p)
         case Some(i) => (Touched(d, i), NullDereference)
         case None => (d, OpenError))
    case OpenedRepo(repo, project) =>
      if d.shutdownRequested then (d, ToClose(repo))
      else
        match FindEntry(d.entries, p)
        case Some(i) => (Touched(d, i), Redundant(repo))
        case None => if project != p then (d, ToClose(repo)) else (Appended(d, p, repo), Published(repo))
  }

  datatype CloseOutcome = NothingToClose | CloseBusy | Detached(repo: Repo)

  /** First section of close. */
  function Detach(c: Cache, p: Project, held: multiset<Repo>): (Cache, CloseOutcome) {
    if p in c.pending then (c, CloseBusy)
    else
      match FindEntry(c.entries, p)
      case None => (c, NothingToClose)
      case Some(i) =>
        if c.entries[i].repo in held then (c, CloseBusy)
        else (c.(entries := Without(c.entries, i)), Detached(c.entries[i].repo))
  }

  // ----- Threads -----

  /** What a thread inside open, close or shutdown owns between two lock sections. */
  datatype Local =
    | Evicting(project: Project, victim: Repo)     // reserved; the victim is still to be closed
    | Opening(project: Project)                    // reserved; the opener is running
    | Publishing(project: Project, created: Opened)
    | Clearing(project: Project)                   // publication failed; the reservation is still to be dropped
    | Closing(repo: Repo)                          // detached from the cache; still to be closed
    | Draining                                     // shutdown, waiting for the reservations to go
    | ClosingAll(rest: seq<Entry>)                 // shutdown, closing the moved entries in order

  function Reservation(l: Local): Option<Project> {
    match l
    case Evicting(p, _) => Some(p)
    case Opening(p) => Some(p)
    case Publishing(p, _) => Some(p)
    case Clearing(p) => Some(p)
    case _ => None
  }

  predicate Cached(entries: seq<Entry>, r: Repo) {
    exists e | e in entries :: e.repo == r
  }

  predicate Owns(l: Local, r: Repo) {
    match l
    case Evicting(_, v) => v == r
    case Publishing(_, created) => created.OpenedRepo? && created.repo == r
    case Closing(v) => v == r
    case ClosingAll(rest) => Cached(rest, r)
    case _ => false
  }

  /** Where a repository object is. Being a map, a world's `place` puts each in exactly one place. */
  datatype Place = InCache | InThread(thread: Thread) | IsClosed

  /** `held` counts the references callers hold; `uses`, `stamp` and `wrappedAt` record when each
      repository was really last used, and how many uses there were before the last wrap. */
  datatype World = World(
    cache: Cache, threads: map<Thread, Local>, held: multiset<Repo>, place: map<Repo, Place>, closed: seq<Repo>,
    drained: bool, crashed: bool, stamp: map<Repo, nat>, uses: nat, wrappedAt: nat)

  datatype Event =
    | Open(p: Project)
    | CloseVictim
    | OpenerReturns(result: Opened)
    | PublishLocked
    | PublishLockFailed
    | ClearPending
    | Close(p: Project)
    | FinishClose
    | Release(repo: Repo)
    | BeginShutdown
    | Drain
    | CloseNext
    | FinishShutdown

  /** Recording a use of `repo`. */
  function Used(w: World, repo: Repo): World {
    w.(stamp := w.stamp[repo := w.uses + 1], uses := w.uses + 1,
       wrappedAt := if w.cache.generation == MAX_GENERATION then w.uses else w.wrappedAt)
  }

  function SortedByProject(es: seq<Entry>): (r: seq<Entry>)
    ensures multiset(r) == multiset(es) && |r| == |es|
  {
    if es == [] then []
    else
      assert es == es[..|es| - 1] + [es[|es| - 1]];
      InsertByProject(es[|es| - 1], SortedByProject(es[..|es| - 1]))
  }

  function InsertByProject(e: Entry, es: seq<Entry>): (r: seq<Entry>)
    ensures multiset(r) == multiset(es) + multiset{e} && |r| == |es| + 1
  {
    if es == [] then [e]
    else if e.project < es[0].project then [e] + es
    else
      assert es == [es[0]] + es[1..];
      [es[0]] + InsertByProject(e, es[1..])
  }

  predicate Enabled(w: World, t: Thread, e: Event) {
    match e
    case Open(_) => t !in w.threads
    case CloseVictim => t in w.threads && w.threads[t].Evicting?
    case OpenerReturns(result) =>
      t in w.threads && w.threads[t].Opening? && (result.OpenedRepo? ==> result.repo !in w.place)
    case PublishLocked => t in w.threads && w.threads[t].Publishing?
    case PublishLockFailed => t in w.threads && w.threads[t].Publishing?
    case ClearPending => t in w.threads && w.threads[t].Clearing?
    case Close(_) => t !in w.threads
    case FinishClose => t in w.threads && w.threads[t].Closing?
    case Release(repo) => repo in w.held
    case BeginShutdown => t !in w.threads
    case Drain => t in w.threads && w.threads[t].Draining? && w.cache.pending == []
    case CloseNext => t in w.threads && w.threads[t].ClosingAll? && w.threads[t].rest != []
    case FinishShutdown => t in w.threads && w.threads[t] == ClosingAll([])
  }

  /** `repo` goes from `t` to closed. */
  function Shut(w: World, repo: Repo): World {
    w.(closed := w.closed + [repo], place := w.place[repo := IsClosed])
  }

  function AfterOpen(w: World, t: Thread, p: Project, maximum: nat): World {
    var (c, outcome) := Reserve(w.cache, p, w.held, maximum);
    match outcome
    case Hit(repo) => Used(w, repo).(cache := c, held := w.held + multiset{repo})
    case Reserved(Some(v)) => w.(cache := c, threads := w.threads[t := Evicting(p, v)], place := w.place[v := InThread(t)])
    case Reserved(None) => w.(cache := c, threads := w.threads[t := Opening(p)])
    case _ => w
  }

  function AfterCloseVictim(w: World, t: Thread): World
    requires Enabled(w, t, CloseVictim)
  {
    Shut(w, w.threads[t].victim).(threads := w.threads[t := Opening(w.threads[t].project)])
  }

  function AfterOpenerReturns(w: World, t: Thread, result: Opened): World
    requires Enabled(w, t, OpenerReturns(result))
  {
    w.(threads := w.threads[t := Publishing(w.threads[t].project, result)],
       place := if result.OpenedRepo? then w.place[result.repo := InThread(t)] else w.place)
  }

  function AfterPublish(w: World, t: Thread): World
    requires Enabled(w, t, PublishLocked)
  {
    var (c, outcome) := Publish(w.cache, w.threads[t].project, w.threads[t].created);
    match outcome
    case Published(repo) =>
      Used(w, repo).(cache := c, threads := w.threads - {t}, held := w.held + multiset{repo}, place := w.place[repo := InCache])
    case ToClose(repo) => w.(cache := c, threads := w.threads[t := Closing(repo)])
    case Redundant(repo) => w.(cache := c, threads := w.threads[t := Closing(repo)])
    case OpenError => w.(cache := c, threads := w.threads - {t})
    case NullDereference => w.(cache := c, threads := w.threads - {t}, crashed := true)
  }

  function AfterPublishLockFailed(w: World, t: Thread): World
    requires Enabled(w, t, PublishLockFailed)
  {
    var l := w.threads[t];
    var d := if l.created.OpenedRepo? then Shut(w, l.created.repo) else w;
    d.(threads := w.threads[t := Clearing(l.project)], crashed := w.crashed || l.created.OpenedNull?)
  }

  function AfterClearPending(w: World, t: Thread): World
    requires Enabled(w, t, ClearPending)
  {
    w.(cache := w.cache.(pending := Erased(w.cache.pending, w.threads[t].project)), threads := w.threads - {t})
  }

  function AfterClose(w: World, t: Thread, p: Project): World {
    var (c, outcome) := Detach(w.cache, p, w.held);
    match outcome
    case Detached(repo) => w.(cache := c, threads := w.threads[t := Closing(repo)], place := w.place[repo := InThread(t)])
    case _ => w
  }

  function AfterBeginShutdown(w: World, t: Thread): World {
    if w.cache.shutdownCompleted || w.cache.shutdownInProgress then w
    else w.(cache := w.cache.(shutdownInProgress := true, shutdownRequested := true), threads := w.threads[t := Draining])
  }

  function AfterDrain(w: World, t: Thread): World {
    w.(cache := w.cache.(entries := []), drained := true,
       threads := w.threads[t := ClosingAll(SortedByProject(w.cache.entries))],
       place := map r | r in w.place :: if w.place[r] == InCache then InThread(t) else w.place[r])
  }

  function AfterCloseNext(w: World, t: Thread): World
    requires Enabled(w, t, CloseNext)
  {
    Shut(w, w.threads[t].rest[0].repo).(threads := w.threads[t := ClosingAll(w.threads[t].rest[1..])])
  }

  function AfterFinishShutdown(w: World, t: Thread): World {
    w.(cache := w.cache.(shutdownCompleted := true, shutdownInProgress := false), threads := w.threads - {t})
  }

  /** One atomic action of thread `t`; `None` when it is not enabled. */
  function Step(w: World, t: Thread, e: Event, maximum: nat): Option<World> {
    if !Enabled(w, t, e) then None
    else
      Some(match e
           case Open(p) => AfterOpen(w, t, p, maximum)
           case CloseVictim => AfterCloseVictim(w, t)
           case OpenerReturns(result) => AfterOpenerReturns(w, t, result)
           case PublishLocked => AfterPublish(w, t)
           case PublishLockFailed => AfterPublishLockFailed(w, t)
           case ClearPending => AfterClearPending(w, t)
           case Close(p) => AfterClose(w, t, p)
           case FinishClose => Shut(w, w.threads[t].repo).(threads := w.threads - {t})
           case Release(repo) => w.(held := w.held - multiset{repo})
           case BeginShutdown => AfterBeginShutdown(w, t)
           case Drain => AfterDrain(w, t)
           case CloseNext => AfterCloseNext(w, t)
           case FinishShutdown => AfterFinishShutdown(w, t))
  }
}
