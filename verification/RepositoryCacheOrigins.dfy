// Whose repository an open hands out: in every run, one that an opener returned for exactly that project.

module RepositoryCacheOrigins {
  import opened Options
  import opened RepositoryCacheModel
  import opened RepositoryCacheInvariant
  import opened RepositoryCacheProperties

  // ----- What an opener was asked, and what it answered -----

  /** The k-th action of the run was an opener that had been asked for `asked` and answered with `repo`, a
      repository of `own`. */
  predicate Answers(worlds: seq<World>, actions: seq<Action>, k: nat, repo: Repo, asked: Project, own: Project) {
    && k < |actions| < |worlds| && actions[k].event == OpenerReturns(OpenedRepo(repo, own))
    && actions[k].thread in worlds[k].threads && worlds[k].threads[actions[k].thread] == Opening(asked)
  }

  /** Within the first `n` actions an opener that had been asked for `asked` answered with `repo`, of `own`. */
  ghost predicate IsOpenedFor(worlds: seq<World>, actions: seq<Action>, n: nat, repo: Repo, asked: Project, own: Project) {
    exists k :: 0 <= k < n && Answers(worlds, actions, k, repo, asked, own)
  }

  /** Every cached repository was opened for its entry's project and is of it; what a thread is about to
      publish was opened for the thread's project. */
  ghost predicate Origins(worlds: seq<World>, actions: seq<Action>, n: nat)
    requires n < |worlds|
  {
    var w := worlds[n];
    && (forall i | 0 <= i < |w.cache.entries| ::
          IsOpenedFor(worlds, actions, n, w.cache.entries[i].repo, w.cache.entries[i].project, w.cache.entries[i].project))
    && (forall t | t in w.threads && w.threads[t].Publishing? && w.threads[t].created.OpenedRepo? ::
          IsOpenedFor(worlds, actions, n, w.threads[t].created.repo, w.threads[t].project, w.threads[t].created.project))
  }

  // ----- What each action leaves in the cache and with the threads -----

  predicate Has(entries: seq<Entry>, p: Project, repo: Repo) {
    exists j | 0 <= j < |entries| :: entries[j].project == p && entries[j].repo == repo
  }

  /** Each entry of `a` has the project and repository of one of `b`. */
  predicate EntriesFrom(a: seq<Entry>, b: seq<Entry>) {
    forall k | 0 <= k < |a| :: Has(b, a[k].project, a[k].repo)
  }

  lemma SameOwnersAreFrom(a: seq<Entry>, b: seq<Entry>)
    requires SameOwners(b, a)
    ensures EntriesFrom(a, b)
  {
    forall k | 0 <= k < |a|
      ensures Has(b, a[k].project, a[k].repo)
    {
      assert a[k].project == b[k].project;
    }
  }

  lemma WithoutIsFrom(entries: seq<Entry>, i: nat)
    requires i < |entries|
    ensures EntriesFrom(Without(entries, i), entries)
  {
    var rest := Without(entries, i);
    forall k | 0 <= k < |rest|
      ensures Has(entries, rest[k].project, rest[k].repo)
    {
      assert rest[k] == entries[if k < i then k else k + 1];
    }
  }

  lemma Unchanged(entries: seq<Entry>)
    ensures SameOwners(entries, entries)
  {
  }

  lemma ReserveIsFrom(c: Cache, p: Project, held: multiset<Repo>, maximum: nat)
    ensures EntriesFrom(Reserve(c, p, held, maximum).0.entries, c.entries)
  {
    hide Touched, IsVictim, Without, EntriesFrom, SameOwners;
    Unchanged(c.entries);
    SameOwnersAreFrom(c.entries, c.entries);
    var i := FindEntry(c.entries, p);
    if i.Some? {
      TouchedSame(c, i.value);
      SameOwnersAreFrom(Touched(c, i.value).entries, c.entries);
    } else {
      VictimInRange(c.entries, held);
      if Victim(c.entries, held).Some? {
        WithoutIsFrom(c.entries, Victim(c.entries, held).value);
      }
    }
  }

  lemma DetachIsFrom(c: Cache, p: Project, held: multiset<Repo>)
    ensures EntriesFrom(Detach(c, p, held).0.entries, c.entries)
  {
    hide Without, EntriesFrom, SameOwners;
    Unchanged(c.entries);
    SameOwnersAreFrom(c.entries, c.entries);
    if FindEntry(c.entries, p).Some? {
      WithoutIsFrom(c.entries, FindEntry(c.entries, p).value);
    }
  }

  /** Publication adds only a repository of the project it was opened for. */
  lemma PublishIsFrom(c: Cache, p: Project, created: Opened)
    ensures var entries := Publish(c, p, created).0.entries;
            forall k | 0 <= k < |entries| ::
              Has(c.entries, entries[k].project, entries[k].repo)
              || (entries[k].project == p && created == OpenedRepo(entries[k].repo, p))
  {
    hide Touched, SameOwners, Has, Aged;
    var d := c.(pending := Erased(c.pending, p));
    var entries := Publish(c, p, created).0.entries;
    Unchanged(c.entries);
    SameOwnersAreFrom(c.entries, c.entries);
    AgedSame(d);
    SameOwnersAreFrom(Aged(d).entries, c.entries);
    if FindEntry(c.entries, p).Some? {
      TouchedSame(d, FindEntry(c.entries, p).value);
      SameOwnersAreFrom(Touched(d, FindEntry(c.entries, p).value).entries, c.entries);
    }
  }

  /** What a thread publishes after an action it already published before, or the action was its opener's answer. */
  lemma PublishingFrom(w: World, t: Thread, e: Event, maximum: nat, w': World, u: Thread)
    requires Step(w, t, e, maximum) == Some(w') && u in w'.threads && w'.threads[u].Publishing?
    ensures (u in w.threads && w.threads[u] == w'.threads[u])
            || (u == t && e.OpenerReturns? && t in w.threads && w.threads[t].Opening?
                && w'.threads[u] == Publishing(w.threads[t].project, e.result))
  {
    hide AfterOpen, AfterPublish, Detach, Erased, SortedByProject;
    match e
    case Open(p) => OpenPublishesNothing(w, t, p, maximum);
    case PublishLocked => PublishEnds(w, t);
    case _ =>
  }

  lemma OpenPublishesNothing(w: World, t: Thread, p: Project, maximum: nat)
    ensures var w' := AfterOpen(w, t, p, maximum);
            forall u | u in w'.threads && w'.threads[u].Publishing? :: u in w.threads && w.threads[u] == w'.threads[u]
    ensures AfterOpen(w, t, p, maximum).cache == Reserve(w.cache, p, w.held, maximum).0
  {
    ReserveLeaves(w.cache, p, w.held, maximum);
    hide Reserve;
  }

  lemma ReserveLeaves(c: Cache, p: Project, held: multiset<Repo>, maximum: nat)
    ensures var (d, outcome) := Reserve(c, p, held, maximum);
            outcome.Busy? || outcome.ShuttingDown? ==> d == c
  {
    hide Touched, FindEntry, Victim, Without;
  }

  lemma PublishEnds(w: World, t: Thread)
    requires Enabled(w, t, PublishLocked)
    ensures var w' := AfterPublish(w, t);
            forall u | u in w'.threads && w'.threads[u].Publishing? :: u in w.threads && w.threads[u] == w'.threads[u]
    ensures AfterPublish(w, t).cache == Publish(w.cache, w.threads[t].project, w.threads[t].created).0
  {
    hide Publish;
  }

  /** What the cache holds after an action it held before, or the action published it. */
  lemma CachedFrom(w: World, t: Thread, e: Event, maximum: nat, w': World, i: nat)
    requires Step(w, t, e, maximum) == Some(w') && i < |w'.cache.entries|
    ensures var entry := w'.cache.entries[i];
            || Has(w.cache.entries, entry.project, entry.repo)
            || (t in w.threads && w.threads[t] == Publishing(entry.project, OpenedRepo(entry.repo, entry.project)))
  {
    hide AfterOpen, AfterPublish, Reserve, Publish, Detach, Erased, SortedByProject, Has, SameOwners;
    Unchanged(w.cache.entries);
    SameOwnersAreFrom(w.cache.entries, w.cache.entries);
    match e
    case Open(p) =>
      OpenPublishesNothing(w, t, p, maximum);
      ReserveIsFrom(w.cache, p, w.held, maximum);
    case Close(p) => DetachIsFrom(w.cache, p, w.held);
    case PublishLocked =>
      PublishEnds(w, t);
      PublishIsFrom(w.cache, w.threads[t].project, w.threads[t].created);
    case _ =>
  }

  // ----- Every run -----

  lemma OpenedForLater(worlds: seq<World>, actions: seq<Action>, n: nat, m: nat)
    requires n <= m
    ensures forall r, p, q :: IsOpenedFor(worlds, actions, n, r, p, q) ==> IsOpenedFor(worlds, actions, m, r, p, q)
  {
  }

  lemma {:induction false} RunKeepsOrigins(worlds: seq<World>, actions: seq<Action>, maximum: nat, n: nat)
    requires IsRun(worlds, actions, maximum) && n <= |actions|
    ensures Origins(worlds, actions, n)
  {
    hide Step, Answers, Has;
    if n > 0 {
      var w, a, w' := worlds[n - 1], actions[n - 1], worlds[n];
      RunKeepsOrigins(worlds, actions, maximum, n - 1);
      OpenedForLater(worlds, actions, n - 1, n);
      forall i | 0 <= i < |w'.cache.entries|
        ensures IsOpenedFor(worlds, actions, n, w'.cache.entries[i].repo, w'.cache.entries[i].project,
                            w'.cache.entries[i].project)
      {
        CachedFrom(w, a.thread, a.event, maximum, w', i);
        EntryIsOpened(worlds, actions, n - 1, w'.cache.entries[i]);
      }
      forall t | t in w'.threads && w'.threads[t].Publishing? && w'.threads[t].created.OpenedRepo?
        ensures IsOpenedFor(worlds, actions, n, w'.threads[t].created.repo, w'.threads[t].project,
                            w'.threads[t].created.project)
      {
        PublishingFrom(w, a.thread, a.event, maximum, w', t);
        if !(t in w.threads && w.threads[t] == w'.threads[t]) {
          AnswerIs(worlds, actions, n - 1, w'.threads[t].created.repo, w.threads[a.thread].project,
                   w'.threads[t].created.project);
        }
      }
    }
  }

  lemma EntryIsOpened(worlds: seq<World>, actions: seq<Action>, n: nat, e: Entry)
    requires n < |worlds| && Origins(worlds, actions, n)
    ensures Has(worlds[n].cache.entries, e.project, e.repo) ==>
              IsOpenedFor(worlds, actions, n, e.repo, e.project, e.project)
  {
    hide IsOpenedFor;
  }

  lemma AnswerIs(worlds: seq<World>, actions: seq<Action>, n: nat, repo: Repo, asked: Project, own: Project)
    requires Answers(worlds, actions, n, repo, asked, own)
    ensures IsOpenedFor(worlds, actions, n + 1, repo, asked, own)
  {
  }

  lemma RunUpTo(worlds: seq<World>, actions: seq<Action>, maximum: nat, n: nat)
    requires IsRun(worlds, actions, maximum) && n <= |actions|
    ensures IsRun(worlds[..n + 1], actions[..n], maximum) && worlds[..n + 1][n] == worlds[n]
  {
    hide Step;
  }

  /** No opener answers with a repository that was answered before. */
  lemma OpenedOnce(worlds: seq<World>, actions: seq<Action>, maximum: nat, j: nat, k: nat, repo: Repo,
                   asked: Project, own: Project, asked': Project, own': Project)
    requires IsRun(worlds, actions, maximum)
    requires Answers(worlds, actions, j, repo, asked, own) && Answers(worlds, actions, k, repo, asked', own')
    ensures j == k && asked == asked' && own == own'
  {
    hide IsRun, Answers;
    if j < k {
      NotAgain(worlds, actions, maximum, j, k, repo, asked, own, asked', own');
    } else if k < j {
      NotAgain(worlds, actions, maximum, k, j, repo, asked', own', asked, own);
    } else {
      SameAnswer(worlds, actions, k, repo, asked, own, asked', own');
    }
  }

  lemma SameAnswer(worlds: seq<World>, actions: seq<Action>, k: nat, repo: Repo,
                   asked: Project, own: Project, asked': Project, own': Project)
    requires Answers(worlds, actions, k, repo, asked, own) && Answers(worlds, actions, k, repo, asked', own')
    ensures asked == asked' && own == own'
  {
  }

  lemma NotAgain(worlds: seq<World>, actions: seq<Action>, maximum: nat, j: nat, k: nat, repo: Repo,
                 asked: Project, own: Project, asked': Project, own': Project)
    requires IsRun(worlds, actions, maximum) && j < k && Answers(worlds, actions, j, repo, asked, own)
    ensures !Answers(worlds, actions, k, repo, asked', own')
  {
    if k < |actions| {
      assert Step(worlds[k], actions[k].thread, actions[k].event, maximum) == Some(worlds[k + 1]);
      RunUpTo(worlds, actions, maximum, k);
      hide Step, IsRun;
      EveryIssueIsPlaced(worlds[..k + 1], actions[..k], maximum);
      assert actions[..k][j] == actions[j];
      assert actions[j] in actions[..k];
      assert repo in worlds[k].place.Keys;
      AnswersAreNew(worlds[k], actions[k].thread, actions[k].event, maximum);
    }
  }

  lemma AnswersAreNew(w: World, t: Thread, e: Event, maximum: nat)
    requires Step(w, t, e, maximum).Some?
    ensures e.OpenerReturns? && e.result.OpenedRepo? ==> e.result.repo !in w.place
  {
    hide Reserve, Publish, Detach, Erased, SortedByProject;
  }

  /** In every run, each cached repository was opened for exactly its entry's project, and for no other. */
  lemma CachedForItsProject(worlds: seq<World>, actions: seq<Action>, maximum: nat, e: Entry)
    requires IsRun(worlds, actions, maximum) && e in worlds[|actions|].cache.entries
    ensures IsOpenedFor(worlds, actions, |actions|, e.repo, e.project, e.project)
    ensures forall asked, own ::
              IsOpenedFor(worlds, actions, |actions|, e.repo, asked, own) ==> asked == own == e.project
  {
    hide Answers;
    RunKeepsOrigins(worlds, actions, maximum, |actions|);
    forall asked, own | IsOpenedFor(worlds, actions, |actions|, e.repo, asked, own)
      ensures asked == own == e.project
    {
      var j :| 0 <= j < |actions| && Answers(worlds, actions, j, e.repo, asked, own);
      var k :| 0 <= k < |actions| && Answers(worlds, actions, k, e.repo, e.project, e.project);
      OpenedOnce(worlds, actions, maximum, j, k, e.repo, asked, own, e.project, e.project);
    }
  }

  // ----- What an open hands out -----

  /** The repository is this project's entry, and the last one used. */
  predicate Renewed(c: Cache, p: Project, repo: Repo) {
    Entry(p, repo, c.generation) in c.entries
  }

  lemma HitRenews(c: Cache, p: Project, held: multiset<Repo>, maximum: nat)
    ensures var (d, outcome) := Reserve(c, p, held, maximum);
            && (outcome.Hit? ==> Has(c.entries, p, outcome.repo) && Renewed(d, p, outcome.repo))
            && (outcome.Hit? <==> !c.shutdownRequested && exists e | e in c.entries :: e.project == p)
  {
    hide Victim, Without;
    var i := FindEntry(c.entries, p);
    if i.Some? {
      assert c.entries[i.value] in c.entries;
      var d := Touched(c, i.value);
      assert d.entries[i.value] == Entry(p, c.entries[i.value].repo, d.generation);
    }
  }

  lemma PublishedIsRenewed(c: Cache, p: Project, created: Opened)
    ensures var (d, outcome) := Publish(c, p, created);
            outcome.Published? ==> Renewed(d, p, outcome.repo)
  {
    hide Touched, FindEntry;
    if created.OpenedRepo? {
      var d := Appended(c.(pending := Erased(c.pending, p)), p, created.repo);
      assert d.entries[|d.entries| - 1] == Entry(p, created.repo, d.generation);
    }
  }

  /** For whom an action opens. */
  function OpensFor(w: World, t: Thread, e: Event): Option<Project> {
    if e.Open? then Some(e.p)
    else if e.PublishLocked? && t in w.threads && w.threads[t].Publishing? then Some(w.threads[t].project)
    else None
  }

  /** An action hands out nothing, or the one repository whose use it records, as the entry of the project it
      opens for. */
  lemma HandsOut(w: World, t: Thread, e: Event, maximum: nat, w': World)
    requires Step(w, t, e, maximum) == Some(w')
    ensures w'.held <= w.held
            || exists repo ::
                 && w'.held == w.held + multiset{repo} && w'.stamp == w.stamp[repo := w'.uses] && w'.uses == w.uses + 1
                 && OpensFor(w, t, e).Some? && Renewed(w'.cache, OpensFor(w, t, e).value, repo)
  {
    hide AfterOpen, AfterPublish, Detach, Erased, SortedByProject, Renewed;
    match e
    case Open(p) => OpenHandsOut(w, t, p, maximum);
    case PublishLocked => PublishHandsOut(w, t);
    case _ =>
  }

  lemma OpenHandsOut(w: World, t: Thread, p: Project, maximum: nat)
    ensures var w' := AfterOpen(w, t, p, maximum);
            w'.held == w.held
            || exists repo ::
                 && w'.held == w.held + multiset{repo} && w'.stamp == w.stamp[repo := w'.uses] && w'.uses == w.uses + 1
                 && Renewed(w'.cache, p, repo)
  {
    hide Reserve, Renewed;
    HitRenews(w.cache, p, w.held, maximum);
  }

  lemma PublishHandsOut(w: World, t: Thread)
    requires Enabled(w, t, PublishLocked)
    ensures var w' := AfterPublish(w, t);
            w'.held == w.held
            || exists repo ::
                 && w'.held == w.held + multiset{repo} && w'.stamp == w.stamp[repo := w'.uses] && w'.uses == w.uses + 1
                 && Renewed(w'.cache, w.threads[t].project, repo)
  {
    hide Publish, Renewed;
    PublishedIsRenewed(w.cache, w.threads[t].project, w.threads[t].created);
  }

  /** In every run, an open of a project hands out a repository that an opener returned for exactly this project
      and for no other, and what it renews is this project's entry; nothing else hands out a repository. */
  lemma OpensGiveTheirProject(worlds: seq<World>, actions: seq<Action>, maximum: nat, t: Thread, e: Event, w': World,
                              repo: Repo)
    requires IsRun(worlds, actions, maximum) && Step(worlds[|actions|], t, e, maximum) == Some(w')
    requires w'.held[repo] > worlds[|actions|].held[repo]
    ensures var w := worlds[|actions|];
            && OpensFor(w, t, e).Some?
            && var p := OpensFor(w, t, e).value;
               && IsOpenedFor(worlds, actions, |actions|, repo, p, p)
               && (forall asked, own :: IsOpenedFor(worlds, actions, |actions|, repo, asked, own) ==> asked == own == p)
               && w'.held == w.held + multiset{repo}
               && Renewed(w'.cache, p, repo) && w'.stamp == w.stamp[repo := w'.uses]
  {
    hide Answers, Step;
    var w := worlds[|actions|];
    HandsOut(w, t, e, maximum, w');
    var p := OpensFor(w, t, e).value;
    var longer, more := worlds + [w'], actions + [Action(t, e)];
    RunExtends(worlds, actions, maximum, t, e, w');
    CachedForItsProject(longer, more, maximum, Entry(p, repo, w'.cache.generation));
    SameAnswers(worlds, actions, longer, more, repo);
  }

  lemma RunExtends(worlds: seq<World>, actions: seq<Action>, maximum: nat, t: Thread, e: Event, w': World)
    requires IsRun(worlds, actions, maximum) && Step(worlds[|actions|], t, e, maximum) == Some(w')
    ensures IsRun(worlds + [w'], actions + [Action(t, e)], maximum)
  {
    hide Step;
  }

  /** An open that hands something out is no opener's answer. */
  lemma SameAnswers(worlds: seq<World>, actions: seq<Action>, longer: seq<World>, more: seq<Action>, repo: Repo)
    requires |worlds| == |actions| + 1 && |more| == |actions| + 1 && |longer| == |worlds| + 1
    requires worlds <= longer && actions <= more && !more[|actions|].event.OpenerReturns?
    ensures forall asked, own ::
              IsOpenedFor(longer, more, |more|, repo, asked, own) <==> IsOpenedFor(worlds, actions, |actions|, repo, asked, own)
  {
    forall k: nat, asked, own
      ensures Answers(longer, more, k, repo, asked, own) <==> Answers(worlds, actions, k, repo, asked, own)
    {
      if k < |actions| {
        assert more[k] == actions[k] && longer[k] == worlds[k];
      }
    }
  }

  /** Where the project has an entry and no shutdown was requested, an open hands its repository out. */
  lemma OpenFindsItsProject(worlds: seq<World>, actions: seq<Action>, maximum: nat, t: Thread, p: Project, w': World, i: nat)
    requires IsRun(worlds, actions, maximum) && Step(worlds[|actions|], t, Open(p), maximum) == Some(w')
    requires var w := worlds[|actions|];
             !w.cache.shutdownRequested && i < |w.cache.entries| && w.cache.entries[i].project == p
    ensures w'.held == worlds[|actions|].held + multiset{worlds[|actions|].cache.entries[i].repo}
  {
    var w := worlds[|actions|];
    RunKeepsInv(worlds, actions, maximum);
    hide Reservations, Places, HeldAreCached, ShutdownOrder, Ages, Reserve, IsRun;
    HitRenews(w.cache, p, w.held, maximum);
    assert w.cache.entries[i] in w.cache.entries;
  }
}
