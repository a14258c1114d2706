// The repository cache as an object: each method is one section run under the lock.

module RepositoryCache {
  import opened Options
  import opened M = RepositoryCacheModel

  lemma {:induction false} FirstIsFound(entries: seq<Entry>, p: Project, i: nat)
    requires i <= |entries| && forall j | 0 <= j < i :: entries[j].project != p
    ensures i < |entries| && entries[i].project == p ==> FindEntry(entries, p) == Some(i)
    ensures i == |entries| ==> FindEntry(entries, p) == None
  {
    if i > 0 {
      assert forall j | 0 <= j < i - 1 :: entries[1..][j] == entries[j + 1];
      FirstIsFound(entries[1..], p, i - 1);
    }
  }

  class RepositoryCache {
    const maximum: nat
    var entries: seq<Entry>
    var pending: seq<Project>
    var generation: nat
    var shutdownRequested: bool
    var shutdownInProgress: bool
    var shutdownCompleted: bool

    constructor (maximum: nat)
      requires 1 <= maximum <= 16
      ensures this.maximum == maximum && View() == Cache([], [], 0, false, false, false)
    {
      this.maximum := maximum;
      entries, pending, generation := [], [], 0;
      shutdownRequested, shutdownInProgress, shutdownCompleted := false, false, false;
    }

    ghost function View(): Cache
      reads this
    {
      Cache(entries, pending, generation, shutdownRequested, shutdownInProgress, shutdownCompleted)
    }

    method Find(p: Project) returns (found: Option<nat>)
      ensures found == FindEntry(entries, p)
    {
      var i := 0;
      while i < |entries|
        invariant i <= |entries| && forall j | 0 <= j < i :: entries[j].project != p
      {
        if entries[i].project == p {
          FirstIsFound(entries, p, i);
          return Some(i);
        }
        i := i + 1;
      }
      FirstIsFound(entries, p, i);
      return None;
    }

    method NextGeneration() returns (g: nat)
      modifies this`entries, this`generation
      ensures View() == Aged(old(View())) && g == generation
    {
      if generation != MAX_GENERATION {
        generation := generation + 1;
        return generation;
      }
      ghost var was := entries;
      var i := 0;
      while i < |entries|
        invariant i <= |entries| == |was|
        invariant forall j | 0 <= j < i :: entries[j] == was[j].(lastUse := 0)
        invariant forall j | i <= j < |entries| :: entries[j] == was[j]
        invariant generation == old(generation)
      {
        entries := entries[i := entries[i].(lastUse := 0)];
        i := i + 1;
      }
      assert entries == Zeroed(was);
      generation := 1;
      return generation;
    }

    method Touch(i: nat)
      requires i < |entries|
      modifies this`entries, this`generation
      ensures View() == Touched(old(View()), i)
    {
      var g := NextGeneration();
      entries := entries[i := entries[i].(lastUse := g)];
    }

    method ErasePending(p: Project)
      modifies this`pending
      ensures View() == old(View()).(pending := Erased(old(pending), p))
    {
      var kept, i := [], 0;
      while i < |pending|
        invariant i <= |pending| && pending == old(pending)
        invariant kept + Erased(pending[i..], p) == Erased(pending, p)
      {
        assert pending[i..][1..] == pending[i + 1..];
        if pending[i] != p {
          assert kept + ([pending[i]] + Erased(pending[i + 1..], p)) == kept + [pending[i]] + Erased(pending[i + 1..], p);
          kept := kept + [pending[i]];
        }
        i := i + 1;
      }
      pending := kept;
    }

    /** The least recently used entry no caller holds; `held` is what the use counts say. */
    method SelectVictim(held: multiset<Repo>) returns (candidate: Option<nat>)
      ensures candidate == Victim(entries, held)
    {
      candidate := None;
      var i := 0;
      while i < |entries|
        invariant i <= |entries| && candidate == Victim(entries[..i], held)
      {
        assert entries[..i + 1][..i] == entries[..i];
        if entries[i].repo !in held {
          if candidate.None? || Precedes(entries[i], entries[candidate.value]) {
            candidate := Some(i);
          }
        }
        i := i + 1;
      }
      assert entries[..i] == entries;
    }

    method BeginOpen(p: Project, held: multiset<Repo>) returns (outcome: ReserveOutcome)
      modifies this
      ensures (View(), outcome) == Reserve(old(View()), p, held, maximum)
      ensures outcome.ShuttingDown? <==> old(shutdownRequested)
      // A hit is the repository of this project, and only its entry is renewed.
      ensures outcome.Hit? <==> !old(shutdownRequested) && exists e | e in old(entries) :: e.project == p
      ensures outcome.Hit? ==>
                exists i | 0 <= i < |entries| == |old(entries)| ::
                  && old(entries)[i].project == p && old(entries)[i].repo == outcome.repo
                  && entries[i] == Entry(p, outcome.repo, generation)
                  && forall j | 0 <= j < |entries| && j != i ::
                       entries[j] == if old(generation) == MAX_GENERATION then old(entries)[j].(lastUse := 0) else old(entries)[j]
      // A project that is being opened waits, and so does any when everything is held; else the project is reserved,
      // and where there is no room the least recently used repository nobody holds makes way.
      ensures outcome.Busy? <==>
                && !old(shutdownRequested) && (forall e | e in old(entries) :: e.project != p)
                && (p in old(pending)
                    || (|old(entries)| + |old(pending)| >= maximum && forall e | e in old(entries) :: e.repo in held))
      ensures outcome.Reserved? ==>
                && pending == old(pending) + [p]
                && (outcome.victim.Some? <==> |old(entries)| + |old(pending)| >= maximum)
                && (outcome.victim.None? ==> entries == old(entries))
      ensures outcome.Reserved? && outcome.victim.Some? ==>
                exists i | 0 <= i < |old(entries)| ::
                  && old(entries)[i].repo == outcome.victim.value && outcome.victim.value !in held
                  && entries == old(entries)[..i] + old(entries)[i + 1..]
                  && forall j | 0 <= j < |old(entries)| && old(entries)[j].repo !in held ::
                       || old(entries)[i].lastUse < old(entries)[j].lastUse
                       || (old(entries)[i].lastUse == old(entries)[j].lastUse
                           && old(entries)[i].project <= old(entries)[j].project)
    {
      if shutdownRequested {
        return ShuttingDown;
      }
      var existing := Find(p);
      if existing.Some? {
        var repo := entries[existing.value].repo;
        Touch(existing.value);
        return Hit(repo);
      }
      if p in pending {
        return Busy;
      }
      var victim: Option<Repo> := None;
      if |entries| + |pending| >= maximum {
        var candidate := SelectVictim(held);
        if candidate.None? {
          return Busy;
        }
        victim := Some(entries[candidate.value].repo);
        entries := entries[..candidate.value] + entries[candidate.value + 1..];
      }
      pending := pending + [p];
      return Reserved(victim);
    }

    method PublishOpen(p: Project, created: Opened) returns (outcome: PublishOutcome)
      modifies this
      ensures (View(), outcome) == Publish(old(View()), p, created)
      // Published is a repository of exactly this project, as its entry, unless a shutdown came or there is one.
      ensures outcome.Published? <==>
                && created.OpenedRepo? && created.project == p && !old(shutdownRequested)
                && forall e | e in old(entries) :: e.project != p
      ensures outcome.Published? ==>
                && outcome.repo == created.repo && |entries| == |old(entries)| + 1
                && entries[|old(entries)|] == Entry(p, created.repo, generation)
                && forall j | 0 <= j < |old(entries)| ::
                     entries[j] == if old(generation) == MAX_GENERATION then old(entries)[j].(lastUse := 0) else old(entries)[j]
      // What is not published is to be closed, and an error is answered exactly without a repository.
      ensures outcome.ToClose? || outcome.Redundant? ==> created.OpenedRepo? && outcome.repo == created.repo
      ensures outcome.ToClose? ==> entries == old(entries) && (old(shutdownRequested) || created.project != p)
      ensures outcome.Redundant? ==> !old(shutdownRequested) && exists e | e in old(entries) :: e.project == p
      ensures outcome.OpenError? || outcome.NullDereference? <==> !created.OpenedRepo?
      ensures created.OpenFailed? ==> outcome.OpenError?
    {
      ErasePending(p);
      if created.OpenFailed? {
        return OpenError;
      }
      if shutdownRequested {
        return if created.OpenedNull? then NullDereference else ToClose(created.repo);
      }
      var existing := Find(p);
      if existing.Some? {
        Touch(existing.value);
        return if created.OpenedNull? then NullDereference else Redundant(created.repo);
      }
      if created.OpenedNull? {
        return OpenError;
      }
      if created.project != p {
        return ToClose(created.repo);
      }
      var g := NextGeneration();
      entries := entries + [Entry(p, created.repo, g)];
      return Published(created.repo);
    }

    method BeginClose(p: Project, held: multiset<Repo>) returns (outcome: CloseOutcome)
      modifies this`entries
      ensures (View(), outcome) == Detach(old(View()), p, held)
      ensures outcome.NothingToClose? <==> p !in old(pending) && forall e | e in old(entries) :: e.project != p
      ensures outcome.Detached? ==>
                && p !in old(pending)
                && exists i | 0 <= i < |old(entries)| ::
                     && old(entries)[i] == Entry(p, outcome.repo, old(entries)[i].lastUse) && outcome.repo !in held
                     && entries == old(entries)[..i] + old(entries)[i + 1..]
      ensures outcome.CloseBusy? ==>
                entries == old(entries) && (p in old(pending) || exists e | e in old(entries) :: e.project == p && e.repo in held)
    {
      if p in pending {
        return CloseBusy;
      }
      var existing := Find(p);
      if existing.None? {
        return NothingToClose;
      }
      var i := existing.value;
      if entries[i].repo in held {
        return CloseBusy;
      }
      var repo := entries[i].repo;
      entries := entries[..i] + entries[i + 1..];
      return Detached(repo);
    }

    /** Whether this caller is the one that performs the shutdown. */
    method BeginShutdown() returns (mine: bool)
      modifies this`shutdownInProgress, this`shutdownRequested
      ensures mine == !(old(shutdownCompleted) || old(shutdownInProgress))
      ensures View() == if mine then old(View()).(shutdownInProgress := true, shutdownRequested := true) else old(View())
    {
      if shutdownCompleted || shutdownInProgress {
        return false;
      }
      shutdownInProgress, shutdownRequested := true, true;
      return true;
    }

    /** Once nothing is pending, the entries are taken and put in order of project. */
    method TakeEntries() returns (taken: seq<Entry>)
      requires pending == []
      modifies this`entries
      ensures View() == old(View()).(entries := []) && taken == SortedByProject(old(entries))
    {
      taken := SortedByProject(entries);
      entries := [];
    }

    method CompleteShutdown()
      modifies this`shutdownCompleted, this`shutdownInProgress
      ensures View() == old(View()).(shutdownCompleted := true, shutdownInProgress := false)
    {
      shutdownCompleted, shutdownInProgress := true, false;
    }
  }
}
