// The optimistic writer of handoff packets among any number of other writers.

module LegacyContinuityWriter {
  import opened Options
  import opened LegacyContinuityModel

  type Rows = map<Id, Record>

  const MAX_SEQUENCE: nat := 0x7FFF_FFFF_FFFF_FFFF

  /** One committed write: the record it replaced, if any, and the one it left. */
  datatype Commit = Commit(replaced: Option<Record>, written: Record)

  datatype Error = Conflict | NotFound | Integrity | Refused | Fault

  datatype Stored = Written(record: Record) | Rejected(error: Error)

  datatype Outcome = Saved(record: Record) | Failed(error: Error)

  datatype Selection = Selected(current: Option<Record>) | NotSelected(error: Error)

  /** Every version of every record ever committed. */
  type Versions = map<(Id, nat), Packet>

  predicate IsVersion(r: Record, versions: Versions) {
    (r.packet.id, r.writeSequence) in versions && versions[(r.packet.id, r.writeSequence)] == r.packet
  }

  /** A version names one packet for ever; a record's own version is its latest. */
  ghost predicate RowsOk(rows: Rows, versions: Versions, nextId: Id) {
    && (forall id | id in rows :: rows[id].packet.id == id && IsVersion(rows[id], versions))
    && (forall key | key in versions :: key.0 < nextId && versions[key].id == key.0)
    && (forall key | key in versions && key.0 in rows :: key.1 <= rows[key.0].writeSequence)
  }

  /** More versions and commits; nothing recorded changes. */
  ghost predicate Grows(v: Versions, v': Versions, c: seq<Commit>, c': seq<Commit>) {
    c <= c' && forall key | key in v :: key in v' && v'[key] == v[key]
  }

  lemma GrowsFrom(v: Versions, c: seq<Commit>)
    ensures Grows(v, v, c, c)
  {
  }

  lemma GrowsMeans(v: Versions, v': Versions, c: seq<Commit>, c': seq<Commit>)
    requires Grows(v, v', c, c')
    ensures c <= c'
  {
  }

  lemma GrowsOn(v: Versions, v': Versions, v'': Versions, c: seq<Commit>, c': seq<Commit>, c'': seq<Commit>)
    requires Grows(v, v', c, c') && Grows(v', v'', c', c'')
    ensures Grows(v, v'', c, c'') && c <= c' <= c''
  {
  }

  /** No version of the identity was ever committed. */
  ghost predicate Unused(id: Id, versions: Versions) {
    forall n :: (id, n) !in versions
  }

  ghost predicate KeepsUnused(v: Versions, v': Versions, limit: Id) {
    forall id: Id | id < limit && Unused(id, v) :: Unused(id, v')
  }

  lemma AddingKeepsUnused(v: Versions, v': Versions, v'': Versions, id: Id, n: nat, packet: Packet, limit: Id)
    requires KeepsUnused(v, v', limit) && v'' == v'[(id, n) := packet] && (id >= limit || !Unused(id, v'))
    ensures KeepsUnused(v, v'', limit)
  {
    forall x: Id | x < limit && Unused(x, v)
      ensures Unused(x, v'')
    {
      assert Unused(x, v') && x != id;
    }
  }

  predicate IsTop(rows: Rows, top: nat) {
    && (forall id | id in rows :: rows[id].writeSequence <= top)
    && (top == 0 || exists id | id in rows :: rows[id].writeSequence == top)
  }

  lemma WritingKeepsRows(rows: Rows, versions: Versions, nextId: Id, packet: Packet, top: nat)
    requires RowsOk(rows, versions, nextId) && IsTop(rows, top) && packet.id < nextId
    requires packet.id in rows || Unused(packet.id, versions)
    ensures (packet.id, top + 1) !in versions
    ensures RowsOk(rows[packet.id := Record(packet, top + 1)], versions[(packet.id, top + 1) := packet], nextId)
  {
  }

  // ----- The commit log -----

  /** The record that the last commit of an identity left. */
  function LastOf(commits: seq<Commit>, id: Id): Option<Record> {
    if commits == [] then None
    else
      var last := commits[|commits| - 1];
      if last.written.packet.id == id then Some(last.written) else LastOf(commits[..|commits| - 1], id)
  }

  /** A commit replaced what the last commit of its identity left, and did not take readiness back. */
  ghost predicate CommitOk(commits: seq<Commit>, versions: Versions, k: nat)
    requires k < |commits|
  {
    && commits[k].replaced == LastOf(commits[..k], commits[k].written.packet.id)
    && IsVersion(commits[k].written, versions)
    && (commits[k].replaced.Some? && commits[k].replaced.value.packet.resumeReady ==> commits[k].written.packet.resumeReady)
  }

  ghost predicate LogOk(rows: Rows, versions: Versions, commits: seq<Commit>) {
    && (forall k | 0 <= k < |commits| :: CommitOk(commits, versions, k))
    && (forall id | id in rows :: LastOf(commits, id) == Some(rows[id]))
  }

  predicate LeavesReady(c: Commit, id: Id) {
    c.written.packet.id == id && c.written.packet.resumeReady
  }

  predicate NoneReady(commits: seq<Commit>, id: Id) {
    forall k | 0 <= k < |commits| :: !LeavesReady(commits[k], id)
  }

  lemma CommitsPrefix(commits: seq<Commit>, versions: Versions, n: nat)
    requires n <= |commits| && forall k | 0 <= k < |commits| :: CommitOk(commits, versions, k)
    ensures forall k | 0 <= k < n :: CommitOk(commits[..n], versions, k)
  {
    forall k | 0 <= k < n
      ensures CommitOk(commits[..n], versions, k)
    {
      assert CommitOk(commits, versions, k) && commits[..n][..k] == commits[..k];
    }
  }

  /** Readiness is never taken back: a record is ready exactly if some commit of its identity was. */
  lemma {:induction false} ReadyMeans(commits: seq<Commit>, versions: Versions, id: Id)
    requires forall k | 0 <= k < |commits| :: CommitOk(commits, versions, k)
    ensures (LastOf(commits, id).Some? && LastOf(commits, id).value.packet.resumeReady) <==> !NoneReady(commits, id)
    ensures LastOf(commits, id).Some? ==>
              IsVersion(LastOf(commits, id).value, versions) && LastOf(commits, id).value.packet.id == id
  {
    if commits != [] {
      var n := |commits| - 1;
      CommitsPrefix(commits, versions, n);
      ReadyMeans(commits[..n], versions, id);
      assert CommitOk(commits, versions, n) && commits == commits[..n] + [commits[n]];
      assert !NoneReady(commits[..n], id) ==> !NoneReady(commits, id);
      assert LeavesReady(commits[n], id) ==> !NoneReady(commits, id);
      hide IsVersion, CommitOk;
    }
  }

  /** An unused identity has no commit. */
  lemma UnusedHasNone(commits: seq<Commit>, versions: Versions, id: Id)
    requires (forall k | 0 <= k < |commits| :: CommitOk(commits, versions, k)) && Unused(id, versions)
    ensures LastOf(commits, id) == None && NoneReady(commits, id)
  {
    ReadyMeans(commits, versions, id);
  }

  lemma WritingKeepsLog(rows: Rows, versions: Versions, commits: seq<Commit>, packet: Packet, top: nat)
    requires LogOk(rows, versions, commits) && (packet.id in rows || Unused(packet.id, versions))
    requires packet.id in rows && rows[packet.id].packet.resumeReady ==> packet.resumeReady
    requires (packet.id, top + 1) !in versions
    ensures var record := Record(packet, top + 1);
            var replaced := if packet.id in rows then Some(rows[packet.id]) else None;
            LogOk(rows[packet.id := record], versions[(packet.id, top + 1) := packet], commits + [Commit(replaced, record)])
  {
    var record := Record(packet, top + 1);
    var replaced := if packet.id in rows then Some(rows[packet.id]) else None;
    var v, c := versions[(packet.id, top + 1) := packet], commits + [Commit(replaced, record)];
    if packet.id !in rows {
      UnusedHasNone(commits, versions, packet.id);
    }
    assert c[..|commits|] == commits;
    forall k | 0 <= k < |c|
      ensures CommitOk(c, v, k)
    {
      if k < |commits| {
        assert CommitOk(commits, versions, k) && c[..k] == commits[..k];
      }
    }
  }

  lemma ErasingKeepsLog(rows: Rows, versions: Versions, commits: seq<Commit>, id: Id)
    requires LogOk(rows, versions, commits)
    ensures LogOk(rows - {id}, versions, commits)
  {
  }

  lemma ErasingKeepsRows(rows: Rows, versions: Versions, nextId: Id, id: Id)
    requires RowsOk(rows, versions, nextId)
    ensures RowsOk(rows - {id}, versions, nextId)
  {
  }

  /** What a compare-exchange expects of an identity is so. */
  predicate Stands(rows: Rows, id: Id, expected: Option<nat>) {
    if expected.Some? then id in rows && rows[id].writeSequence == expected.value else id !in rows
  }

  /** The record of a client with the highest sequence; among equals, the one of smallest identity. */
  predicate IsLatest(rows: Rows, client: Client, r: Option<Record>) {
    IsLatestAmong(rows, rows.Keys, client, r)
  }

  predicate IsLatestAmong(rows: Rows, ids: set<Id>, client: Client, r: Option<Record>)
    requires ids <= rows.Keys
  {
    match r
    case None => forall id | id in ids :: rows[id].packet.clientId != Some(client)
    case Some(x) =>
      && x.packet.id in ids && rows[x.packet.id] == x && x.packet.clientId == Some(client)
      && forall id | id in ids && rows[id].packet.clientId == Some(client) :: !Later(rows[id], id, x)
  }

  /** The record found under `id` comes before `x`. */
  predicate Later(r: Record, id: Id, x: Record) {
    r.writeSequence > x.writeSequence || (r.writeSequence == x.writeSequence && id < x.packet.id)
  }

  lemma NoLatest(rows: Rows, client: Client)
    ensures IsLatestAmong(rows, {}, client, None)
  {
  }

  lemma LatestIsThere(rows: Rows, client: Client, r: Option<Record>)
    requires IsLatest(rows, client, r)
    ensures r.Some? ==> r.value.packet.id in rows && rows[r.value.packet.id] == r.value && r.value.packet.clientId == Some(client)
  {
  }

  lemma LatestStep(rows: Rows, ids: set<Id>, client: Client, best: Option<Record>, id: Id)
    requires ids <= rows.Keys && IsLatestAmong(rows, ids, client, best) && id in rows && rows[id].packet.id == id
    ensures var x := rows[id];
            IsLatestAmong(rows, ids + {id}, client,
              if x.packet.clientId == Some(client) && (best.None? || Later(x, id, best.value)) then Some(x) else best)
  {
  }

  /** What a read of a client's latest record found. */
  datatype Lookup = Lookup(client: Client, found: Option<Record>)

  class Repository {
    var rows: Rows
    var nextId: Id
    ghost var versions: Versions
    ghost var commits: seq<Commit>
    ghost var lookups: seq<Lookup>
    /** Some call failed without a cause in what it was asked. */
    ghost var troubled: bool

    /** No sequence is left for another write. */
    predicate Exhausted()
      reads this
    {
      exists id | id in rows :: rows[id].writeSequence >= MAX_SEQUENCE
    }

    ghost predicate Valid()
      reads this
    {
      RowsOk(rows, versions, nextId) && LogOk(rows, versions, commits)
    }

    constructor ()
      ensures Valid() && rows == map[] && commits == [] && lookups == []
    {
      rows, nextId, versions, commits, lookups, troubled := map[], 0, map[], [], [], false;
    }

    method NewId() returns (id: Id)
      requires Valid()
      modifies this`nextId
      ensures Valid() && id == old(nextId) < nextId && Unused(id, versions)
    {
      id := nextId;
      nextId := nextId + 1;
    }

    /** The highest sequence in the table. */
    method Top() returns (top: nat)
      ensures IsTop(rows, top)
    {
      top := 0;
      var left := rows.Keys;
      while left != {}
        invariant left <= rows.Keys
        invariant forall id | id in rows && id !in left :: rows[id].writeSequence <= top
        invariant top == 0 || exists id | id in rows :: rows[id].writeSequence == top
        decreases |left|
      {
        var id :| id in left;
        if rows[id].writeSequence > top {
          top := rows[id].writeSequence;
        }
        left := left - {id};
      }
    }

    method Write(packet: Packet)
      requires Valid() && packet.id < nextId && (packet.id in rows || Unused(packet.id, versions))
      requires packet.id in rows && rows[packet.id].packet.resumeReady ==> packet.resumeReady
      modifies this`rows, this`versions, this`commits
      ensures Valid() && Grows(old(versions), versions, old(commits), commits)
      ensures packet.id in rows && rows[packet.id].packet == packet && |commits| == |old(commits)| + 1
      ensures versions == old(versions)[(packet.id, rows[packet.id].writeSequence) := packet]
      ensures commits[|old(commits)|] ==
              Commit(if packet.id in old(rows) then Some(old(rows)[packet.id]) else None, rows[packet.id])
      ensures packet.id in old(rows) ==> old(rows)[packet.id].writeSequence < rows[packet.id].writeSequence
    {
      hide RowsOk, Unused, LogOk;
      var top := Top();
      var record := Record(packet, top + 1);
      WritingKeepsRows(rows, versions, nextId, packet, top);
      WritingKeepsLog(rows, versions, commits, packet, top);
      commits := commits + [Commit(if packet.id in rows then Some(rows[packet.id]) else None, record)];
      versions := versions[(packet.id, top + 1) := packet];
      rows := rows[packet.id := record];
    }

    /** compareExchange: insert if nothing is expected, else replace exactly the expected version.
        A conflict means that the expected version does not stand; other failures may be reported before
        the version is looked at, or after the write took effect. */
    method CompareExchange(packet: Packet, expected: Option<nat>) returns (r: Stored)
      requires Valid() && packet.id < nextId && (expected.None? ==> packet.id in rows || Unused(packet.id, versions))
      requires expected.Some? && Stands(rows, packet.id, expected) && rows[packet.id].packet.resumeReady ==> packet.resumeReady
      modifies this`rows, this`versions, this`commits, this`troubled
      ensures r.Rejected? ==>
                && (r.error == Conflict || (r.error == Fault && troubled) || (r.error == Integrity && Exhausted()))
                && (old(troubled) ==> troubled)
      ensures Valid() && Grows(old(versions), versions, old(commits), commits)
      ensures r.Written? ==>
                && r.record.packet == packet && |commits| == |old(commits)| + 1
                && var c := commits[|old(commits)|];
                   && c.written == r.record && IsVersion(r.record, versions)
                   && (expected.None? ==> c.replaced.None?)
                   && (expected.Some? ==> && packet.id in old(rows) && c.replaced == Some(old(rows)[packet.id])
                                          && c.replaced.value.writeSequence == expected.value < r.record.writeSequence)
      ensures r == Rejected(Conflict) ==> !Stands(old(rows), packet.id, expected)
      ensures !Stands(old(rows), packet.id, expected) ==>
                && (r == Rejected(Conflict) || r == Rejected(Fault))
                && rows == old(rows) && versions == old(versions) && commits == old(commits)
    {
      hide RowsOk, Unused, LogOk;
      var before: bool := *;
      if before {
        troubled := true;
        return Rejected(Fault);
      }
      if expected.Some? && (packet.id !in rows || rows[packet.id].writeSequence != expected.value) {
        return Rejected(Conflict);
      }
      if expected.None? && packet.id in rows {
        return Rejected(Conflict);
      }
      var top := Top();
      if top >= MAX_SEQUENCE {
        return Rejected(Integrity);
      }
      Write(packet);
      var after: bool := *;
      if after {
        troubled := true;
        return Rejected(Fault);
      }
      return Written(rows[packet.id]);
    }

    /** A record by identity; `None` for the whole answer when the read fails. */
    method Get(id: Id) returns (r: Option<Option<Record>>)
      requires Valid()
      modifies this`troubled
      ensures Valid() && (r.None? ==> troubled) && (old(troubled) ==> troubled)
      ensures r.Some? ==> r.value == if id in rows then Some(rows[id]) else None
      ensures r.Some? && r.value.Some? ==> r.value.value.packet.id == id && IsVersion(r.value.value, versions)
    {
      var works: bool := *;
      if !works {
        troubled := true;
        return None;
      }
      return Some(if id in rows then Some(rows[id]) else None);
    }

    /** The latest record of a client. */
    method Latest(client: Client) returns (r: Option<Option<Record>>)
      requires Valid()
      modifies this`lookups, this`troubled
      ensures (r.None? ==> troubled) && (old(troubled) ==> troubled)
      ensures Valid() && lookups == old(lookups) + if r.Some? then [Lookup(client, r.value)] else []
      ensures r.Some? ==> IsLatest(rows, client, r.value)
      ensures r.Some? && r.value.Some? ==> IsVersion(r.value.value, versions)
    {
      hide LogOk, RowsOk, IsVersion, IsLatestAmong;
      var works: bool := *;
      if !works {
        troubled := true;
        return None;
      }
      var best := Scan(client);
      lookups := lookups + [Lookup(client, best)];
      return Some(best);
    }

    method Scan(client: Client) returns (best: Option<Record>)
      requires Valid()
      ensures IsLatest(rows, client, best)
      ensures best.Some? ==> IsVersion(best.value, versions)
    {
      hide LogOk, IsVersion, IsLatestAmong;
      best := None;
      var done: set<Id>, left := {}, rows.Keys;
      NoLatest(rows, client);
      while left != {}
        invariant done + left == rows.Keys && IsLatestAmong(rows, done, client, best)
        decreases |left|
      {
        var id :| id in left;
        LatestStep(rows, done, client, best, id);
        if rows[id].packet.clientId == Some(client) && (best.None? || Later(rows[id], id, best.value)) {
          best := Some(rows[id]);
        }
        done, left := done + {id}, left - {id};
      }
      assert done == rows.Keys;
      LatestIsThere(rows, client, best);
    }

    /** Other writers, any number of times: they replace what they read without taking readiness back,
        insert under fresh identities, and erase. */
    method Interfere()
      requires Valid()
      modifies this
      ensures Valid() && nextId >= old(nextId) && Grows(old(versions), versions, old(commits), commits)
      ensures KeepsUnused(old(versions), versions, old(nextId)) && lookups == old(lookups) && troubled == old(troubled)
    {
      var times: nat :| true;
      for i := 0 to times
        invariant Valid() && nextId >= old(nextId) && Grows(old(versions), versions, old(commits), commits)
        invariant KeepsUnused(old(versions), versions, old(nextId)) && lookups == old(lookups) && troubled == old(troubled)
      {
        hide RowsOk, KeepsUnused, Unused, LogOk;
        OtherWriter(old(versions), old(nextId));
      }
    }

    method OtherWriter(ghost since: Versions, ghost limit: Id)
      requires Valid() && limit <= nextId && KeepsUnused(since, versions, limit)
      modifies this
      ensures Valid() && nextId >= old(nextId) && Grows(old(versions), versions, old(commits), commits)
      ensures KeepsUnused(since, versions, limit) && lookups == old(lookups) && troubled == old(troubled)
    {
      var packet: Packet :| true;
      var erases: bool := *;
      ghost var before := versions;
      if packet.id in rows && erases {
        ErasingKeepsRows(rows, versions, nextId, packet.id);
        ErasingKeepsLog(rows, versions, commits, packet.id);
        rows := rows - {packet.id};
      } else if packet.id in rows {
        assert (packet.id, rows[packet.id].writeSequence) in versions;
        packet := packet.(resumeReady := packet.resumeReady || rows[packet.id].packet.resumeReady);
        Write(packet);
        AddingKeepsUnused(since, before, versions, packet.id, rows[packet.id].writeSequence, packet, limit);
      } else {
        var id := NewId();
        var p := packet.(id := id);
        Write(p);
        AddingKeepsUnused(since, before, versions, id, rows[id].writeSequence, p, limit);
      }
    }
  }

  /** A record read earlier is, when its sequence still stands, the record itself. */
  lemma StaleIsCurrent(current: Record, rows: Rows, versions: Versions, nextId: Id)
    requires RowsOk(rows, versions, nextId) && IsVersion(current, versions)
    requires current.packet.id in rows && rows[current.packet.id].writeSequence == current.writeSequence
    ensures rows[current.packet.id] == current
  {
  }

  lemma UnusedIsNoRow(id: Id, rows: Rows, versions: Versions, nextId: Id)
    requires RowsOk(rows, versions, nextId) && Unused(id, versions)
    ensures id !in rows
  {
  }

  lemma VersionsLast(r: Record, v: Versions, v': Versions, c: seq<Commit>, c': seq<Commit>, rows: Rows, nextId: Id)
    requires IsVersion(r, v) && Grows(v, v', c, c') && RowsOk(rows, v, nextId)
    ensures IsVersion(r, v') && r.packet.id < nextId
  {
  }

  // ----- The source of agent sessions -----

  datatype Answer =
    | ListedOpen(client: Client, snapshots: seq<Snapshot>)
    | BoundTo(client: Client, binding: Option<Binding>)
    | WasOpen(session: SessionId, open: bool)

  function AskedIn(answers: seq<Answer>): set<SessionId> {
    set x | x in answers && x.WasOpen? :: x.session
  }

  function ClosedIn(answers: seq<Answer>): set<SessionId> {
    set x | x in answers && x.WasOpen? && !x.open :: x.session
  }

  lemma NothingAsked()
    ensures AskedIn([]) == {} && ClosedIn([]) == {}
  {
  }

  lemma AskedMore(before: seq<Answer>, session: SessionId, open: bool, from: nat)
    requires from <= |before|
    ensures var after := before + [WasOpen(session, open)];
            && AskedIn(after[from..]) == AskedIn(before[from..]) + {session}
            && ClosedIn(after[from..]) == ClosedIn(before[from..]) + if open then {} else {session}
  {
    var x := WasOpen(session, open);
    var was, now := before[from..], (before + [x])[from..];
    assert now == was + [x] && x in now;
    assert forall a | a in was :: a in now;
  }

  /** What is open is for the source to say; `answers` is all it has said. */
  class SessionSource {
    ghost var answers: seq<Answer>
    /** Some question was not answered. */
    ghost var troubled: bool

    constructor ()
      ensures answers == [] && !troubled
    {
      answers, troubled := [], false;
    }

    method ListOpen(client: Client) returns (r: Option<seq<Snapshot>>)
      modifies this
      ensures answers == old(answers) + if r.Some? then [ListedOpen(client, r.value)] else []
      ensures troubled == (old(troubled) || r.None?)
    {
      r :| true;
      answers := answers + if r.Some? then [ListedOpen(client, r.value)] else [];
      troubled := troubled || r.None?;
    }

    method Binding(client: Client) returns (r: Option<Option<LegacyContinuityModel.Binding>>)
      modifies this
      ensures answers == old(answers) + if r.Some? then [BoundTo(client, r.value)] else []
      ensures troubled == (old(troubled) || r.None?)
    {
      r :| true;
      answers := answers + if r.Some? then [BoundTo(client, r.value)] else [];
      troubled := troubled || r.None?;
    }

    method IsOpen(session: SessionId) returns (r: Option<bool>)
      modifies this
      ensures answers == old(answers) + if r.Some? then [WasOpen(session, r.value)] else []
      ensures troubled == (old(troubled) || r.None?)
    {
      r :| true;
      answers := answers + if r.Some? then [WasOpen(session, r.value)] else [];
      troubled := troubled || r.None?;
    }
  }

  /** Whether the agents of the record continued are looked at again. */
  predicate PreservesAgents(spec: Spec, selected: Option<Record>) {
    spec.explicitId.Some? || ((spec.mode == Automatic || spec.mode == Budget) && selected.Some?)
  }

  /** The domain refuses no text and no packet. */
  ghost predicate Permissive(rules: Rules) {
    && (forall text :: rules.truncate(text).Some?)
    && (forall p :: rules.seed(p).Some?) && (forall p :: rules.valid(p))
  }

  lemma DefaultsRefused(rules: Rules, s: Spec, p: Packet)
    requires AutomaticDefaults(rules, s, p).None?
    ensures !Permissive(rules)
  {
    hide Contains, ModeNote, DefaultGoal, Restart;
  }

  lemma SeedRefused(rules: Rules, s: Spec, p: Packet)
    ensures Permissive(rules) ==> Seeded(rules, s, p).Some? && rules.valid(Seeded(rules, s, p).value)
  {
  }

  /** A list of open sessions that is too long, repeats a session or holds one that is not valid. */
  predicate BadListing(rules: Rules, a: Answer) {
    && a.ListedOpen?
    && !(|a.snapshots| <= MAX_AGENTS && OncePerSession(a.snapshots) && forall x | x in a.snapshots :: rules.openSnapshot(x))
  }

  /** What the source said while a packet was built. */
  predicate LookedAt(i: Inputs, current: Option<Record>, closed: set<SessionId>, said: seq<Answer>) {
    && closed == ClosedIn(said)
    && AskedIn(said) == if i.preservePriorAgents && current.Some? then Seen(current.value.packet.agents, i.snapshots, closed)
                        else {}
  }

  /** The snapshots and the binding of a write are what the source said first. */
  predicate ReadFromSource(i: Inputs, client: Client, answers: seq<Answer>, at: nat) {
    && at + 2 <= |answers|
    && answers[at].ListedOpen? && answers[at].client == client && i.snapshots == SortedBySession(answers[at].snapshots)
    && answers[at + 1] == BoundTo(client, i.binding)
    && OncePerSession(i.snapshots) && |i.snapshots| <= MAX_AGENTS
  }

  /** A write from outside: the record first selected, its inputs, and of its last attempt the draft, the
      sessions found closed and where its questions to the session source start. */
  datatype Trace = Trace(selected: Option<Record>, inputs: Inputs, draft: Packet, closed: set<SessionId>, from: nat)

  /** The last commit left `record`, the packet built from exactly the record version it replaced and
      from what the source said during the last attempt; a named record was there and was the one. */
  predicate CommittedAsBuilt(rules: Rules, spec: Spec, record: Record, t: Trace, commits: seq<Commit>, answers: seq<Answer>)
    requires commits != [] && t.from <= |answers|
  {
    var c := commits[|commits| - 1];
    && c.written == record && Build(rules, t.inputs, c.replaced, t.draft, t.closed) == Some(record.packet)
    && LookedAt(t.inputs, c.replaced, t.closed, answers[t.from..])
    && (spec.explicitId.Some? ==> c.replaced.Some? && record.packet.id == spec.explicitId.value)
  }

  predicate ContinuesReady(c: Commit) {
    c.replaced.Some? && c.replaced.value.packet.resumeReady
  }

  /** An explicit write that names no record. */
  predicate Implicit(spec: Spec) {
    spec.explicitId.None? && (spec.mode == Checkpoint || spec.mode == Handoff)
  }

  /** The record an implicit write continues: the latest, except that a checkpoint or handoff starts anew
      after one that is ready to resume. */
  function Chosen(spec: Spec, latest: Option<Record>): Option<Record> {
    if Implicit(spec) && latest.Some? && latest.value.packet.resumeReady then None else latest
  }

  /** The record first selected is the named one, or the one chosen from what the lookup found. */
  predicate SelectedFrom(spec: Spec, client: Client, selected: Option<Record>, lookups: seq<Lookup>, at: nat) {
    if spec.explicitId.Some? then selected.Some? && selected.value.packet.id == spec.explicitId.value
    else at < |lookups| && lookups[at].client == client && selected == Chosen(spec, lookups[at].found)
  }

  /** The packet a write starts from when it continues none. */
  function NewDraft(id: Id, now: Time, source: Source, client: Client): Packet {
    Packet(id, now, now, source, false, None, Some(client), "", "in_progress", None, None, [], [], [], [], [], "", "", false)
  }

  predicate DraftOf(draft: Packet, now: Time, source: Source, client: Client) {
    draft == NewDraft(draft.id, now, source, client)
  }

  class Writer {
    const repository: Repository
    const sessions: SessionSource
    const rules: Rules
    /** The caller's context lapsed or was unfit, or no identity could be generated. */
    ghost var troubled: bool

    /** Something the write needs failed, or the domain refuses something. */
    ghost predicate Excused()
      reads this, repository, sessions
    {
      troubled || repository.troubled || sessions.troubled || repository.Exhausted() || !Permissive(rules)
    }

    ghost predicate Valid()
      reads this, repository
    {
      repository.Valid()
    }

    constructor (repository: Repository, sessions: SessionSource, rules: Rules)
      requires repository.Valid()
      ensures Valid() && this.repository == repository && this.sessions == sessions && this.rules == rules
    {
      this.repository, this.sessions, this.rules, troubled := repository, sessions, rules, false;
    }

    // ----- What is open -----

    /** The open sessions of the client, valid, each once, within the cap, and in order. */
    method CurrentSnapshots(client: Client) returns (r: Option<seq<Snapshot>>)
      modifies sessions
      ensures old(sessions.answers) <= sessions.answers
      ensures r.None? ==>
                || sessions.troubled
                || (|sessions.answers| == |old(sessions.answers)| + 1
                    && BadListing(rules, sessions.answers[|old(sessions.answers)|]))
      ensures r.Some? ==>
                && |sessions.answers| == |old(sessions.answers)| + 1
                && var said := sessions.answers[|old(sessions.answers)|];
                   && said.ListedOpen? && said.client == client && r.value == SortedBySession(said.snapshots)
                   && OncePerSession(r.value) && |r.value| <= MAX_AGENTS
                   && forall x | x in r.value :: rules.openSnapshot(x)
    {
      var listed := sessions.ListOpen(client);
      if listed.None? {
        return None;
      }
      var ok := ValidSnapshots(listed.value);
      if !ok {
        return None;
      }
      SortedBySessionIs(listed.value);
      SortingKeepsOnce(listed.value);
      r := Some(SortedBySession(listed.value));
      forall x | x in r.value
        ensures rules.openSnapshot(x)
      {
        assert x in multiset(r.value) && x in multiset(listed.value);
      }
    }

    method ValidSnapshots(s: seq<Snapshot>) returns (ok: bool)
      ensures ok <==> |s| <= MAX_AGENTS && OncePerSession(s) && forall x | x in s :: rules.openSnapshot(x)
    {
      if |s| > MAX_AGENTS {
        return false;
      }
      var ids: set<SessionId> := {};
      for i := 0 to |s|
        invariant OncePerSession(s[..i]) && forall id :: id in ids <==> exists j | 0 <= j < i :: s[j].session == id
        invariant forall j | 0 <= j < i :: rules.openSnapshot(s[j])
      {
        if !rules.openSnapshot(s[i]) || s[i].session in ids {
          return false;
        }
        ids := ids + {s[i].session};
      }
      assert s[..|s|] == s;
      return true;
    }

    /** The prior snapshots that are still open, in their current form: the source is asked about each
        session it comes to, and the closed ones are those of which it said so. */
    method MergeOpenPrior(prior: seq<Snapshot>, current: seq<Snapshot>)
      returns (merged: Option<seq<Snapshot>>, seen: set<SessionId>, ghost closed: set<SessionId>)
      modifies sessions
      ensures old(sessions.answers) <= sessions.answers
      ensures merged.None? ==> sessions.troubled
      ensures merged.Some? ==>
                var said := sessions.answers[|old(sessions.answers)|..];
                && closed == ClosedIn(said) && seen == AskedIn(said)
                && merged.value == MergePrior(prior, current, closed) && seen == Seen(prior, current, closed)
    {
      hide MergePrior, Seen, Find, Sessions, AskedIn, ClosedIn;
      NothingMerged(current, {});
      NothingAsked();
      closed, seen := {}, {};
      ghost var from := |sessions.answers|;
      assert sessions.answers[from..] == [];
      var list: seq<Snapshot> := [];
      var i := 0;
      while i < |prior| && |list| < MAX_AGENTS
        invariant i <= |prior| && list == MergePrior(prior[..i], current, closed)
        invariant seen == Seen(prior[..i], current, closed) && closed <= seen
        invariant |list| < MAX_AGENTS ==> seen == Sessions(prior[..i])
        invariant old(sessions.answers) <= sessions.answers
        invariant closed == ClosedIn(sessions.answers[from..]) && seen == AskedIn(sessions.answers[from..])
      {
        var x := prior[i];
        PriorStep(prior, i, current, closed);
        if x.session !in seen {
          ClosedLater(prior[..i], current, closed, x.session);
          PriorStep(prior, i, current, closed + {x.session});
          seen := seen + {x.session};
          ghost var before := sessions.answers;
          var open := sessions.IsOpen(x.session);
          if open.None? {
            return None, seen, closed;
          }
          AskedMore(before, x.session, open.value, from);
          if open.value {
            list := list + [if Find(current, x.session).Some? then Find(current, x.session).value else x];
          } else {
            closed := closed + {x.session};
          }
        }
        i := i + 1;
      }
      if i < |prior| {
        PriorFull(prior, i, current, closed);
      } else {
        assert prior[..i] == prior;
      }
      return Some(list), seen, closed;
    }

    method MergeSnapshots(prior: seq<Snapshot>, current: seq<Snapshot>)
      returns (merged: Option<seq<Snapshot>>, ghost closed: set<SessionId>)
      modifies sessions
      ensures old(sessions.answers) <= sessions.answers
      ensures merged.None? ==> sessions.troubled
      ensures merged.Some? ==>
                var said := sessions.answers[|old(sessions.answers)|..];
                && closed == ClosedIn(said) && AskedIn(said) == Seen(prior, current, closed)
                && merged.value == Merged(prior, current, closed)
    {
      hide MergeCurrent, Sessions, AskedIn, ClosedIn;
      var first, seen;
      first, seen, closed := MergeOpenPrior(prior, current);
      if first.None? {
        return None, closed;
      }
      var list, i := first.value, 0;
      ghost var before, told := seen, sessions.answers;
      NoCurrent(list, seen);
      while i < |current| && |list| < MAX_AGENTS
        invariant i <= |current| && list == MergeCurrent(first.value, before, current[..i])
        invariant seen == before + Sessions(current[..i]) && sessions.answers == told
      {
        CurrentStep(first.value, before, current, i);
        if current[i].session !in seen {
          seen := seen + {current[i].session};
          list := list + [current[i]];
        }
        i := i + 1;
      }
      if i < |current| {
        CurrentFull(first.value, before, current, i);
      } else {
        assert current[..i] == current;
      }
      return Some(list), closed;
    }

    // ----- The packet -----

    /** The record's packet, or the draft, with its author. */
    method StartPacket(i: Inputs, current: Option<Record>, draft: Packet) returns (p: Packet)
      ensures p == Signed(i, current, (if current.Some? then current.value.packet else draft).(updatedAt := i.now))
    {
      p := (if current.Some? then current.value.packet else draft).(updatedAt := i.now);
      if current.None? || !(i.spec.preserveAuthorIdentity && !i.spec.finalize) {
        p := p.(source := i.spec.source);
      }
      if current.None? || !i.spec.preserveAuthorIdentity || p.clientId.None? {
        p := p.(clientId := Some(i.client));
      }
    }

    /** The texts of the patch, field by field. */
    method PatchTexts(spec: Spec, start: Packet) returns (p: Packet)
      ensures p == PatchedTexts(spec, start)
    {
      p := start;
      var patch := spec.patch;
      if patch.goal.Some? && patch.goal.value != "" && (!spec.fillOnly || p.goal == "") {
        p := p.(goal := patch.goal.value);
      }
      if patch.status.Some? && patch.status.value != "" && (!spec.fillOnly || p.status == "") {
        p := p.(status := patch.status.value);
      }
      if patch.projectSlug.Some? && (!spec.fillOnly || Blank(p.projectSlug)) {
        p := p.(projectSlug := patch.projectSlug);
      }
      if patch.workingDirectory.Some? && ((!spec.fillOnly && spec.mode != Budget) || Blank(p.workingDirectory)) {
        p := p.(workingDirectory := patch.workingDirectory);
      }
      if patch.chatLabel.Some? && (!spec.fillOnly || Blank(p.chatLabel)) {
        p := p.(chatLabel := patch.chatLabel);
      }
    }

    /** The resume seed and the lists of the patch. */
    method PatchLists(spec: Spec, told: Packet) returns (p: Packet)
      ensures p == PatchedLists(spec, told)
    {
      p := told;
      var patch := spec.patch;
      if patch.resumeSeed.Some? && (!spec.fillOnly || p.resumeSeed == "") {
        p := p.(resumeSeed := patch.resumeSeed.value);
        p := p.(resumeSeedIsCustom := patch.resumeSeed.value != "");
      }
      if patch.blockers.Some? && (!spec.fillOnly || p.blockers == []) {
        p := p.(blockers := patch.blockers.value);
      }
      if patch.nextActions.Some? && (!spec.fillOnly || p.nextActions == []) {
        p := p.(nextActions := patch.nextActions.value);
      }
      if patch.keyFiles.Some? && ((!spec.fillOnly && spec.mode != Budget) || p.keyFiles == []) {
        p := p.(keyFiles := patch.keyFiles.value);
      }
      if patch.decisions.Some? && (!spec.fillOnly || p.decisions == []) {
        p := p.(decisions := patch.decisions.value);
      }
    }

    /** What an automatic or budget write adds. */
    method AddDefaults(spec: Spec, bound: Packet) returns (r: Option<Packet>)
      ensures r == AutomaticDefaults(rules, spec, bound)
    {
      hide WithNote;
      var p := bound;
      if spec.mode == Automatic {
        if spec.finalize && spec.patch.status.None? {
          p := p.(status := READY);
        }
        if p.goal == "" {
          p := p.(goal := (if spec.finalize then "Auto-handoff: " else "Auto-checkpoint: ") + spec.reason);
        }
        if spec.finalize {
          var text := WithNote(rules, p.narrative, "Runtime continuity: " + spec.reason);
          if text.None? {
            return None;
          }
          p := p.(narrative := text.value);
        }
      } else if spec.mode == Budget {
        if p.goal == "" {
          p := p.(goal := "Auto-checkpoint: " + spec.reason);
        }
        if p.nextActions == [] {
          p := p.(nextActions := Restart());
        }
        var text := WithNote(rules, p.narrative, "Budget trigger: " + spec.reason);
        if text.None? {
          return None;
        }
        p := p.(narrative := text.value);
      }
      return Some(p);
    }

    /** The times of a packet, cut to milliseconds in place. */
    method Canonicalize(filled: Packet) returns (p: Packet)
      ensures p == Canonical(filled)
    {
      hide Millis;
      p := filled.(createdAt := Millis(filled.createdAt));
      p := p.(updatedAt := Millis(p.updatedAt));
      var agents := p.agents;
      for i := 0 to |agents|
        invariant |agents| == |filled.agents|
        invariant forall k | 0 <= k < |agents| :: agents[k] == if k < i then Cut(filled.agents[k]) else filled.agents[k]
      {
        if agents[i].updatedAt.Some? {
          agents := agents[i := agents[i].(updatedAt := Some(Millis(agents[i].updatedAt.value)))];
        }
      }
      assert agents == CutAll(filled.agents);
      p := p.(agents := agents);
    }

    /** Readiness and the default resume seed. */
    method Finish(spec: Spec, filled: Packet) returns (r: Option<Packet>)
      ensures r == match Seeded(rules, spec, filled) case None => None case Some(p) => if rules.valid(p) then Some(p) else None
    {
      var p := filled;
      if spec.finalize {
        p := p.(resumeReady := true);
      }
      if (spec.patch.resumeSeed.None? && !p.resumeSeedIsCustom) || (spec.finalize && p.resumeSeed == "") {
        var seed := rules.seed(p);
        if seed.None? {
          return None;
        }
        p := p.(resumeSeed := seed.value);
        p := p.(resumeSeedIsCustom := false);
      }
      return if rules.valid(p) then Some(p) else None;
    }

    /** A packet built is the one the specification builds, with the sessions that the source said are
        closed, and it was asked about exactly the prior ones the merge looks at. */
    method BuildPacket(i: Inputs, current: Option<Record>, draft: Packet)
      returns (r: Option<Packet>, ghost closed: set<SessionId>)
      modifies sessions
      ensures old(sessions.answers) <= sessions.answers
      ensures r.None? ==> sessions.troubled || !Permissive(rules)
      ensures r.Some? ==>
                && r == Build(rules, i, current, draft, closed)
                && LookedAt(i, current, closed, sessions.answers[|old(sessions.answers)|..])
    {
      hide Signed, PatchedTexts, PatchedLists, Merged, AutomaticDefaults, Canonical, Seeded, AskedIn, ClosedIn, Seen;
      NothingAsked();
      assert sessions.answers[|sessions.answers|..] == [];
      closed := {};
      var p := StartPacket(i, current, draft);
      p := PatchTexts(i.spec, p);
      var told := PatchedNarrative(rules, i.spec, p);
      if told.None? {
        return None, closed;
      }
      p := PatchLists(i.spec, told.value);
      if i.preservePriorAgents && current.Some? {
        var merged;
        merged, closed := MergeSnapshots(current.value.packet.agents, i.snapshots);
        if merged.None? {
          return None, closed;
        }
        assert PatchedLists(i.spec, told.value).agents == told.value.agents by { ListsLeave(i.spec, told.value); }
        p := p.(agents := merged.value);
      } else {
        p := p.(agents := i.snapshots);
      }
      if i.binding.Some? {
        if p.goal == "" {
          p := p.(goal := i.binding.value.goal);
        }
        if Blank(p.workingDirectory) && i.binding.value.workingDirectory.Some? {
          p := p.(workingDirectory := i.binding.value.workingDirectory);
        }
      }
      var filled := AddDefaults(i.spec, p);
      if filled.None? {
        DefaultsRefused(rules, i.spec, p);
        return None, closed;
      }
      p := Canonicalize(filled.value);
      r := Finish(i.spec, p);
      SeedRefused(rules, i.spec, p);
    }

    // ----- The write -----

    method NewPacket(now: Time, source: Source, client: Client) returns (p: Option<Packet>)
      requires Valid()
      modifies repository`nextId, this`troubled
      ensures p.None? ==> troubled
      ensures Valid() && repository.nextId >= old(repository.nextId)
      ensures p.Some? ==> p.value.id < repository.nextId && Unused(p.value.id, repository.versions)
      ensures p.Some? ==> DraftOf(p.value, now, source, client)
    {
      var works: bool := *;
      if !works {
        troubled := true;
        return None;
      }
      var id := repository.NewId();
      return Some(NewDraft(id, now, source, client));
    }

    /** The record to continue: the one named, else the client's latest, except that an explicit
        write starts anew after a packet that is ready to resume. */
    method SelectInitial(spec: Spec, client: Client) returns (r: Selection)
      requires Valid()
      modifies repository`lookups, repository`troubled
      ensures r.NotSelected? ==> Excused() || (r.error == NotFound && spec.explicitId.Some?)
      ensures Valid()
      ensures r.Selected? && spec.explicitId.Some? ==>
                && spec.explicitId.value in repository.rows && r.current == Some(repository.rows[spec.explicitId.value])
                && r.current.value.packet.id == spec.explicitId.value
      ensures r.Selected? && spec.explicitId.None? ==>
                && |repository.lookups| == |old(repository.lookups)| + 1
                && var latest := repository.lookups[|old(repository.lookups)|].found;
                   IsLatest(repository.rows, client, latest) && r.current == Chosen(spec, latest)
      ensures r.Selected? ==> SelectedFrom(spec, client, r.current, repository.lookups, |old(repository.lookups)|)
      ensures r.Selected? && r.current.Some? ==> IsVersion(r.current.value, repository.versions)
      ensures r != NotSelected(Conflict)
    {
      if spec.explicitId.Some? {
        var loaded := repository.Get(spec.explicitId.value);
        if loaded.None? {
          return NotSelected(Fault);
        }
        if loaded.value.None? {
          return NotSelected(NotFound);
        }
        return if rules.valid(loaded.value.value.packet) then Selected(loaded.value) else NotSelected(Integrity);
      }
      var loaded := repository.Latest(client);
      if loaded.None? {
        return NotSelected(Fault);
      }
      if loaded.value.Some? {
        var packet := loaded.value.value.packet;
        if !rules.valid(packet) || packet.clientId != Some(client) {
          return NotSelected(Integrity);
        }
        if (spec.mode == Checkpoint || spec.mode == Handoff) && packet.resumeReady {
          return Selected(None);
        }
      }
      return Selected(loaded.value);
    }

    /** What the write knows between attempts: a version it read, or a draft nobody else has. */
    ghost predicate Prepared(spec: Spec, current: Option<Record>, draft: Packet)
      reads this, repository
    {
      && (current.Some? ==> IsVersion(current.value, repository.versions))
      && (current.Some? && spec.explicitId.Some? ==> current.value.packet.id == spec.explicitId.value)
      && (current.None? ==>
            spec.explicitId.None? && draft.id < repository.nextId && Unused(draft.id, repository.versions))
    }

    method OthersWrite(ghost spec: Spec, ghost current: Option<Record>, ghost draft: Packet)
      requires Valid() && Prepared(spec, current, draft)
      modifies repository
      ensures Valid() && Prepared(spec, current, draft)
      ensures Grows(old(repository.versions), repository.versions, old(repository.commits), repository.commits)
      ensures repository.nextId >= old(repository.nextId) && repository.lookups == old(repository.lookups)
    {
      repository.Interfere();
    }

    /** One attempt: the packet built from what was read replaces exactly that, or nothing happens. */
    method Attempt(i: Inputs, current: Option<Record>, draft: Packet)
      returns (r: Stored, id: Id, ghost closed: set<SessionId>)
      requires Valid() && Prepared(i.spec, current, draft)
      modifies repository, sessions
      ensures Valid() && repository.nextId >= old(repository.nextId) && old(sessions.answers) <= sessions.answers
      ensures Grows(old(repository.versions), repository.versions, old(repository.commits), repository.commits)
      ensures r.Rejected? ==> r.error == Conflict || (Excused() && r.error != NotFound)
      ensures r == Rejected(Conflict) ==> current.Some? && id == current.value.packet.id
      ensures repository.lookups == old(repository.lookups)
      ensures r.Written? ==>
                && |repository.commits| > |old(repository.commits)|
                && var c := repository.commits[|repository.commits| - 1];
                   c == Commit(current, r.record) && Build(rules, i, current, draft, closed) == Some(r.record.packet)
      ensures r.Written? ==> LookedAt(i, current, closed, sessions.answers[|old(sessions.answers)|..])
    {
      hide Build, RowsOk, Merged, LogOk, LookedAt;
      var packet;
      packet, closed := BuildPacket(i, current, draft);
      id := if current.Some? then current.value.packet.id else draft.id;
      if packet.None? {
        return Rejected(Refused), id, closed;
      }
      BuildKeepsIdentity(rules, i, current, draft, closed);
      OthersWrite(i.spec, current, draft);
      if current.Some? {
        VersionsLast(current.value, repository.versions, repository.versions, [], [], repository.rows, repository.nextId);
        if id in repository.rows && repository.rows[id].writeSequence == current.value.writeSequence {
          StaleIsCurrent(current.value, repository.rows, repository.versions, repository.nextId);
        }
      } else {
        UnusedIsNoRow(id, repository.rows, repository.versions, repository.nextId);
      }
      r := repository.CompareExchange(packet.value, if current.Some? then Some(current.value.writeSequence) else None);
    }

    /** After a conflict: what is there now, or a new draft unless a record was named. */
    method Reload(spec: Spec, client: Client, now: Time, id: Id, draft: Packet)
      returns (r: Selection, draft': Packet)
      requires Valid() && (spec.explicitId.Some? ==> id == spec.explicitId.value) && DraftOf(draft, now, spec.source, client)
      modifies repository, this`troubled
      ensures r.NotSelected? ==> Excused() || (r.error == NotFound && spec.explicitId.Some?)
      ensures Valid() && repository.nextId >= old(repository.nextId)
      ensures Grows(old(repository.versions), repository.versions, old(repository.commits), repository.commits)
      ensures r.Selected? ==> Prepared(spec, r.current, draft') && (r.current.Some? ==> r.current.value.packet.id == id)
      ensures r != NotSelected(Conflict) && repository.lookups == old(repository.lookups)
      ensures DraftOf(draft', now, spec.source, client)
    {
      hide RowsOk, LogOk;
      repository.Interfere();
      draft' := draft;
      var loaded := repository.Get(id);
      if loaded.None? {
        return NotSelected(Fault), draft;
      }
      if loaded.value.Some? {
        return if rules.valid(loaded.value.value.packet) then Selected(loaded.value) else NotSelected(Integrity), draft;
      }
      if spec.explicitId.Some? {
        return NotSelected(NotFound), draft;
      }
      var replacement := NewPacket(now, spec.source, client);
      if replacement.None? {
        return NotSelected(Fault), draft;
      }
      return Selected(None), replacement.value;
    }

    /** The identity a write is about to commit. */
    ghost function Target(current: Option<Record>, draft: Packet): Id {
      if current.Some? then current.value.packet.id else draft.id
    }

    /** A record that is not ready now, and an identity nobody used, have no commit that left them ready. */
    lemma NotReadyYet(current: Option<Record>, draft: Packet)
      requires Valid()
      requires match current
               case Some(x) =>
                 x.packet.id in repository.rows && repository.rows[x.packet.id] == x && !x.packet.resumeReady
               case None => Unused(draft.id, repository.versions)
      ensures NoneReady(repository.commits, Target(current, draft))
    {
      if current.Some? {
        ReadyMeans(repository.commits, repository.versions, current.value.packet.id);
      } else {
        UnusedHasNone(repository.commits, repository.versions, draft.id);
      }
    }

    /** Everything a write reads before its first attempt: the record it continues or a draft, the open
        sessions, and the binding. */
    method Gather(spec: Spec, client: Client, now: Time)
      returns (failed: Option<Error>, current: Option<Record>, draft: Packet, inputs: Inputs)
      requires Valid()
      modifies repository, sessions, this`troubled
      ensures failed.Some? ==>
                || Excused() || (failed == Some(NotFound) && spec.explicitId.Some?)
                || exists k | |old(sessions.answers)| <= k < |sessions.answers| :: BadListing(rules, sessions.answers[k])
      ensures Valid() && failed != Some(Conflict) && old(sessions.answers) <= sessions.answers
      ensures Grows(old(repository.versions), repository.versions, old(repository.commits), repository.commits)
      ensures failed.None? ==>
                && Prepared(spec, current, draft) && (spec.explicitId.Some? ==> current.Some?)
                && ReadFromSource(inputs, client, sessions.answers, |old(sessions.answers)|)
                && |sessions.answers| == |old(sessions.answers)| + 2
                && inputs == Inputs(spec, client, inputs.snapshots, inputs.binding, PreservesAgents(spec, current), now)
                && SelectedFrom(spec, client, current, repository.lookups, |old(repository.lookups)|)
                && DraftOf(draft, now, spec.source, client)
                && (Implicit(spec) ==> NoneReady(repository.commits, Target(current, draft)))
    {
      hide RowsOk, OncePerSession, LogOk, NoneReady;
      current, draft, inputs :| true;
      var acceptable: bool := *;
      if !acceptable {
        troubled := true;
        return Some(Refused), current, draft, inputs;
      }
      repository.Interfere();
      var selected := SelectInitial(spec, client);
      if selected.NotSelected? {
        return Some(selected.error), current, draft, inputs;
      }
      current := selected.current;
      var preserve := spec.explicitId.Some? || ((spec.mode == Automatic || spec.mode == Budget) && current.Some?);
      var drafted := NewPacket(now, spec.source, client);
      if drafted.None? {
        return Some(Fault), current, draft, inputs;
      }
      var snapshots := CurrentSnapshots(client);
      if snapshots.None? {
        return Some(Fault), current, draft, inputs;
      }
      var binding := sessions.Binding(client);
      if binding.None? {
        return Some(Fault), current, draft, inputs;
      }
      draft := drafted.value;
      inputs := Inputs(spec, client, snapshots.value, binding.value, preserve, now);
      if Implicit(spec) {
        NotReadyYet(current, draft);
      }
      return None, current, draft, inputs;
    }

    /** The loop of attempts, from what was gathered. */
    method TryUntilSaved(i: Inputs, first: Option<Record>, draft: Packet, ghost selected: Option<Record>)
      returns (r: Outcome, attempts: nat, ghost t: Trace)
      requires Valid() && Prepared(i.spec, first, draft) && DraftOf(draft, i.now, i.spec.source, i.client)
      modifies repository, sessions, this`troubled
      ensures r.Failed? ==> r.error == Conflict || Excused() || (r.error == NotFound && i.spec.explicitId.Some?)
      ensures Valid() && old(sessions.answers) <= sessions.answers && old(repository.commits) <= repository.commits
      ensures Grows(old(repository.versions), repository.versions, old(repository.commits), repository.commits)
      ensures attempts <= MAX_CONFLICT_RETRIES + 1 && (r == Failed(Conflict) ==> attempts == MAX_CONFLICT_RETRIES + 1)
      ensures repository.lookups == old(repository.lookups)
      ensures r.Saved? ==>
                && |repository.commits| > |old(repository.commits)| && |old(sessions.answers)| <= t.from <= |sessions.answers|
                && t.inputs == i && t.selected == selected && DraftOf(t.draft, i.now, i.spec.source, i.client)
                && CommittedAsBuilt(rules, i.spec, r.record, t, repository.commits, sessions.answers)
      ensures r.Saved? && Implicit(i.spec) && NoneReady(old(repository.commits), Target(first, draft)) ==>
                NoneReady(old(repository.commits), r.record.packet.id)
    {
      hide Build, RowsOk, LogOk, NoneReady, LookedAt, CommittedAsBuilt, IsVersion, Unused, Grows, Implicit, Merged,
        DraftOf;
      attempts := 0;
      t :| true;
      var current, latest := first, draft;
      GrowsFrom(repository.versions, repository.commits);
      while true
        invariant Valid() && Prepared(i.spec, current, latest) && DraftOf(latest, i.now, i.spec.source, i.client)
        invariant Grows(old(repository.versions), repository.versions, old(repository.commits), repository.commits)
        invariant old(repository.commits) <= repository.commits && old(sessions.answers) <= sessions.answers
        invariant attempts <= MAX_CONFLICT_RETRIES && repository.lookups == old(repository.lookups)
        invariant NoneReady(old(repository.commits), Target(first, draft)) ==>
                    NoneReady(old(repository.commits), Target(current, latest))
        decreases MAX_CONFLICT_RETRIES - attempts
      {
        var lapsed: bool := *;
        if lapsed {
          troubled := true;
          return Failed(Fault), attempts, t;
        }
        ghost var from, versions, commits := |sessions.answers|, repository.versions, repository.commits;
        var stored, id;
        ghost var closed;
        stored, id, closed := Attempt(i, current, latest);
        attempts, t := attempts + 1, Trace(selected, i, latest, closed, from);
        GrowsOn(old(repository.versions), versions, repository.versions, old(repository.commits), commits, repository.commits);
        if stored.Written? {
          BuildKeepsIdentity(rules, i, current, latest, closed);
          AsBuilt(i.spec, current, stored.record, t, repository.commits, sessions.answers);
          return Saved(stored.record), attempts, t;
        }
        if stored.error != Conflict || attempts > MAX_CONFLICT_RETRIES {
          return Failed(stored.error), attempts, t;
        }
        versions, commits := repository.versions, repository.commits;
        var reloaded;
        reloaded, latest := Reload(i.spec, i.client, i.now, id, latest);
        GrowsOn(old(repository.versions), versions, repository.versions, old(repository.commits), commits, repository.commits);
        if reloaded.NotSelected? {
          return Failed(reloaded.error), attempts, t;
        }
        if reloaded.current.None? {
          NotReadyYet(None, latest);
          EarlierNotReady(old(repository.commits), repository.commits, latest.id);
        }
        current := reloaded.current;
      }
    }

    /** persist: a write that succeeds committed the packet built from exactly the record version it
        replaced, so nothing another writer committed is lost; at most nine attempts; an explicit
        identity is the one written. The agents are those of what the session source said: the open
        sessions and the binding read at the start, and, for prior agents, exactly the answers of the
        last attempt. An implicit checkpoint or handoff continues a packet that is ready to resume
        exactly if another writer made it ready during the call. */
    method Persist(spec: Spec, client: Client, now: Time)
      returns (r: Outcome, attempts: nat, ghost t: Trace)
      requires Valid()
      modifies repository, sessions, this`troubled
      // It fails only after nine conflicts, or where something it needs failed or was refused, the sessions
      // listed were not valid, or the record named is not there.
      ensures r.Failed? ==>
                || (r.error == Conflict && attempts == MAX_CONFLICT_RETRIES + 1)
                || Excused() || (r.error == NotFound && spec.explicitId.Some?)
                || exists k | |old(sessions.answers)| <= k < |sessions.answers| :: BadListing(rules, sessions.answers[k])
      ensures Valid() && old(sessions.answers) <= sessions.answers
      ensures Grows(old(repository.versions), repository.versions, old(repository.commits), repository.commits)
      ensures attempts <= MAX_CONFLICT_RETRIES + 1 && (r == Failed(Conflict) ==> attempts == MAX_CONFLICT_RETRIES + 1)
      ensures r.Saved? ==>
                && |repository.commits| > |old(repository.commits)| && |old(sessions.answers)| + 2 <= t.from <= |sessions.answers|
                && CommittedAsBuilt(rules, spec, r.record, t, repository.commits, sessions.answers)
                && t.inputs == Inputs(spec, client, t.inputs.snapshots, t.inputs.binding, PreservesAgents(spec, t.selected), now)
                && ReadFromSource(t.inputs, client, sessions.answers, |old(sessions.answers)|)
                && SelectedFrom(spec, client, t.selected, repository.lookups, |old(repository.lookups)|)
                && DraftOf(t.draft, now, spec.source, client)
      ensures r.Saved? && Implicit(spec) ==>
                (ContinuesReady(repository.commits[|repository.commits| - 1]) <==>
                 exists k | |old(repository.commits)| <= k < |repository.commits| - 1 ::
                   LeavesReady(repository.commits[k], r.record.packet.id))
    {
      hide RowsOk, LogOk, NoneReady, ReadFromSource, IsVersion, Unused, Grows, LeavesReady, PreservesAgents, Implicit,
        ContinuesReady, Prepared, LookedAt, SelectedFrom, Build;
      attempts := 0;
      t :| true;
      var failed, current, draft, inputs := Gather(spec, client, now);
      if failed.Some? {
        return Failed(failed.value), attempts, t;
      }
      ghost var early, versions, read := repository.commits, repository.versions, sessions.answers;
      GrowsMeans(old(repository.versions), versions, old(repository.commits), early);
      r, attempts, t := TryUntilSaved(inputs, current, draft, current);
      GrowsOn(old(repository.versions), versions, repository.versions, old(repository.commits), early, repository.commits);
      if r.Saved? {
        SourceWasRead(inputs, client, read, sessions.answers, |old(sessions.answers)|);
        MadeReady(early, |old(repository.commits)|, r.record.packet.id);
      }
    }

    lemma AsBuilt(spec: Spec, current: Option<Record>, record: Record, t: Trace, commits: seq<Commit>, answers: seq<Answer>)
      requires commits != [] && t.from <= |answers| && commits[|commits| - 1] == Commit(current, record)
      requires Build(rules, t.inputs, current, t.draft, t.closed) == Some(record.packet)
      requires LookedAt(t.inputs, current, t.closed, answers[t.from..])
      requires spec.explicitId.Some? ==> current.Some? && record.packet.id == spec.explicitId.value
      ensures CommittedAsBuilt(rules, spec, record, t, commits, answers)
    {
      hide Build, LookedAt;
    }

    /** The last commit replaced a ready record exactly if a commit since `since` left it ready, when
        none of the earlier ones did. */
    lemma MadeReady(early: seq<Commit>, since: nat, id: Id)
      requires Valid() && since <= |early| < |repository.commits| && early <= repository.commits
      requires repository.commits[|repository.commits| - 1].written.packet.id == id
      ensures var commits := repository.commits;
              NoneReady(early, id) ==>
                (ContinuesReady(commits[|commits| - 1]) <==>
                 exists k | since <= k < |commits| - 1 :: LeavesReady(commits[k], id))
    {
      var commits, n := repository.commits, |repository.commits| - 1;
      CommitsPrefix(commits, repository.versions, n);
      ReadyMeans(commits[..n], repository.versions, id);
      assert CommitOk(commits, repository.versions, n);
      if NoneReady(early, id) && !NoneReady(commits[..n], id) {
        var k :| 0 <= k < n && LeavesReady(commits[..n][k], id);
        assert since <= k && LeavesReady(commits[k], id);
      }
      if k :| since <= k < n && LeavesReady(commits[k], id) {
        assert LeavesReady(commits[..n][k], id);
      }
    }
  }

  lemma EarlierNotReady(early: seq<Commit>, commits: seq<Commit>, id: Id)
    requires early <= commits && NoneReady(commits, id)
    ensures NoneReady(early, id)
  {
    forall k | 0 <= k < |early|
      ensures !LeavesReady(early[k], id)
    {
      assert early[k] == commits[k];
    }
  }

  lemma SourceWasRead(i: Inputs, client: Client, read: seq<Answer>, answers: seq<Answer>, at: nat)
    requires ReadFromSource(i, client, read, at) && read <= answers
    ensures ReadFromSource(i, client, answers, at)
  {
  }

  lemma NothingMerged(current: seq<Snapshot>, closed: set<SessionId>)
    ensures MergePrior([], current, closed) == [] && Seen([], current, closed) == {} && Sessions([]) == {}
  {
  }

  lemma NoCurrent(merged: seq<Snapshot>, seen: set<SessionId>)
    ensures MergeCurrent(merged, seen, []) == merged && Sessions([]) == {}
  {
  }

  // ----- A ready packet continued -----

  function Accepting(): Rules {
    Rules(s => Some(s), p => Some("seed"), p => true, x => true)
  }

  function Asks(mode: Mode, finalize: bool, named: Option<Id>, client: Client): Inputs {
    var nothing := Patch(None, None, None, None, None, None, None, None, None, None, None);
    Inputs(Spec(named, nothing, Source.Model, mode, finalize, false, false, ""), client, [], None, named.Some?, 1)
  }

  /** One interfering finalize: an implicit checkpoint selects a packet that is not ready, another writer
      finalizes it, the compare-exchange conflicts, the record read again is ready, and the second
      attempt commits on top of it. */
  lemma FinalizedInBetween() returns (commits: seq<Commit>, versions: Versions)
    ensures |commits| == 3 && forall k | 0 <= k < 3 :: CommitOk(commits, versions, k)
    ensures var base, finished, last := commits[0].written, commits[1].written, commits[2];
            var checkpoint := Asks(Checkpoint, false, None, 7);
            && !base.packet.resumeReady && IsLatest(map[1 := base], 7, Some(base)) && Implicit(checkpoint.spec)
            && Build(Accepting(), Asks(Handoff, true, Some(1), 7), Some(base), base.packet, {}) == Some(finished.packet)
            && !Stands(map[1 := finished], 1, Some(base.writeSequence))
            && Stands(map[1 := finished], 1, Some(finished.writeSequence))
            && last.replaced == Some(finished)
            && Build(Accepting(), checkpoint, last.replaced, base.packet, {}) == Some(last.written.packet)
            && LeavesReady(commits[1], 1) && ContinuesReady(last)
  {
    hide Build, IsLatestAmong;
    var start := NewDraft(1, 0, Source.Model, 7);
    var base := Record(start, 1);
    var finalize, checkpoint := Asks(Handoff, true, Some(1), 7), Asks(Checkpoint, false, None, 7);
    AcceptingBuilds(finalize, Some(base), start);
    BuildKeepsIdentity(Accepting(), finalize, Some(base), start, {});
    var finished := Record(Build(Accepting(), finalize, Some(base), start, {}).value, 2);
    AcceptingBuilds(checkpoint, Some(finished), start);
    BuildKeepsIdentity(Accepting(), checkpoint, Some(finished), start, {});
    var last := Record(Build(Accepting(), checkpoint, Some(finished), start, {}).value, 3);
    commits := [Commit(None, base), Commit(Some(base), finished), Commit(Some(finished), last)];
    versions := map[(1, 1) := base.packet, (1, 2) := finished.packet, (1, 3) := last.packet];
    ThreeCommits(base, finished, last);
    OneIsLatest(base, 7);
  }

  lemma AcceptingBuilds(i: Inputs, current: Option<Record>, draft: Packet)
    ensures Build(Accepting(), i, current, draft, {}).Some?
  {
    hide Signed, PatchedTexts, PatchedLists, WithAgents, Bound, Canonical;
  }

  lemma OneIsLatest(base: Record, client: Client)
    requires base.packet.clientId == Some(client)
    ensures IsLatest(map[base.packet.id := base], client, Some(base))
  {
  }

  lemma ThreeCommits(base: Record, finished: Record, last: Record)
    requires base.packet.id == finished.packet.id == last.packet.id == 1
    requires base.writeSequence == 1 && finished.writeSequence == 2 && last.writeSequence == 3
    requires !base.packet.resumeReady && finished.packet.resumeReady && last.packet.resumeReady
    ensures var commits := [Commit(None, base), Commit(Some(base), finished), Commit(Some(finished), last)];
            var versions: Versions := map[(1, 1) := base.packet, (1, 2) := finished.packet, (1, 3) := last.packet];
            forall k | 0 <= k < 3 :: CommitOk(commits, versions, k)
  {
    var commits := [Commit(None, base), Commit(Some(base), finished), Commit(Some(finished), last)];
    assert commits[..2][..1] == commits[..1] && commits[..1][..0] == [];
  }
}
