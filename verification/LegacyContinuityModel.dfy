// Handoff packets as values: the packet a write builds from a record, a patch and what is open,
// and the merged list of agents.

module LegacyContinuityModel {
  import opened Options

  type Id = nat        // handoff identities, from one generator
  type SessionId = nat
  type Client = nat
  type Time = int      // ticks of 100 ns since 1970, as the Windows system clock counts

  const TICKS_PER_MILLISECOND: nat := 10_000
  const MAX_AGENTS: nat := 128
  const MAX_CONFLICT_RETRIES: nat := 8

  /** `detail` stands for every field of a snapshot but its session and its time. */
  datatype Snapshot = Snapshot(session: SessionId, updatedAt: Option<Time>, detail: nat)

  datatype Source = Model | BudgetSource | User | AutomaticSource

  datatype Packet = Packet(
    id: Id, createdAt: Time, updatedAt: Time, source: Source, resumeReady: bool, chatLabel: Option<string>,
    clientId: Option<Client>, goal: string, status: string, projectSlug: Option<string>, workingDirectory: Option<string>,
    blockers: seq<string>, nextActions: seq<string>, keyFiles: seq<string>, decisions: seq<string>, agents: seq<Snapshot>,
    narrative: string, resumeSeed: string, resumeSeedIsCustom: bool)

  datatype Patch = Patch(
    goal: Option<string>, status: Option<string>, projectSlug: Option<string>, workingDirectory: Option<string>,
    chatLabel: Option<string>, narrative: Option<string>, resumeSeed: Option<string>, blockers: Option<seq<string>>,
    nextActions: Option<seq<string>>, keyFiles: Option<seq<string>>, decisions: Option<seq<string>>)

  datatype Mode = Checkpoint | Handoff | Automatic | Budget

  datatype Spec = Spec(explicitId: Option<Id>, patch: Patch, source: Source, mode: Mode, finalize: bool,
                       preserveAuthorIdentity: bool, fillOnly: bool, reason: string)

  datatype Binding = Binding(goal: string, workingDirectory: Option<string>)

  datatype Record = Record(packet: Packet, writeSequence: nat)

  /** What the domain decides about texts and packets; each may refuse. */
  datatype Rules = Rules(truncate: string -> Option<string>, seed: Packet -> Option<string>, valid: Packet -> bool,
                         openSnapshot: Snapshot -> bool)

  /** What one write works with. */
  datatype Inputs = Inputs(spec: Spec, client: Client, snapshots: seq<Snapshot>, binding: Option<Binding>,
                           preservePriorAgents: bool, now: Time)

  // ----- The merged list of agents -----

  function Sessions(s: seq<Snapshot>): set<SessionId> {
    set x | x in s :: x.session
  }

  /** The first snapshot of a session. */
  function Find(s: seq<Snapshot>, id: SessionId): (r: Option<Snapshot>)
    ensures r.Some? ==> r.value in s && r.value.session == id
    ensures r.None? ==> forall x | x in s :: x.session != id
  {
    if s == [] then None else if s[0].session == id then Some(s[0]) else Find(s[1..], id)
  }

  /** Prior snapshots in order, each once, without the closed ones, in their current form. */
  function MergePrior(prior: seq<Snapshot>, current: seq<Snapshot>, closed: set<SessionId>): seq<Snapshot> {
    if prior == [] then []
    else
      var before := MergePrior(prior[..|prior| - 1], current, closed);
      var last := prior[|prior| - 1];
      if |before| >= MAX_AGENTS || last.session in Sessions(prior[..|prior| - 1]) || last.session in closed then before
      else before + [if Find(current, last.session).Some? then Find(current, last.session).value else last]
  }

  /** Then the current ones not seen before, up to the cap. */
  function MergeCurrent(merged: seq<Snapshot>, seen: set<SessionId>, current: seq<Snapshot>): seq<Snapshot> {
    if current == [] then merged
    else
      var before := MergeCurrent(merged, seen, current[..|current| - 1]);
      var last := current[|current| - 1];
      if |before| >= MAX_AGENTS || last.session in seen || last.session in Sessions(current[..|current| - 1]) then before
      else before + [last]
  }

  /** The prior sessions the loop looked at before the list was full. */
  function Seen(prior: seq<Snapshot>, current: seq<Snapshot>, closed: set<SessionId>): set<SessionId> {
    if prior == [] then {}
    else if |MergePrior(prior[..|prior| - 1], current, closed)| >= MAX_AGENTS then Seen(prior[..|prior| - 1], current, closed)
    else Seen(prior[..|prior| - 1], current, closed) + {prior[|prior| - 1].session}
  }

  function Merged(prior: seq<Snapshot>, current: seq<Snapshot>, closed: set<SessionId>): seq<Snapshot> {
    MergeCurrent(MergePrior(prior, current, closed), Seen(prior, current, closed), current)
  }

  predicate OncePerSession(s: seq<Snapshot>) {
    forall i, j | 0 <= i < j < |s| :: s[i].session != s[j].session
  }

  lemma {:induction false} MergePriorIs(prior: seq<Snapshot>, current: seq<Snapshot>, closed: set<SessionId>)
    ensures var m := MergePrior(prior, current, closed);
            && OncePerSession(m) && |m| <= MAX_AGENTS
            && (forall x | x in m :: x.session in Sessions(prior) && x.session !in closed)
            && (forall x | x in m :: x.session in Seen(prior, current, closed))
            && (forall x | x in m :: if Find(current, x.session).Some? then x == Find(current, x.session).value else x in prior)
    ensures Seen(prior, current, closed) <= Sessions(prior)
  {
    if prior != [] {
      var front, last := prior[..|prior| - 1], prior[|prior| - 1];
      MergePriorIs(front, current, closed);
      assert prior == front + [last];
      var before := MergePrior(front, current, closed);
      var m := MergePrior(prior, current, closed);
      if m != before {
        var added := m[|before|];
        assert m == before + [added] && added.session == last.session;
        forall i | 0 <= i < |before|
          ensures before[i].session != added.session
        {
          assert before[i] in before;
        }
      }
    }
  }

  lemma {:induction false} MergeCurrentIs(merged: seq<Snapshot>, seen: set<SessionId>, current: seq<Snapshot>)
    requires OncePerSession(merged) && |merged| <= MAX_AGENTS && forall x | x in merged :: x.session in seen
    ensures var m := MergeCurrent(merged, seen, current);
            && OncePerSession(m) && |m| <= MAX_AGENTS && merged <= m
            && (forall x | x in m :: x in merged || (x in current && x.session !in seen && x == Find(current, x.session).value))
            && (forall x | x in current && x.session !in seen :: |m| == MAX_AGENTS || x.session in Sessions(m))
  {
    if current != [] {
      var front, last := current[..|current| - 1], current[|current| - 1];
      MergeCurrentIs(merged, seen, front);
      assert current == front + [last];
      var before := MergeCurrent(merged, seen, front);
      var m := MergeCurrent(merged, seen, current);
      FindFirst(front, last);
      if m != before {
        assert m == before + [last];
        forall i | 0 <= i < |before|
          ensures before[i].session != last.session
        {
          assert before[i] in before;
        }
      }
    }
  }

  /** A later snapshot does not change the first one of a session. */
  lemma {:induction false} FindFirst(s: seq<Snapshot>, x: Snapshot)
    ensures forall id :: Find(s, id).Some? ==> Find(s + [x], id) == Find(s, id)
    ensures Find(s, x.session).None? ==> Find(s + [x], x.session) == Some(x)
  {
    if s != [] {
      FindFirst(s[1..], x);
      assert (s + [x])[1..] == s[1..] + [x];
    } else {
      assert ([x])[1..] == [];
    }
  }

  /** The merged list has no session twice, is within the cap, omits prior sessions found closed,
      shows a session in its current form where it has one, and holds nothing else; and every open
      session of the current list is in it unless it is full. */
  lemma MergedIsSound(prior: seq<Snapshot>, current: seq<Snapshot>, closed: set<SessionId>)
    ensures var m := Merged(prior, current, closed);
            && OncePerSession(m) && |m| <= MAX_AGENTS
            && (forall x | x in m :: x.session in closed ==> x.session !in Seen(prior, current, closed))
            && (forall x | x in m :: if Find(current, x.session).Some? then x == Find(current, x.session).value else x in prior)
            && (forall x | x in current && x.session !in closed :: |m| == MAX_AGENTS || x.session in Sessions(m))
  {
    MergePriorIs(prior, current, closed);
    var merged, seen := MergePrior(prior, current, closed), Seen(prior, current, closed);
    MergeCurrentIs(merged, seen, current);
    SeenIsKept(prior, current, closed);
    var m := Merged(prior, current, closed);
    forall x | x in current && x.session !in closed
      ensures |m| == MAX_AGENTS || x.session in Sessions(m)
    {
      if x.session in seen {
        assert |merged| == MAX_AGENTS || x.session in Sessions(merged);
        if x.session in Sessions(merged) {
          var y :| y in merged && y.session == x.session;
          assert y in m;
        }
      }
    }
  }

  /** A prior session that was looked at and is open has its place in the list. */
  lemma {:induction false} SeenIsKept(prior: seq<Snapshot>, current: seq<Snapshot>, closed: set<SessionId>)
    ensures forall id | id in Seen(prior, current, closed) && id !in closed ::
              id in Sessions(MergePrior(prior, current, closed))
    ensures forall id | id in Sessions(prior) && id !in Seen(prior, current, closed) ::
              |MergePrior(prior, current, closed)| == MAX_AGENTS
  {
    if prior != [] {
      var front, last := prior[..|prior| - 1], prior[|prior| - 1];
      SeenIsKept(front, current, closed);
      MergePriorIs(front, current, closed);
      assert prior == front + [last];
      var before, m := MergePrior(front, current, closed), MergePrior(prior, current, closed);
      assert before <= m;
      assert forall x | x in before :: x in m;
      if |before| < MAX_AGENTS && last.session !in closed && last.session !in Sessions(front) {
        assert m[|before|].session == last.session && m[|before|] in m;
      }
    }
  }

  // ----- The current list in order of session -----

  function InsertBySession(x: Snapshot, s: seq<Snapshot>): seq<Snapshot> {
    if s == [] then [x] else if x.session < s[0].session then [x] + s else [s[0]] + InsertBySession(x, s[1..])
  }

  function SortedBySession(s: seq<Snapshot>): seq<Snapshot> {
    if s == [] then [] else InsertBySession(s[|s| - 1], SortedBySession(s[..|s| - 1]))
  }

  predicate InOrder(s: seq<Snapshot>) {
    forall i, j | 0 <= i < j < |s| :: s[i].session <= s[j].session
  }

  lemma {:induction false} InsertKeepsAll(x: Snapshot, s: seq<Snapshot>)
    ensures multiset(InsertBySession(x, s)) == multiset(s) + multiset{x}
  {
    if s != [] {
      assert s == [s[0]] + s[1..];
      InsertKeepsAll(x, s[1..]);
    }
  }

  lemma {:induction false} InsertKeepsOrder(x: Snapshot, s: seq<Snapshot>)
    requires InOrder(s)
    ensures InOrder(InsertBySession(x, s))
  {
    if s != [] && x.session >= s[0].session {
      InsertKeepsOrder(x, s[1..]);
      var t := InsertBySession(x, s[1..]);
      InsertKeepsAll(x, s[1..]);
      forall i | 0 <= i < |t|
        ensures s[0].session <= t[i].session
      {
        hide InOrder;
        assert t[i] in multiset(t);
        assert t[i] == x || t[i] in s[1..];
      }
    }
  }

  /** Sorting keeps the snapshots and puts them in order of session. */
  lemma {:induction false} SortedBySessionIs(s: seq<Snapshot>)
    ensures var t := SortedBySession(s); InOrder(t) && multiset(t) == multiset(s) && |t| == |s|
  {
    if s != [] {
      var front, last := s[..|s| - 1], s[|s| - 1];
      assert s == front + [last];
      SortedBySessionIs(front);
      hide InOrder, InsertBySession;
      InsertKeepsAll(last, SortedBySession(front));
      InsertKeepsOrder(last, SortedBySession(front));
    }
  }

  lemma {:induction false} InsertKeepsOnce(x: Snapshot, s: seq<Snapshot>)
    requires OncePerSession(s) && x.session !in Sessions(s)
    ensures var t := InsertBySession(x, s); OncePerSession(t) && Sessions(t) == Sessions(s) + {x.session}
  {
    if s != [] {
      assert s == [s[0]] + s[1..];
      if x.session >= s[0].session {
        InsertKeepsOnce(x, s[1..]);
        var t := InsertBySession(x, s[1..]);
        forall i | 0 <= i < |t|
          ensures t[i].session != s[0].session
        {
          assert t[i].session in Sessions(t);
        }
      }
    }
  }

  lemma {:induction false} SortingKeepsOnce(s: seq<Snapshot>)
    requires OncePerSession(s)
    ensures OncePerSession(SortedBySession(s)) && Sessions(SortedBySession(s)) == Sessions(s)
  {
    if s != [] {
      var front, last := s[..|s| - 1], s[|s| - 1];
      assert s == front + [last];
      SortingKeepsOnce(front);
      InsertKeepsOnce(last, SortedBySession(front));
    }
  }

  // ----- The two loops of the merge -----

  /** Whether a session not yet reached is closed does not matter yet. */
  lemma {:induction false} ClosedLater(prior: seq<Snapshot>, current: seq<Snapshot>, closed: set<SessionId>, id: SessionId)
    requires id !in Sessions(prior)
    ensures MergePrior(prior, current, closed + {id}) == MergePrior(prior, current, closed)
    ensures Seen(prior, current, closed + {id}) == Seen(prior, current, closed)
  {
    if prior != [] {
      var front, last := prior[..|prior| - 1], prior[|prior| - 1];
      assert prior == front + [last] && last in prior;
      assert Sessions(front) <= Sessions(prior);
      ClosedLater(front, current, closed, id);
    }
  }

  /** One more prior snapshot while the list is not full. */
  lemma PriorStep(prior: seq<Snapshot>, i: nat, current: seq<Snapshot>, closed: set<SessionId>)
    requires i < |prior| && |MergePrior(prior[..i], current, closed)| < MAX_AGENTS
    ensures var before, x := MergePrior(prior[..i], current, closed), prior[i];
            && MergePrior(prior[..i + 1], current, closed) ==
               (if x.session in Sessions(prior[..i]) || x.session in closed then before
                else before + [if Find(current, x.session).Some? then Find(current, x.session).value else x])
            && Seen(prior[..i + 1], current, closed) == Seen(prior[..i], current, closed) + {x.session}
            && Sessions(prior[..i + 1]) == Sessions(prior[..i]) + {x.session}
  {
    assert prior[..i + 1][..i] == prior[..i] && prior[..i + 1] == prior[..i] + [prior[i]];
  }

  /** Once the list is full, the rest of the prior snapshots is not looked at. */
  lemma {:induction false} PriorFull(prior: seq<Snapshot>, i: nat, current: seq<Snapshot>, closed: set<SessionId>)
    requires i <= |prior| && |MergePrior(prior[..i], current, closed)| >= MAX_AGENTS
    ensures MergePrior(prior, current, closed) == MergePrior(prior[..i], current, closed)
    ensures Seen(prior, current, closed) == Seen(prior[..i], current, closed)
    decreases |prior| - i
  {
    if i == |prior| {
      assert prior[..i] == prior;
    } else {
      assert prior[..i + 1][..i] == prior[..i];
      PriorFull(prior, i + 1, current, closed);
    }
  }

  lemma CurrentStep(merged: seq<Snapshot>, seen: set<SessionId>, current: seq<Snapshot>, i: nat)
    requires i < |current| && |MergeCurrent(merged, seen, current[..i])| < MAX_AGENTS
    ensures var before, x := MergeCurrent(merged, seen, current[..i]), current[i];
            MergeCurrent(merged, seen, current[..i + 1]) ==
            if x.session in seen || x.session in Sessions(current[..i]) then before else before + [x]
    ensures Sessions(current[..i + 1]) == Sessions(current[..i]) + {current[i].session}
  {
    assert current[..i + 1][..i] == current[..i] && current[..i + 1] == current[..i] + [current[i]];
  }

  lemma {:induction false} CurrentFull(merged: seq<Snapshot>, seen: set<SessionId>, current: seq<Snapshot>, i: nat)
    requires i <= |current| && |MergeCurrent(merged, seen, current[..i])| >= MAX_AGENTS
    ensures MergeCurrent(merged, seen, current) == MergeCurrent(merged, seen, current[..i])
    decreases |current| - i
  {
    if i == |current| {
      assert current[..i] == current;
    } else {
      assert current[..i + 1][..i] == current[..i];
      CurrentFull(merged, seen, current, i + 1);
    }
  }

  // ----- The packet a write builds -----

  predicate OccursAt(text: string, part: string, i: int) {
    0 <= i <= |text| - |part| && text[i..i + |part|] == part
  }

  predicate Contains(text: string, part: string) {
    exists i | 0 <= i <= |text| - |part| :: OccursAt(text, part, i)
  }

  function WithNote(rules: Rules, existing: string, note: string): Option<string> {
    if Contains(existing, note) then Some(existing)
    else rules.truncate(if existing == "" then note else existing + "\n\n" + note)
  }

  predicate Blank(s: Option<string>) { s.None? || s.value == "" }

  /** The author of the packet. */
  function Signed(i: Inputs, current: Option<Record>, p: Packet): Packet {
    var a := if current.None? || !(i.spec.preserveAuthorIdentity && !i.spec.finalize) then p.(source := i.spec.source) else p;
    if current.None? || !i.spec.preserveAuthorIdentity || a.clientId.None? then a.(clientId := Some(i.client)) else a
  }

  /** The fields of the patch that are texts. */
  function PatchedTexts(s: Spec, p: Packet): Packet {
    var q := s.patch;
    p.(goal := if q.goal.Some? && q.goal.value != "" && (!s.fillOnly || p.goal == "") then q.goal.value else p.goal,
       status := if q.status.Some? && q.status.value != "" && (!s.fillOnly || p.status == "") then q.status.value else p.status,
       projectSlug := if q.projectSlug.Some? && (!s.fillOnly || Blank(p.projectSlug)) then q.projectSlug else p.projectSlug,
       workingDirectory := if q.workingDirectory.Some? && ((!s.fillOnly && s.mode != Budget) || Blank(p.workingDirectory))
                           then q.workingDirectory else p.workingDirectory,
       chatLabel := if q.chatLabel.Some? && (!s.fillOnly || Blank(p.chatLabel)) then q.chatLabel else p.chatLabel)
  }

  /** The narrative of the patch where it applies, cut by the domain. */
  function Told(rules: Rules, s: Spec, narrative: string): Option<string> {
    if s.patch.narrative.Some? && ((!s.fillOnly && s.mode != Budget) || narrative == "")
    then rules.truncate(s.patch.narrative.value)
    else Some(narrative)
  }

  function PatchedNarrative(rules: Rules, s: Spec, p: Packet): Option<Packet> {
    match Told(rules, s, p.narrative)
    case None => None
    case Some(text) => Some(p.(narrative := text))
  }

  /** The resume seed and the lists of the patch. */
  function PatchedLists(s: Spec, p: Packet): Packet {
    var q := s.patch;
    var a := if q.resumeSeed.Some? && (!s.fillOnly || p.resumeSeed == "")
             then p.(resumeSeed := q.resumeSeed.value, resumeSeedIsCustom := q.resumeSeed.value != "") else p;
    a.(blockers := if q.blockers.Some? && (!s.fillOnly || p.blockers == []) then q.blockers.value else p.blockers,
       nextActions := if q.nextActions.Some? && (!s.fillOnly || p.nextActions == []) then q.nextActions.value else p.nextActions,
       keyFiles := if q.keyFiles.Some? && ((!s.fillOnly && s.mode != Budget) || p.keyFiles == []) then q.keyFiles.value
                   else p.keyFiles,
       decisions := if q.decisions.Some? && (!s.fillOnly || p.decisions == []) then q.decisions.value else p.decisions)
  }

  function WithAgents(i: Inputs, current: Option<Record>, closed: set<SessionId>, p: Packet): Packet {
    p.(agents := if i.preservePriorAgents && current.Some? then Merged(current.value.packet.agents, i.snapshots, closed)
                 else i.snapshots)
  }

  /** The active binding fills what is still missing. */
  function Bound(b: Option<Binding>, p: Packet): Packet {
    if b.None? then p
    else
      p.(goal := if p.goal == "" then b.value.goal else p.goal,
         workingDirectory := if Blank(p.workingDirectory) && b.value.workingDirectory.Some? then b.value.workingDirectory
                             else p.workingDirectory)
  }

  function Restart(): (actions: seq<string>)
    ensures actions != []
  {
    ["Start a new chat if context is full", "Call context_get", "Continue from open agents"]
  }

  function DefaultGoal(s: Spec): string {
    (if s.mode == Automatic && s.finalize then "Auto-handoff: " else "Auto-checkpoint: ") + s.reason
  }

  function ModeNote(s: Spec): string {
    (if s.mode == Budget then "Budget trigger: " else "Runtime continuity: ") + s.reason
  }

  const READY: string := "handoff_ready"

  function AutomaticDefaults(rules: Rules, s: Spec, p: Packet): Option<Packet> {
    if s.mode != Automatic && s.mode != Budget then Some(p)
    else
      var a := if s.mode == Automatic && s.finalize && s.patch.status.None? then p.(status := READY) else p;
      var b := if a.goal == "" then a.(goal := DefaultGoal(s)) else a;
      var c := if s.mode == Budget && b.nextActions == [] then b.(nextActions := Restart()) else b;
      if s.mode == Automatic && !s.finalize then Some(c)
      else
        match WithNote(rules, c.narrative, ModeNote(s))
        case None => None
        case Some(text) => Some(c.(narrative := text))
  }

  /** A time cut to milliseconds, towards 1970. */
  function Millis(t: Time): Time {
    if t >= 0 then t - t % TICKS_PER_MILLISECOND else -(-t - -t % TICKS_PER_MILLISECOND)
  }

  function Cut(x: Snapshot): Snapshot {
    x.(updatedAt := if x.updatedAt.Some? then Some(Millis(x.updatedAt.value)) else None)
  }

  function CutAll(s: seq<Snapshot>): (r: seq<Snapshot>)
    ensures |r| == |s| && forall k | 0 <= k < |s| :: r[k] == Cut(s[k])
  {
    seq(|s|, k requires 0 <= k < |s| => Cut(s[k]))
  }

  /** The packet with its times as they are stored. */
  function Canonical(p: Packet): Packet {
    p.(createdAt := Millis(p.createdAt), updatedAt := Millis(p.updatedAt), agents := CutAll(p.agents))
  }

  function Seeded(rules: Rules, s: Spec, p: Packet): Option<Packet> {
    var a := if s.finalize then p.(resumeReady := true) else p;
    if (s.patch.resumeSeed.None? && !a.resumeSeedIsCustom) || (s.finalize && a.resumeSeed == "") then
      match rules.seed(a)
      case None => None
      case Some(seed) => Some(a.(resumeSeed := seed, resumeSeedIsCustom := false))
    else Some(a)
  }

  /** buildPacket: `None` when a text or the packet is refused. */
  function Build(rules: Rules, i: Inputs, current: Option<Record>, draft: Packet, closed: set<SessionId>): Option<Packet> {
    var start := (if current.Some? then current.value.packet else draft).(updatedAt := i.now);
    match PatchedNarrative(rules, i.spec, PatchedTexts(i.spec, Signed(i, current, start)))
    case None => None
    case Some(told) =>
      match AutomaticDefaults(rules, i.spec, Bound(i.binding, WithAgents(i, current, closed, PatchedLists(i.spec, told))))
      case None => None
      case Some(filled) =>
        match Seeded(rules, i.spec, Canonical(filled))
        case None => None
        case Some(p) => if rules.valid(p) then Some(p) else None
  }

  // ----- What a build keeps and what it applies -----

  /** A patch says what the fields should be: applying it again changes nothing. */
  lemma TextsTwice(s: Spec, p: Packet)
    ensures var once := PatchedTexts(s, p); PatchedTexts(s, once) == once
  {
  }

  lemma ListsTwice(s: Spec, p: Packet)
    ensures var once := PatchedLists(s, p); PatchedLists(s, once) == once
  {
  }

  lemma SignedIs(i: Inputs, current: Option<Record>, p: Packet)
    ensures var r := Signed(i, current, p);
            && r == p.(source := r.source, clientId := r.clientId)
            && (if current.Some? && i.spec.preserveAuthorIdentity && p.clientId.Some? then r.clientId == p.clientId
                else r.clientId == Some(i.client))
            && (if current.Some? && i.spec.preserveAuthorIdentity && !i.spec.finalize then r.source == p.source
                else r.source == i.spec.source)
  {
  }

  lemma NarrativeIs(rules: Rules, s: Spec, p: Packet)
    requires PatchedNarrative(rules, s, p).Some?
    ensures var r := PatchedNarrative(rules, s, p).value;
            && r == p.(narrative := r.narrative) && (s.patch.narrative.None? ==> r == p)
            && Told(rules, s, p.narrative) == Some(r.narrative)
  {
  }

  lemma DefaultsAre(rules: Rules, s: Spec, p: Packet)
    requires AutomaticDefaults(rules, s, p).Some?
    ensures var r := AutomaticDefaults(rules, s, p).value;
            && r == p.(goal := r.goal, status := r.status, nextActions := r.nextActions, narrative := r.narrative)
            && (s.mode == Checkpoint || s.mode == Handoff ==> r == p)
            && (p.goal != "" ==> r.goal == p.goal) && (p.nextActions != [] ==> r.nextActions == p.nextActions)
            && (s.mode == Automatic ==> r.nextActions == p.nextActions)
            && (s.mode == Budget && p.nextActions == [] ==> r.nextActions != [])
            && (p.goal == "" && (s.mode == Automatic || s.mode == Budget) ==>
                  r.goal == (if s.mode == Automatic && s.finalize then "Auto-handoff: " else "Auto-checkpoint: ") + s.reason)
            && r.status == (if s.mode == Automatic && s.finalize && s.patch.status.None? then READY else p.status)
            && (if (s.mode == Automatic && s.finalize) || s.mode == Budget
                then WithNote(rules, p.narrative, ModeNote(s)) == Some(r.narrative)
                else r.narrative == p.narrative)
  {
    hide WithNote, ModeNote, Restart;
  }

  lemma SeededIs(rules: Rules, s: Spec, p: Packet)
    requires Seeded(rules, s, p).Some?
    ensures var r := Seeded(rules, s, p).value;
            && r == p.(resumeReady := r.resumeReady, resumeSeed := r.resumeSeed, resumeSeedIsCustom := r.resumeSeedIsCustom)
            && r.resumeReady == (s.finalize || p.resumeReady)
            && (p.resumeSeedIsCustom && p.resumeSeed != "" ==> r.resumeSeed == p.resumeSeed)
            && (if Reseeds(s, p)
                then !r.resumeSeedIsCustom && rules.seed(p.(resumeReady := r.resumeReady)) == Some(r.resumeSeed)
                else r.resumeSeed == p.resumeSeed && r.resumeSeedIsCustom == p.resumeSeedIsCustom)
  {
  }

  /** The resume seed is made anew: nobody wrote it, or it is missing where one is needed. */
  predicate Reseeds(s: Spec, p: Packet) {
    (s.patch.resumeSeed.None? && !p.resumeSeedIsCustom) || (s.finalize && p.resumeSeed == "")
  }

  /** The packet before the narrative, and after each later stage of a build. */
  lemma Stages(rules: Rules, i: Inputs, current: Option<Record>, draft: Packet, closed: set<SessionId>)
    returns (a: Packet, b: Packet, c: Packet, d: Packet, e: Packet)
    requires Build(rules, i, current, draft, closed).Some?
    ensures var was := if current.Some? then current.value.packet else draft;
            var start := was.(updatedAt := i.now);
            && a == PatchedTexts(i.spec, Signed(i, current, start))
            && PatchedNarrative(rules, i.spec, a) == Some(b)
            && c == Bound(i.binding, WithAgents(i, current, closed, PatchedLists(i.spec, b)))
            && AutomaticDefaults(rules, i.spec, c) == Some(d)
            && Seeded(rules, i.spec, Canonical(d)) == Some(e)
            && Build(rules, i, current, draft, closed) == Some(e) && rules.valid(e)
  {
    hide Signed, PatchedTexts, PatchedNarrative, PatchedLists, WithAgents, Bound, AutomaticDefaults, Canonical, Seeded;
    var start := (if current.Some? then current.value.packet else draft).(updatedAt := i.now);
    a := PatchedTexts(i.spec, Signed(i, current, start));
    b := PatchedNarrative(rules, i.spec, a).value;
    c := Bound(i.binding, WithAgents(i, current, closed, PatchedLists(i.spec, b)));
    d := AutomaticDefaults(rules, i.spec, c).value;
    e := Seeded(rules, i.spec, Canonical(d)).value;
  }

  predicate SameRecord(r: Packet, p: Packet) {
    (r.id, r.createdAt, r.updatedAt, r.resumeReady, r.agents) == (p.id, p.createdAt, p.updatedAt, p.resumeReady, p.agents)
  }

  /** Which fields the first and the middle stages leave alone. */
  lemma TextsLeave(s: Spec, p: Packet)
    ensures var r := PatchedTexts(s, p);
            && r.blockers == p.blockers && r.nextActions == p.nextActions && r.keyFiles == p.keyFiles
            && r.decisions == p.decisions && r.narrative == p.narrative && r.clientId == p.clientId
            && SameRecord(r, p) && r.resumeSeed == p.resumeSeed && r.resumeSeedIsCustom == p.resumeSeedIsCustom
  {
  }

  lemma ListsLeave(s: Spec, p: Packet)
    ensures var r := PatchedLists(s, p);
            && r.goal == p.goal && r.status == p.status && r.projectSlug == p.projectSlug && r.chatLabel == p.chatLabel
            && r.workingDirectory == p.workingDirectory && r.narrative == p.narrative && r.clientId == p.clientId
            && SameRecord(r, p)
  {
  }

  lemma BindingLeaves(i: Inputs, current: Option<Record>, closed: set<SessionId>, p: Packet)
    ensures var r := Bound(i.binding, WithAgents(i, current, closed, p));
            && r == p.(agents := r.agents, goal := r.goal, workingDirectory := r.workingDirectory)
            && (p.goal != "" ==> r.goal == p.goal)
            && (!Blank(p.workingDirectory) ==> r.workingDirectory == p.workingDirectory)
            && (i.binding.Some? && p.goal == "" ==> r.goal == i.binding.value.goal)
            && (i.binding.None? ==> r.goal == p.goal && r.workingDirectory == p.workingDirectory)
            && (i.binding.Some? && Blank(p.workingDirectory) ==>
                  r.workingDirectory == if i.binding.value.workingDirectory.Some? then i.binding.value.workingDirectory
                                        else p.workingDirectory)
  {
    hide Merged;
  }

  /** The identity and, to the millisecond, the creation time stay; the agents are the merged or the
      current list. */
  lemma BuildKeepsIdentity(rules: Rules, i: Inputs, current: Option<Record>, draft: Packet, closed: set<SessionId>)
    requires Build(rules, i, current, draft, closed).Some?
    ensures var p := Build(rules, i, current, draft, closed).value;
            var was := if current.Some? then current.value.packet else draft;
            && p.id == was.id && p.createdAt == Millis(was.createdAt) && p.updatedAt == Millis(i.now)
            && p.agents == CutAll(if i.preservePriorAgents && current.Some? then Merged(was.agents, i.snapshots, closed)
                                  else i.snapshots)
            && p.resumeReady == (i.spec.finalize || was.resumeReady)
            && rules.valid(p)
  {
    hide Build, Merged;
    var a, b, c, d, e := Stages(rules, i, current, draft, closed);
    var was := if current.Some? then current.value.packet else draft;
    SignedIs(i, current, was.(updatedAt := i.now));
    TextsLeave(i.spec, Signed(i, current, was.(updatedAt := i.now)));
    NarrativeIs(rules, i.spec, a);
    ListsLeave(i.spec, b);
    DefaultsAre(rules, i.spec, c);
    SeededIs(rules, i.spec, Canonical(d));
    hide Signed, PatchedTexts, PatchedNarrative, PatchedLists, AutomaticDefaults, Seeded;
  }

  /** Who a packet names as its author, and what it says where neither the record nor the patch says anything: the
      active binding first, then the default of an automatic write. A seed that nobody wrote is made from the
      finished packet. */
  lemma WhatBuildFills(rules: Rules, i: Inputs, current: Option<Record>, draft: Packet, closed: set<SessionId>)
    requires Build(rules, i, current, draft, closed).Some?
    ensures var p, s := Build(rules, i, current, draft, closed).value, i.spec;
            var was := if current.Some? then current.value.packet else draft;
            var automatic := s.mode == Automatic || s.mode == Budget;
            && p.source == (if current.Some? && s.preserveAuthorIdentity && !s.finalize then was.source else s.source)
            && p.clientId ==
               (if current.Some? && s.preserveAuthorIdentity && was.clientId.Some? then was.clientId else Some(i.client))
            && (was.goal == "" && !Blank(s.patch.goal) ==> p.goal == s.patch.goal.value)
            && (was.goal == "" && Blank(s.patch.goal) && i.binding.Some? && i.binding.value.goal != "" ==>
                  p.goal == i.binding.value.goal)
            && (was.goal == "" && Blank(s.patch.goal) && (i.binding.None? || i.binding.value.goal == "") ==>
                  p.goal == if automatic
                            then (if s.mode == Automatic && s.finalize then "Auto-handoff: " else "Auto-checkpoint: ") + s.reason
                            else "")
            && (Blank(was.workingDirectory) && !Blank(s.patch.workingDirectory) ==>
                  p.workingDirectory == s.patch.workingDirectory)
            && (Blank(was.workingDirectory) && Blank(s.patch.workingDirectory)
                && i.binding.Some? && i.binding.value.workingDirectory.Some? ==>
                  p.workingDirectory == i.binding.value.workingDirectory)
            && (s.mode == Budget ==> p.nextActions != [])
            && (s.patch.resumeSeed.None? && !was.resumeSeedIsCustom ==>
                  rules.seed(p.(resumeSeed := was.resumeSeed)) == Some(p.resumeSeed))
  {
    var a, b, c, d, e := Stages(rules, i, current, draft, closed);
    var was := if current.Some? then current.value.packet else draft;
    var start := was.(updatedAt := i.now);
    var signed := Signed(i, current, start);
    SignedIs(i, current, start);
    TextsLeave(i.spec, signed);
    NarrativeIs(rules, i.spec, a);
    ListsLeave(i.spec, b);
    BindingLeaves(i, current, closed, PatchedLists(i.spec, b));
    DefaultsAre(rules, i.spec, c);
    SeededIs(rules, i.spec, Canonical(d));
    FilledTexts(i.spec, signed);
    FilledSeed(i.spec, b);
    hide Build, Merged, Signed, PatchedTexts, PatchedNarrative, PatchedLists, WithAgents, Bound, AutomaticDefaults,
      Seeded;
  }

  lemma FilledTexts(s: Spec, p: Packet)
    ensures var r := PatchedTexts(s, p);
            && r.source == p.source
            && (p.goal == "" ==> r.goal == if Blank(s.patch.goal) then "" else s.patch.goal.value)
            && (Blank(p.workingDirectory) ==>
                  if Blank(s.patch.workingDirectory) then Blank(r.workingDirectory)
                  else r.workingDirectory == s.patch.workingDirectory)
  {
  }

  lemma FilledSeed(s: Spec, p: Packet)
    ensures var r := PatchedLists(s, p);
            && r.source == p.source
            && (s.patch.resumeSeed.None? ==> r.resumeSeed == p.resumeSeed && r.resumeSeedIsCustom == p.resumeSeedIsCustom)
  {
  }

  predicate Around(text: string, before: string, note: string, after: string) {
    text == before + note + after
  }

  /** The narrative with a note: as it is where the note occurs, else with the note after a blank line, cut to size. */
  ghost predicate IsNoted(rules: Rules, was: string, note: string, noted: string) {
    if exists before, after :: Around(was, before, note, after) then noted == was
    else rules.truncate(was + (if was == "" then "" else "\n\n") + note) == Some(noted)
  }

  lemma ContainsIs(text: string, note: string)
    ensures Contains(text, note) <==> exists before, after :: Around(text, before, note, after)
  {
    if Contains(text, note) {
      var k :| 0 <= k <= |text| - |note| && OccursAt(text, note, k);
      assert text == text[..k] + text[k..k + |note|] + text[k + |note|..];
      assert Around(text, text[..k], note, text[k + |note|..]);
    }
    if before, after :| Around(text, before, note, after) {
      assert text[|before|..|before| + |note|] == note;
      assert OccursAt(text, note, |before|);
    }
  }

  lemma NoteIs(rules: Rules, was: string, note: string)
    requires WithNote(rules, was, note).Some?
    ensures IsNoted(rules, was, note, WithNote(rules, was, note).value)
  {
    ContainsIs(was, note);
    hide Contains;
    assert was == "" ==> was + "" + note == note;
  }

  /** The narrative of a packet: the one the patch names, where it may replace the one there is, and the
      note of a budget write or of an automatic one that finalizes. */
  lemma NarrativeOfBuild(rules: Rules, i: Inputs, current: Option<Record>, draft: Packet, closed: set<SessionId>)
    requires Build(rules, i, current, draft, closed).Some?
    ensures var p, s := Build(rules, i, current, draft, closed).value, i.spec;
            var was := (if current.Some? then current.value.packet else draft).narrative;
            exists told ::
              && (if s.patch.narrative.None? || (was != "" && (s.fillOnly || s.mode == Budget)) then told == was
                  else rules.truncate(s.patch.narrative.value) == Some(told))
              && (if s.mode == Budget then IsNoted(rules, told, "Budget trigger: " + s.reason, p.narrative)
                  else if s.mode == Automatic && s.finalize
                  then IsNoted(rules, told, "Runtime continuity: " + s.reason, p.narrative)
                  else p.narrative == told)
  {
    var a, b, c, d, e := Stages(rules, i, current, draft, closed);
    var start := (if current.Some? then current.value.packet else draft).(updatedAt := i.now);
    SignedIs(i, current, start);
    TextsLeave(i.spec, Signed(i, current, start));
    NarrativeIs(rules, i.spec, a);
    ListsLeave(i.spec, b);
    BindingLeaves(i, current, closed, PatchedLists(i.spec, b));
    DefaultsAre(rules, i.spec, c);
    SeededIs(rules, i.spec, Canonical(d));
    if i.spec.mode == Budget || (i.spec.mode == Automatic && i.spec.finalize) {
      NoteIs(rules, c.narrative, ModeNote(i.spec));
    }
    hide Build, Merged, Signed, PatchedTexts, PatchedNarrative, PatchedLists, WithAgents, Bound, AutomaticDefaults,
      Seeded, IsNoted, WithNote;
  }

  /** A budget write replaces neither the key files nor the working directory that the record has. */
  lemma BudgetKeeps(rules: Rules, i: Inputs, base: Record, draft: Packet, closed: set<SessionId>)
    requires i.spec.mode == Budget && Build(rules, i, Some(base), draft, closed).Some?
    ensures var p, was := Build(rules, i, Some(base), draft, closed).value, base.packet;
            && (was.keyFiles != [] ==> p.keyFiles == was.keyFiles)
            && (!Blank(was.workingDirectory) ==> p.workingDirectory == was.workingDirectory)
  {
    ListsOfBuild(rules, i, base, draft, closed);
    TextsOfBuild(rules, i, base, draft, closed);
    hide Build, WithNote;
  }

  /** Nothing but the domain refuses a write. */
  lemma RefusedByRules(rules: Rules, i: Inputs, current: Option<Record>, draft: Packet, closed: set<SessionId>)
    requires forall text :: rules.truncate(text).Some?
    requires (forall p :: rules.seed(p).Some?) && forall p :: rules.valid(p)
    ensures Build(rules, i, current, draft, closed).Some?
  {
    hide Signed, PatchedTexts, PatchedLists, WithAgents, Bound, Canonical, Merged, Contains, ModeNote, DefaultGoal,
      Restart;
  }

  lemma CutTwice(n: nat)
    ensures var m := n - n % TICKS_PER_MILLISECOND; 0 <= m && m % TICKS_PER_MILLISECOND == 0
  {
    var k := n / TICKS_PER_MILLISECOND;
    assert n - n % TICKS_PER_MILLISECOND == k * TICKS_PER_MILLISECOND;
  }

  lemma MillisTwice(t: Time)
    ensures Millis(Millis(t)) == Millis(t)
  {
    CutTwice(if t >= 0 then t else -t);
  }

  /** A write on top of a packet that was built keeps its creation time. */
  lemma CreationStays(rules: Rules, i: Inputs, j: Inputs, current: Option<Record>, draft: Packet, closed: set<SessionId>,
                      first: Record, draft': Packet, closed': set<SessionId>)
    requires Build(rules, i, current, draft, closed) == Some(first.packet)
    requires Build(rules, j, Some(first), draft', closed').Some?
    ensures Build(rules, j, Some(first), draft', closed').value.createdAt == first.packet.createdAt
  {
    hide Build, Merged, Millis;
    BuildKeepsIdentity(rules, i, current, draft, closed);
    BuildKeepsIdentity(rules, j, Some(first), draft', closed');
    MillisTwice((if current.Some? then current.value.packet else draft).createdAt);
  }

  predicate Finalizes(s: Spec) {
    s.mode == Automatic && s.finalize
  }

  /** What each list of the result says, and its resume seed. */
  lemma ListsOfBuild(rules: Rules, i: Inputs, base: Record, draft: Packet, closed: set<SessionId>)
    requires Build(rules, i, Some(base), draft, closed).Some?
    ensures var p, q := Build(rules, i, Some(base), draft, closed).value, PatchedLists(i.spec, base.packet);
            && p.blockers == q.blockers && p.keyFiles == q.keyFiles && p.decisions == q.decisions
            && (i.spec.mode != Budget ==> p.nextActions == q.nextActions)
            && (if Reseeds(i.spec, q) then !p.resumeSeedIsCustom
                else p.resumeSeed == q.resumeSeed && p.resumeSeedIsCustom == q.resumeSeedIsCustom)
  {
    var a, b, c, d, e := Stages(rules, i, Some(base), draft, closed);
    var start := base.packet.(updatedAt := i.now);
    SignedIs(i, Some(base), start);
    TextsLeave(i.spec, Signed(i, Some(base), start));
    NarrativeIs(rules, i.spec, a);
    BindingLeaves(i, Some(base), closed, PatchedLists(i.spec, b));
    DefaultsAre(rules, i.spec, c);
    SeededIs(rules, i.spec, Canonical(d));
    hide Build, Merged, Signed, PatchedTexts, PatchedNarrative, WithAgents, Bound, AutomaticDefaults, Seeded;
  }

  /** What each text of the result says. */
  lemma TextsOfBuild(rules: Rules, i: Inputs, base: Record, draft: Packet, closed: set<SessionId>)
    requires Build(rules, i, Some(base), draft, closed).Some?
    ensures var p, q := Build(rules, i, Some(base), draft, closed).value, PatchedTexts(i.spec, base.packet);
            && p.projectSlug == q.projectSlug && p.chatLabel == q.chatLabel
            && (q.goal != "" ==> p.goal == q.goal) && (!Blank(q.workingDirectory) ==> p.workingDirectory == q.workingDirectory)
            && (i.spec.preserveAuthorIdentity && base.packet.clientId.Some? ==> p.clientId == base.packet.clientId)
            && p.status == (if Finalizes(i.spec) && i.spec.patch.status.None? then READY else q.status)
            && Told(rules, i.spec, base.packet.narrative).Some?
            && var told := Told(rules, i.spec, base.packet.narrative).value;
               (if Finalizes(i.spec) || i.spec.mode == Budget then WithNote(rules, told, ModeNote(i.spec)) == Some(p.narrative)
                else p.narrative == told)
  {
    var a, b, c, d, e := Stages(rules, i, Some(base), draft, closed);
    var start := base.packet.(updatedAt := i.now);
    SignedIs(i, Some(base), start);
    SameTexts(i.spec, base.packet, Signed(i, Some(base), start));
    TextsLeave(i.spec, Signed(i, Some(base), start));
    NarrativeIs(rules, i.spec, a);
    ListsLeave(i.spec, b);
    BindingLeaves(i, Some(base), closed, PatchedLists(i.spec, b));
    DefaultsAre(rules, i.spec, c);
    SeededIs(rules, i.spec, Canonical(d));
    hide Build, Merged, Signed, PatchedTexts, PatchedNarrative, PatchedLists, WithAgents, Bound, AutomaticDefaults,
      Seeded;
  }

  lemma SameTexts(s: Spec, p: Packet, r: Packet)
    requires r == p.(updatedAt := r.updatedAt, source := r.source, clientId := r.clientId)
    ensures var x, y := PatchedTexts(s, p), PatchedTexts(s, r);
            && y.goal == x.goal && y.status == x.status && y.projectSlug == x.projectSlug && y.chatLabel == x.chatLabel
            && y.workingDirectory == x.workingDirectory
  {
  }

  /** An explicit write changes exactly the fields its patch names: the others keep what the record
      it replaces has, so that concurrent edits of different fields survive each other. */
  lemma ExplicitWriteTouchesOnlyItsFields(rules: Rules, i: Inputs, base: Record, draft: Packet, closed: set<SessionId>)
    requires (i.spec.mode == Checkpoint || i.spec.mode == Handoff) && !i.spec.fillOnly
    requires Build(rules, i, Some(base), draft, closed).Some?
    ensures var p, was, q := Build(rules, i, Some(base), draft, closed).value, base.packet, i.spec.patch;
            && p.blockers == (if q.blockers.Some? then q.blockers.value else was.blockers)
            && p.nextActions == (if q.nextActions.Some? then q.nextActions.value else was.nextActions)
            && p.keyFiles == (if q.keyFiles.Some? then q.keyFiles.value else was.keyFiles)
            && p.decisions == (if q.decisions.Some? then q.decisions.value else was.decisions)
            && p.projectSlug == (if q.projectSlug.Some? then q.projectSlug else was.projectSlug)
            && p.chatLabel == (if q.chatLabel.Some? then q.chatLabel else was.chatLabel)
            && (if q.narrative.Some? then rules.truncate(q.narrative.value) == Some(p.narrative)
                else p.narrative == was.narrative)
            && (!Blank(q.workingDirectory) ==> p.workingDirectory == q.workingDirectory)
            && (q.workingDirectory.None? && !Blank(was.workingDirectory) ==> p.workingDirectory == was.workingDirectory)
            && (!Blank(q.resumeSeed) ==> p.resumeSeed == q.resumeSeed.value && p.resumeSeedIsCustom)
            && (q.resumeSeed.None? && was.resumeSeedIsCustom && was.resumeSeed != "" ==>
                  p.resumeSeed == was.resumeSeed && p.resumeSeedIsCustom)
            && p.status == (if Blank(q.status) then was.status else q.status.value)
            && (Blank(q.goal) && was.goal != "" ==> p.goal == was.goal)
            && (!Blank(q.goal) ==> p.goal == q.goal.value)
  {
    hide Build;
    ListsOfBuild(rules, i, base, draft, closed);
    TextsOfBuild(rules, i, base, draft, closed);
  }

  /** What an automatic write that only fills replaces of what the record says: the status, when it
      finalizes and none is named; the narrative, which then gets a note; and a resume seed that
      nobody wrote. Nothing else. */
  lemma WhatFillingReplaces(rules: Rules, i: Inputs, base: Record, draft: Packet, closed: set<SessionId>)
    requires i.spec.mode == Automatic && i.spec.fillOnly && Build(rules, i, Some(base), draft, closed).Some?
    ensures var p, was, q := Build(rules, i, Some(base), draft, closed).value, base.packet, i.spec.patch;
            && (was.goal != "" ==> p.goal == was.goal)
            && (was.blockers != [] ==> p.blockers == was.blockers) && (was.nextActions != [] ==> p.nextActions == was.nextActions)
            && (was.keyFiles != [] ==> p.keyFiles == was.keyFiles) && (was.decisions != [] ==> p.decisions == was.decisions)
            && (!Blank(was.projectSlug) ==> p.projectSlug == was.projectSlug)
            && (!Blank(was.workingDirectory) ==> p.workingDirectory == was.workingDirectory)
            && (!Blank(was.chatLabel) ==> p.chatLabel == was.chatLabel)
            && (i.spec.preserveAuthorIdentity && was.clientId.Some? ==> p.clientId == was.clientId)
            && (was.status != "" ==>
                  (p.status == was.status <==> !i.spec.finalize || q.status.Some? || was.status == READY))
            && (i.spec.finalize && q.status.None? ==> p.status == READY)
            && (was.narrative != "" ==>
                  if i.spec.finalize then WithNote(rules, was.narrative, ModeNote(i.spec)) == Some(p.narrative)
                  else p.narrative == was.narrative)
            && (was.resumeSeed != "" ==>
                  if q.resumeSeed.Some? || was.resumeSeedIsCustom
                  then p.resumeSeed == was.resumeSeed && p.resumeSeedIsCustom == was.resumeSeedIsCustom
                  else !p.resumeSeedIsCustom)
  {
    hide Build, WithNote;
    ListsOfBuild(rules, i, base, draft, closed);
    TextsOfBuild(rules, i, base, draft, closed);
  }

  /** The agents of a packet: each session once and within the cap. */
  lemma AgentsOfBuild(rules: Rules, i: Inputs, current: Option<Record>, draft: Packet, closed: set<SessionId>)
    requires OncePerSession(i.snapshots) && |i.snapshots| <= MAX_AGENTS
    requires Build(rules, i, current, draft, closed).Some?
    ensures var p := Build(rules, i, current, draft, closed).value;
            OncePerSession(p.agents) && |p.agents| <= MAX_AGENTS
  {
    hide Build;
    BuildKeepsIdentity(rules, i, current, draft, closed);
    if i.preservePriorAgents && current.Some? {
      MergedIsSound(current.value.packet.agents, i.snapshots, closed);
    }
  }

  /** Two explicit writes, the second on top of the first, that name different fields both survive. */
  lemma DifferentEditsBothSurvive(rules: Rules, i: Inputs, j: Inputs, base: Record, first: Record, second: Packet,
                                  draft: Packet, closed: set<SessionId>, closed': set<SessionId>)
    requires (i.spec.mode == Checkpoint || i.spec.mode == Handoff) && !i.spec.fillOnly
    requires (j.spec.mode == Checkpoint || j.spec.mode == Handoff) && !j.spec.fillOnly
    requires Build(rules, i, Some(base), draft, closed) == Some(first.packet)
    requires Build(rules, j, Some(first), draft, closed') == Some(second)
    ensures var p, q := i.spec.patch, j.spec.patch;
            && (p.blockers.Some? && q.blockers.None? ==> second.blockers == p.blockers.value)
            && (p.nextActions.Some? && q.nextActions.None? ==> second.nextActions == p.nextActions.value)
            && (p.keyFiles.Some? && q.keyFiles.None? ==> second.keyFiles == p.keyFiles.value)
            && (p.decisions.Some? && q.decisions.None? ==> second.decisions == p.decisions.value)
            && (p.projectSlug.Some? && q.projectSlug.None? ==> second.projectSlug == p.projectSlug)
            && (!Blank(p.goal) && Blank(q.goal) ==> second.goal == p.goal.value)
            && (!Blank(p.status) && Blank(q.status) ==> second.status == p.status.value)
            && (p.chatLabel.Some? && q.chatLabel.None? ==> second.chatLabel == p.chatLabel)
            && (p.narrative.Some? && q.narrative.None? ==> rules.truncate(p.narrative.value) == Some(second.narrative))
            && (!Blank(p.workingDirectory) && q.workingDirectory.None? ==> second.workingDirectory == p.workingDirectory)
            && (!Blank(p.resumeSeed) && q.resumeSeed.None? ==> second.resumeSeed == p.resumeSeed.value)
  {
    hide Build;
    ExplicitWriteTouchesOnlyItsFields(rules, i, base, draft, closed);
    ExplicitWriteTouchesOnlyItsFields(rules, j, first, draft, closed');
  }
}
