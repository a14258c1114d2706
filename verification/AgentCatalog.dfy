// The agent catalog as an object: its reload, and the lookups over the sorted snapshot.

module AgentCatalog {
  import opened Options
  import opened Utf8
  import opened AgentCatalogModel
  import HttpText

  const MAX_TASK_BYTES: nat := 4 * 1024

  // ----- The recommendation table -----

  datatype Rule = Rule(agent: Agent, keyword: string)

  function Rules(): seq<Rule> {
    [Rule(PrecommitAudit, "commit"), Rule(PrecommitAudit, "precommit"), Rule(PrecommitAudit, "pull request"),
     Rule(PrecommitAudit, "pr "), Rule(PrecommitAudit, "ok_to_commit"), Rule(Security, "security"),
     Rule(Security, "auth"), Rule(Security, "secret"), Rule(Security, "injection"), Rule(Debug, "debug"),
     Rule(Debug, "crash"), Rule(Debug, "traceback"), Rule(Debug, "exception"), Rule(Debug, "failing"),
     Rule(Test, "test"), Rule(Test, "ctest"), Rule(Test, "coverage"), Rule(Docs, "docs"), Rule(Docs, "readme"),
     Rule(Docs, "pdf"), Rule(Docs, "manual"), Rule(Docs, "handbook"), Rule(Docs, "runbook"),
     Rule(Docs, "documentation"), Rule(Research, "research"), Rule(Research, "web search"), Rule(Research, "http"),
     Rule(Review, "review"), Rule(Review, "critique"), Rule(Plan, "plan"), Rule(Plan, "design"),
     Rule(Plan, "architecture"), Rule(Explore, "explore"), Rule(Explore, "map"), Rule(Explore, "codebase"),
     Rule(Explore, "structure"), Rule(Explore, "overview"), Rule(Explore, "unfamiliar"),
     Rule(Implement, "implement"), Rule(Implement, "feature"), Rule(Implement, "bugfix"),
     Rule(Implement, "write code"), Rule(Implement, "edit")]
  }

  ghost predicate Mentions(task: Bytes, keyword: Bytes) {
    exists i :: HttpText.OccursAt(task, keyword, i)
  }

  /** The agent of the first rule whose keyword the lower-cased task mentions, else explore. */
  ghost function Recommended(lowered: Bytes, rules: seq<Rule>): Bytes {
    if rules == [] then IdOf(Explore)
    else if Mentions(lowered, Ascii(rules[0].keyword)) then IdOf(rules[0].agent)
    else Recommended(lowered, rules[1..])
  }

  /** Rule `k` is the first whose keyword the lower-cased task mentions. */
  ghost predicate IsFirst(lowered: Bytes, rules: seq<Rule>, k: nat) {
    && k < |rules| && Mentions(lowered, Ascii(rules[k].keyword))
    && forall j | 0 <= j < k :: !Mentions(lowered, Ascii(rules[j].keyword))
  }

  ghost predicate MentionsNone(lowered: Bytes, rules: seq<Rule>) {
    forall k | 0 <= k < |rules| :: !Mentions(lowered, Ascii(rules[k].keyword))
  }

  lemma {:induction false} RecommendedIsFirst(lowered: Bytes, rules: seq<Rule>)
    ensures MentionsNone(lowered, rules) ==> Recommended(lowered, rules) == IdOf(Explore)
    ensures MentionsNone(lowered, rules)
            || exists k | 0 <= k < |rules| :: IsFirst(lowered, rules, k) && Recommended(lowered, rules) == IdOf(rules[k].agent)
  {
    hide Mentions, IdOf, Ascii;
    if rules != [] {
      RecommendedIsFirst(lowered, rules[1..]);
      if Mentions(lowered, Ascii(rules[0].keyword)) {
        assert IsFirst(lowered, rules, 0);
      } else if !MentionsNone(lowered, rules[1..]) {
        var k :| 0 <= k < |rules| - 1 && IsFirst(lowered, rules[1..], k)
                 && Recommended(lowered, rules[1..]) == IdOf(rules[1..][k].agent);
        assert rules[k + 1] == rules[1..][k];
        forall j | 0 <= j < k + 1
          ensures !Mentions(lowered, Ascii(rules[j].keyword))
        {
          assert j > 0 ==> rules[j] == rules[1..][j - 1];
        }
        assert IsFirst(lowered, rules, k + 1);
      } else {
        forall j | 0 <= j < |rules|
          ensures !Mentions(lowered, Ascii(rules[j].keyword))
        {
          assert j > 0 ==> rules[j] == rules[1..][j - 1];
        }
      }
    }
  }

  // ----- Binary search -----

  /** std::lower_bound over the identities. */
  method LowerBound(t: seq<Spec>, id: Bytes) returns (i: nat)
    requires Ordered(t)
    ensures i <= |t|
    ensures forall j | 0 <= j < i :: Less(t[j].id, id)
    ensures forall j | i <= j < |t| :: !Less(t[j].id, id)
  {
    var low, high := 0, |t|;
    while low < high
      invariant 0 <= low <= high <= |t|
      invariant forall j | 0 <= j < low :: Less(t[j].id, id)
      invariant forall j | high <= j < |t| :: !Less(t[j].id, id)
    {
      var mid := (low + high) / 2;
      if Less(t[mid].id, id) {
        forall j | 0 <= j < mid
          ensures Less(t[j].id, id)
        {
          LessTransitive(t[j].id, t[mid].id, id);
        }
        low := mid + 1;
      } else {
        forall j | mid <= j < |t|
          ensures !Less(t[j].id, id)
        {
          if j > mid && Less(t[j].id, id) {
            LessTransitive(t[mid].id, t[j].id, id);
          }
        }
        high := mid;
      }
    }
    return low;
  }

  /** Where the lower bound points at the identity, the linear search finds that entry; where it
      does not, no entry has it. */
  lemma LowerBoundIsLookup(t: seq<Spec>, id: Bytes, i: nat)
    requires Ordered(t) && i <= |t|
    requires forall j | 0 <= j < i :: Less(t[j].id, id)
    requires forall j | i <= j < |t| :: !Less(t[j].id, id)
    ensures Lookup(t, id) == if i < |t| && t[i].id == id then Some(t[i]) else None
  {
    if i < |t| && t[i].id == id {
      OrderedLookup(t, t[i]);
    } else {
      forall j | 0 <= j < |t|
        ensures t[j].id != id
      {
        LessIsStrict(t[j].id, id);
        if j > i {
          LessIsStrict(t[i].id, id);
          LessTransitive(id, t[i].id, t[j].id);
        }
      }
    }
  }

  datatype Recommendation = Chosen(spec: Spec) | TaskTooLong | TaskNotText | InactiveContext | ExploreMissing

  class AgentCatalog {
    const parse: Parser
    /** The specifications built into the program, one for each mandatory agent. */
    const fallbacks: seq<Spec>
    var snapshot: seq<Spec>

    ghost predicate Valid()
      reads this
    {
      SnapshotOk(snapshot) && SnapshotOk(fallbacks)
    }

    constructor (parse: Parser, fallbacks: seq<Spec>)
      requires SnapshotOk(fallbacks)
      ensures Valid() && this.parse == parse && this.fallbacks == fallbacks && snapshot == fallbacks
    {
      this.parse := parse;
      this.fallbacks := fallbacks;
      snapshot := fallbacks;
    }

    /** Whether the caller's context is still active. */
    method Active() returns (active: bool)
    {
      active := *;
    }

    method CheckSizes(definitions: seq<Document>) returns (ok: bool)
      ensures ok <==> !TooLarge(definitions)
    {
      var aggregate, i := 0, 0;
      while i < |definitions|
        invariant i <= |definitions| && aggregate == TotalBytes(definitions[..i]) <= MAX_AGGREGATE_BYTES
        invariant forall d | d in definitions[..i] :: !Oversized(d)
      {
        var d := definitions[i];
        assert definitions[..i + 1][..i] == definitions[..i] && definitions[..i + 1][i] == d;
        if Oversized(d) {
          assert d in definitions;
          return false;
        }
        aggregate := aggregate + |d.stableName| + |d.markdown|;
        if aggregate > MAX_AGGREGATE_BYTES {
          TotalSplits(definitions[..i + 1], definitions[i + 1..]);
          assert definitions[..i + 1] + definitions[i + 1..] == definitions;
          return false;
        }
        i := i + 1;
      }
      assert definitions[..i] == definitions;
      return true;
    }

    /** The loop over the sorted documents. */
    method ParseAll(ordered: seq<Document>) returns (active: bool, r: Fold)
      ensures active ==> r == Collect(parse, ordered, fallbacks)
    {
      var table, accepted, rejected := fallbacks, 0, 0;
      var i := 0;
      while i < |ordered|
        invariant i <= |ordered| && Collect(parse, ordered[..i], fallbacks) == Table(table, accepted, rejected)
      {
        var going := Active();
        if !going {
          return false, Stopped(0);
        }
        assert ordered[..i + 1][..i] == ordered[..i] && ordered[..i + 1][i] == ordered[i];
        var parsed := parse(ordered[i]);
        if parsed.Fatal? {
          FatalStops(parse, ordered, fallbacks, i + 1);
          return true, Stopped(parsed.code);
        } else if parsed.Unusable? {
          rejected := rejected + 1;
        } else {
          table, accepted := Put(table, parsed.spec), accepted + 1;
        }
        i := i + 1;
      }
      assert ordered[..i] == ordered;
      return true, Table(table, accepted, rejected);
    }

    /** The loop that fills the new snapshot. */
    method Keep(table: seq<Spec>) returns (kept: seq<Spec>)
      ensures kept == Retain(table, MAX_ENTRIES - MANDATORY_COUNT)
    {
      hide IsMandatory, Retain;
      kept := [];
      var capacity, i := MAX_ENTRIES - MANDATORY_COUNT, 0;
      while i < |table|
        invariant i <= |table| && 0 <= capacity
        invariant kept + Retain(table[i..], capacity) == Retain(table, MAX_ENTRIES - MANDATORY_COUNT)
      {
        RetainStep(table, i, capacity);
        if IsMandatory(table[i].id) {
          kept := kept + [table[i]];
        } else if capacity > 0 {
          kept := kept + [table[i]];
          capacity := capacity - 1;
        }
        i := i + 1;
      }
      RetainNothing(capacity);
      assert table[i..] == [] && kept + [] == kept;
    }

    /** Replaces the snapshot as a whole, or leaves it as it is. */
    method Reload(definitions: seq<Document>) returns (r: Outcome)
      requires Valid()
      modifies this
      ensures Valid()
      ensures r == Failed(Inactive) || r == Reloaded(parse, fallbacks, definitions)
      ensures snapshot == if r.Loaded? then r.snapshot else old(snapshot)
      ensures r.Loaded? ==>
                && r.summary.accepted == UsableIn(parse, definitions)
                && r.summary.rejected == |definitions| - UsableIn(parse, definitions)
                && r.summary.retained == |snapshot|
                && r.summary.retained + r.summary.truncated == |Identities(parse, fallbacks, definitions)|
    {
      SummaryCounts(parse, fallbacks, definitions);
      hide SnapshotOk, TooLarge, Sort, Collect, Retain, UsableIn, Identities;
      var active := Active();
      if !active {
        return Failed(Inactive);
      }
      if |definitions| > MAX_DOCUMENTS {
        return Failed(TooManyDocuments);
      }
      var fits := CheckSizes(definitions);
      if !fits {
        return Failed(PayloadTooLarge);
      }
      var collected: Fold;
      active, collected := ParseAll(Sort(definitions));
      if !active {
        return Failed(Inactive);
      }
      if collected.Stopped? {
        return Failed(ParseFailed(collected.code));
      }
      var kept := Keep(collected.table);
      ReloadedIsGood(parse, fallbacks, definitions);
      active := Active();
      if !active {
        return Failed(Inactive);
      }
      snapshot := kept;
      return Loaded(kept, Summary(collected.accepted, collected.rejected, |kept|, |collected.table| - |kept|));
    }

    /** Binary search finds what linear search finds. */
    method Get(id: Bytes) returns (found: Option<Spec>)
      requires Valid()
      ensures found == Lookup(snapshot, id)
    {
      hide HasMandatory;
      var i := LowerBound(snapshot, id);
      LowerBoundIsLookup(snapshot, id, i);
      return if i < |snapshot| && snapshot[i].id == id then Some(snapshot[i]) else None;
    }

    /** The loop over the rules: each agent named by a rule is in the snapshot. */
    method Select(lowered: Bytes) returns (spec: Option<Spec>)
      requires Valid()
      ensures spec.Some? && Lookup(snapshot, Recommended(lowered, Rules())) == spec
    {
      hide Rules, Mandatory, IdOf, Ascii, Lookup, Ordered;
      var rules := Rules();
      var i := 0;
      while i < |rules|
        invariant i <= |rules| && Recommended(lowered, rules[i..]) == Recommended(lowered, rules)
      {
        assert rules[i..][0] == rules[i] && rules[i..][1..] == rules[i + 1..];
        if HttpText.Find(lowered, Ascii(rules[i].keyword), 0).Some? {
          var found := Get(IdOf(rules[i].agent));
          EveryAgentIsMandatory(rules[i].agent);
          if found.Some? {
            return found;
          }
        }
        i := i + 1;
      }
      EveryAgentIsMandatory(Explore);
      spec := Get(IdOf(Explore));
    }

    /** A task that is text gets the agent of the first rule it mentions; explore is never missing. */
    method Recommend(task: Bytes) returns (r: Recommendation)
      requires Valid()
      ensures r != ExploreMissing
      ensures r.InactiveContext? || (|task| > MAX_TASK_BYTES <==> r.TaskTooLong?)
      ensures r.TaskNotText? ==> !IsText(task, true)
      ensures r.Chosen? ==>
                && IsText(task, true)
                && Lookup(snapshot, Recommended(HttpText.Lower(task), Rules())) == Some(r.spec)
      // The agent of the first rule mentioned, and explore where none is.
      ensures r.Chosen? ==>
                || (MentionsNone(HttpText.Lower(task), Rules()) && r.spec.id == IdOf(Explore))
                || exists k | 0 <= k < |Rules()| ::
                     IsFirst(HttpText.Lower(task), Rules(), k) && r.spec.id == IdOf(Rules()[k].agent)
    {
      hide *;
      RecommendedIsFirst(HttpText.Lower(task), Rules());
      var active := Active();
      if !active {
        return InactiveContext;
      }
      if |task| > MAX_TASK_BYTES {
        return TaskTooLong;
      }
      var text := IsValidText(task, true);
      if !text {
        return TaskNotText;
      }
      var spec := Select(HttpText.Lower(task));
      return if spec.Some? then Chosen(spec.value) else ExploreMissing;
    }
  }

  lemma RetainStep(t: seq<Spec>, i: nat, capacity: nat)
    requires i < |t|
    ensures Retain(t[i..], capacity) ==
            if IsMandatory(t[i].id) then [t[i]] + Retain(t[i + 1..], capacity)
            else if capacity > 0 then [t[i]] + Retain(t[i + 1..], capacity - 1)
            else Retain(t[i + 1..], 0)
  {
    hide IsMandatory;
    assert t[i..][1..] == t[i + 1..];
  }

  lemma RetainNothing(capacity: nat)
    ensures Retain([], capacity) == []
  {
  }

  lemma {:induction false} FatalStops(parse: Parser, ds: seq<Document>, t: seq<Spec>, n: nat)
    requires n <= |ds| && Collect(parse, ds[..n], t).Stopped?
    ensures Collect(parse, ds, t) == Collect(parse, ds[..n], t)
    decreases |ds| - n
  {
    if n < |ds| {
      assert ds[..n + 1][..n] == ds[..n];
      FatalStops(parse, ds, t, n + 1);
    } else {
      assert ds[..n] == ds;
    }
  }
}
