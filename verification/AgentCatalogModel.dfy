// The agent catalog as values: what a reload makes of its definition documents, in any order.

module AgentCatalogModel {
  import opened Options
  import opened Utf8

  const MAX_ENTRIES: nat := 256
  const MANDATORY_COUNT: nat := 10
  const MAX_DOCUMENTS: nat := 1024
  const MAX_DEFINITION_BYTES: nat := 64 * 1024
  const MAX_AGGREGATE_BYTES: nat := 16 * 1024 * 1024
  const MAX_NAME_BYTES: nat := 512

  type Bytes = seq<byte>

  /** The agents that every catalog has, in the order of their names. */
  datatype Agent = Debug | Docs | Explore | Implement | Plan | PrecommitAudit | Research | Review | Security | Test

  const AGENTS: seq<Agent> := [Debug, Docs, Explore, Implement, Plan, PrecommitAudit, Research, Review, Security, Test]

  function Name(agent: Agent): string {
    match agent
    case Debug => "debug"
    case Docs => "docs"
    case Explore => "explore"
    case Implement => "implement"
    case Plan => "plan"
    case PrecommitAudit => "precommit-audit"
    case Research => "research"
    case Review => "review"
    case Security => "security"
    case Test => "test"
  }

  function IdOf(agent: Agent): Bytes { Ascii(Name(agent)) }

  function Mandatory(): (ids: seq<Bytes>)
    ensures |ids| == MANDATORY_COUNT
    ensures forall i | 0 <= i < |ids| :: ids[i] == IdOf(AGENTS[i])
  {
    seq(MANDATORY_COUNT, i requires 0 <= i < MANDATORY_COUNT => IdOf(AGENTS[i]))
  }

  lemma EveryAgentIsMandatory(agent: Agent)
    ensures IdOf(agent) in Mandatory()
  {
    hide IdOf;
    var i := match agent
      case Debug => 0
      case Docs => 1
      case Explore => 2
      case Implement => 3
      case Plan => 4
      case PrecommitAudit => 5
      case Research => 6
      case Review => 7
      case Security => 8
      case Test => 9;
    assert Mandatory()[i] == IdOf(agent);
  }

  // ----- Order of texts, as strings compare -----

  predicate Less(a: Bytes, b: Bytes)
    decreases |a|
  {
    b != [] && (a == [] || a[0] < b[0] || (a[0] == b[0] && Less(a[1..], b[1..])))
  }

  lemma {:induction false} LessIsStrict(a: Bytes, b: Bytes)
    ensures !(Less(a, b) && Less(b, a))
    ensures Less(a, b) || Less(b, a) || a == b
    ensures a == b ==> !Less(a, b)
    decreases |a|
  {
    if a != [] && b != [] {
      LessIsStrict(a[1..], b[1..]);
      if a[1..] == b[1..] && a[0] == b[0] {
        assert a == [a[0]] + a[1..] == b;
      }
    }
  }

  lemma {:induction false} LessTransitive(a: Bytes, b: Bytes, c: Bytes)
    requires Less(a, b) && Less(b, c)
    ensures Less(a, c)
    decreases |a|
  {
    if a != [] && a[0] == b[0] == c[0] {
      LessTransitive(a[1..], b[1..], c[1..]);
    }
  }

  // ----- Documents and specifications -----

  datatype Origin = BuiltIn | Custom

  datatype Document = Document(stableName: Bytes, markdown: Bytes, origin: Origin)

  /** `content` stands for every field of an agent specification but its identity. */
  datatype Spec = Spec(id: Bytes, content: nat)

  /** Parsing is a function of the document alone; a fatal error ends the reload. */
  datatype Parsed = Accepted(spec: Spec) | Unusable | Fatal(code: nat)

  type Parser = Document -> Parsed

  /** Built-in documents first, then by name, then by text. */
  predicate Before(a: Document, b: Document) {
    if a.origin != b.origin then a.origin == BuiltIn
    else if a.stableName != b.stableName then Less(a.stableName, b.stableName)
    else Less(a.markdown, b.markdown)
  }

  lemma BeforeIsStrict(a: Document, b: Document)
    ensures !(Before(a, b) && Before(b, a))
    ensures Before(a, b) || Before(b, a) || a == b
    ensures a == b ==> !Before(a, b)
  {
    LessIsStrict(a.stableName, b.stableName);
    LessIsStrict(a.markdown, b.markdown);
  }

  lemma BeforeTransitive(a: Document, b: Document, c: Document)
    requires Before(a, b) && Before(b, c)
    ensures Before(a, c)
  {
    LessIsStrict(a.stableName, b.stableName);
    LessIsStrict(b.stableName, c.stableName);
    if Less(a.stableName, b.stableName) && Less(b.stableName, c.stableName) {
      LessTransitive(a.stableName, b.stableName, c.stableName);
      LessIsStrict(a.stableName, c.stableName);
    }
    if Less(a.markdown, b.markdown) && Less(b.markdown, c.markdown) {
      LessTransitive(a.markdown, b.markdown, c.markdown);
    }
  }

  // ----- Sorting the documents -----

  predicate Sorted(ds: seq<Document>) {
    forall i, j | 0 <= i < j < |ds| :: !Before(ds[j], ds[i])
  }

  function Insert(d: Document, ds: seq<Document>): (r: seq<Document>)
    ensures multiset(r) == multiset(ds) + multiset{d} && |r| == |ds| + 1
  {
    if ds == [] then [d]
    else if Before(d, ds[0]) then [d] + ds
    else
      assert ds == [ds[0]] + ds[1..];
      [ds[0]] + Insert(d, ds[1..])
  }

  function Sort(ds: seq<Document>): (r: seq<Document>)
    ensures multiset(r) == multiset(ds) && |r| == |ds|
  {
    if ds == [] then []
    else
      assert ds == ds[..|ds| - 1] + [ds[|ds| - 1]];
      Insert(ds[|ds| - 1], Sort(ds[..|ds| - 1]))
  }

  lemma {:induction false} InsertSorts(d: Document, ds: seq<Document>)
    requires Sorted(ds)
    ensures Sorted(Insert(d, ds))
  {
    if ds == [] {
    } else if Before(d, ds[0]) {
      forall j | 0 <= j < |ds|
        ensures !Before(ds[j], d)
      {
        if Before(ds[j], d) {
          BeforeTransitive(ds[j], d, ds[0]);
          BeforeIsStrict(ds[j], ds[0]);
        }
      }
    } else {
      InsertSorts(d, ds[1..]);
      var rest := Insert(d, ds[1..]);
      forall e | e in rest
        ensures !Before(e, ds[0])
      {
        assert e in multiset(rest);
        assert e == d || e in multiset(ds[1..]);
      }
      assert forall k | 0 <= k < |rest| :: rest[k] in rest;
    }
  }

  lemma {:induction false} SortSorts(ds: seq<Document>)
    ensures Sorted(Sort(ds))
  {
    if ds != [] {
      SortSorts(ds[..|ds| - 1]);
      InsertSorts(ds[|ds| - 1], Sort(ds[..|ds| - 1]));
    }
  }

  /** A sorted list is determined by what is in it. */
  lemma {:induction false} SortedIsUnique(a: seq<Document>, b: seq<Document>)
    requires Sorted(a) && Sorted(b) && multiset(a) == multiset(b)
    ensures a == b
    decreases |a|
  {
    assert |a| == |multiset(a)| == |multiset(b)| == |b|;
    if a != [] {
      SameFirst(a, b);
      assert a == [a[0]] + a[1..] && b == [b[0]] + b[1..];
      hide Before;
      assert multiset(a[1..]) == multiset(a) - multiset{a[0]} && multiset(b[1..]) == multiset(b) - multiset{b[0]};
      SortedIsUnique(a[1..], b[1..]);
    }
  }

  lemma SameFirst(a: seq<Document>, b: seq<Document>)
    requires Sorted(a) && Sorted(b) && multiset(a) == multiset(b) && a != [] && b != []
    ensures a[0] == b[0]
  {
    assert a[0] in multiset(b) && b[0] in multiset(a);
    var i :| 0 <= i < |b| && b[i] == a[0];
    var j :| 0 <= j < |a| && a[j] == b[0];
    BeforeIsStrict(a[0], b[0]);
    hide Before;
    assert i > 0 ==> !Before(b[i], b[0]);
    assert j > 0 ==> !Before(a[j], a[0]);
  }

  // ----- The table of definitions, ordered by identity -----

  predicate Ordered(t: seq<Spec>) {
    forall i, j | 0 <= i < j < |t| :: Less(t[i].id, t[j].id)
  }

  function Lookup(t: seq<Spec>, id: Bytes): (r: Option<Spec>)
    ensures r.Some? ==> r.value in t && r.value.id == id
    ensures r.None? ==> forall s | s in t :: s.id != id
  {
    if t == [] then None else if t[0].id == id then Some(t[0]) else Lookup(t[1..], id)
  }

  /** insert_or_assign of an ordered map. */
  function Put(t: seq<Spec>, s: Spec): seq<Spec> {
    if t == [] then [s]
    else if t[0].id == s.id then [s] + t[1..]
    else if Less(s.id, t[0].id) then [s] + t
    else [t[0]] + Put(t[1..], s)
  }

  lemma {:induction false} PutIs(t: seq<Spec>, s: Spec)
    requires Ordered(t)
    ensures Ordered(Put(t, s))
    ensures forall x | x in Put(t, s) :: x == s || x in t
    ensures forall id :: Lookup(Put(t, s), id) == if id == s.id then Some(s) else Lookup(t, id)
    decreases |t|
  {
    if t != [] {
      LessIsStrict(s.id, t[0].id);
      if Less(s.id, t[0].id) {
        forall j | 0 <= j < |t|
          ensures Less(s.id, t[j].id)
        {
          if j > 0 {
            LessTransitive(s.id, t[0].id, t[j].id);
          }
        }
        LessMeansAbsent(t, s.id);
      } else if t[0].id != s.id {
        PutIs(t[1..], s);
        var rest := Put(t[1..], s);
        forall k | 0 <= k < |rest|
          ensures Less(t[0].id, rest[k].id)
        {
          assert rest[k] in rest;
        }
      }
    }
  }

  lemma {:induction false} LessMeansAbsent(t: seq<Spec>, id: Bytes)
    requires forall j | 0 <= j < |t| :: Less(id, t[j].id)
    ensures Lookup(t, id) == None
  {
    if t != [] {
      LessIsStrict(id, t[0].id);
      LessMeansAbsent(t[1..], id);
    }
  }

  datatype Fold = Table(table: seq<Spec>, accepted: nat, rejected: nat) | Stopped(code: nat)

  function Collect(parse: Parser, ds: seq<Document>, t: seq<Spec>): Fold {
    if ds == [] then Table(t, 0, 0)
    else
      var last := ds[|ds| - 1];
      match Collect(parse, ds[..|ds| - 1], t)
      case Stopped(code) => Stopped(code)
      case Table(table, accepted, rejected) =>
        match parse(last)
        case Fatal(code) => Stopped(code)
        case Unusable => Table(table, accepted, rejected + 1)
        case Accepted(spec) => Table(Put(table, spec), accepted + 1, rejected)
  }

  // ----- What is kept -----

  predicate IsMandatory(id: Bytes) { id in Mandatory() }

  /** Every mandatory entry, and the first of the others up to the capacity. */
  function Retain(t: seq<Spec>, capacity: nat): seq<Spec> {
    if t == [] then []
    else if IsMandatory(t[0].id) then [t[0]] + Retain(t[1..], capacity)
    else if capacity > 0 then [t[0]] + Retain(t[1..], capacity - 1)
    else Retain(t[1..], 0)
  }

  datatype Summary = Summary(accepted: nat, rejected: nat, retained: nat, truncated: nat)

  datatype Failure = TooManyDocuments | PayloadTooLarge | ParseFailed(code: nat) | Inactive

  datatype Outcome = Loaded(snapshot: seq<Spec>, summary: Summary) | Failed(failure: Failure)

  predicate Oversized(d: Document) {
    |d.markdown| > MAX_DEFINITION_BYTES || |d.stableName| > MAX_NAME_BYTES
  }

  function TotalBytes(ds: seq<Document>): nat {
    if ds == [] then 0
    else TotalBytes(ds[..|ds| - 1]) + |ds[|ds| - 1].stableName| + |ds[|ds| - 1].markdown|
  }

  predicate TooLarge(ds: seq<Document>) {
    (exists d | d in ds :: Oversized(d)) || TotalBytes(ds) > MAX_AGGREGATE_BYTES
  }

  /** What a reload makes of the documents, given the fallbacks. */
  function Reloaded(parse: Parser, fallbacks: seq<Spec>, ds: seq<Document>): Outcome {
    if |ds| > MAX_DOCUMENTS then Failed(TooManyDocuments)
    else if TooLarge(ds) then Failed(PayloadTooLarge)
    else
      match Collect(parse, Sort(ds), fallbacks)
      case Stopped(code) => Failed(ParseFailed(code))
      case Table(table, accepted, rejected) =>
        var kept := Retain(table, MAX_ENTRIES - MANDATORY_COUNT);
        Loaded(kept, Summary(accepted, rejected, |kept|, if |table| >= |kept| then |table| - |kept| else 0))
  }

  // ----- The order of the input does not matter -----

  lemma {:induction false} TotalSplits(a: seq<Document>, b: seq<Document>)
    ensures TotalBytes(a + b) == TotalBytes(a) + TotalBytes(b)
    decreases |b|
  {
    if b == [] {
      assert a + b == a;
    } else {
      var front := b[..|b| - 1];
      TotalSplits(a, front);
      assert (a + b)[..|a + b| - 1] == a + front;
    }
  }

  lemma {:induction false} InsertTotal(d: Document, ds: seq<Document>)
    ensures TotalBytes(Insert(d, ds)) == TotalBytes(ds) + |d.stableName| + |d.markdown|
  {
    if ds == [] {
      assert [d][..0] == [];
    } else if Before(d, ds[0]) {
      TotalSplits([d], ds);
      assert [d][..0] == [];
    } else {
      InsertTotal(d, ds[1..]);
      TotalSplits([ds[0]], Insert(d, ds[1..]));
      TotalSplits([ds[0]], ds[1..]);
      assert [ds[0]] + ds[1..] == ds;
    }
  }

  lemma {:induction false} SortTotal(ds: seq<Document>)
    ensures TotalBytes(Sort(ds)) == TotalBytes(ds)
  {
    if ds != [] {
      SortTotal(ds[..|ds| - 1]);
      InsertTotal(ds[|ds| - 1], Sort(ds[..|ds| - 1]));
    }
  }

  lemma SortTooLarge(ds: seq<Document>)
    ensures TooLarge(ds) <==> TooLarge(Sort(ds))
  {
    SortTotal(ds);
    assert forall d :: d in ds <==> d in multiset(ds);
    assert forall d :: d in Sort(ds) <==> d in multiset(Sort(ds));
  }

  /** Reloading gives the same snapshot and summary, or the same failure, for every permutation
      of the documents. */
  lemma PermutationIndependent(parse: Parser, fallbacks: seq<Spec>, a: seq<Document>, b: seq<Document>)
    requires multiset(a) == multiset(b)
    ensures Reloaded(parse, fallbacks, a) == Reloaded(parse, fallbacks, b)
  {
    hide Before, Sorted, Retain, TooLarge;
    assert |a| == |multiset(a)| == |multiset(b)| == |b|;
    SortSorts(a);
    SortSorts(b);
    SortedIsUnique(Sort(a), Sort(b));
    SortTooLarge(a);
    SortTooLarge(b);
  }

  // ----- What the summary counts -----

  /** How many of the documents parse to a usable definition. */
  function UsableIn(parse: Parser, ds: seq<Document>): nat {
    if ds == [] then 0 else (if parse(ds[0]).Accepted? then 1 else 0) + UsableIn(parse, ds[1..])
  }

  lemma {:induction false} UsableSplits(parse: Parser, a: seq<Document>, b: seq<Document>)
    ensures UsableIn(parse, a + b) == UsableIn(parse, a) + UsableIn(parse, b)
    decreases |a|
  {
    if a == [] {
      assert a + b == b;
    } else {
      UsableSplits(parse, a[1..], b);
      assert (a + b)[1..] == a[1..] + b;
    }
  }

  lemma {:induction false} InsertUsable(parse: Parser, d: Document, ds: seq<Document>)
    ensures UsableIn(parse, Insert(d, ds)) == UsableIn(parse, [d]) + UsableIn(parse, ds)
  {
    hide Before;
    if ds == [] {
    } else if Before(d, ds[0]) {
      UsableSplits(parse, [d], ds);
    } else {
      InsertUsable(parse, d, ds[1..]);
    }
  }

  lemma {:induction false} SortUsable(parse: Parser, ds: seq<Document>)
    ensures UsableIn(parse, Sort(ds)) == UsableIn(parse, ds)
  {
    hide Before, Insert;
    if ds != [] {
      var front, last := ds[..|ds| - 1], ds[|ds| - 1];
      SortUsable(parse, front);
      InsertUsable(parse, last, Sort(front));
      UsableSplits(parse, front, [last]);
      assert front + [last] == ds;
    }
  }

  lemma {:induction false} CollectCounts(parse: Parser, ds: seq<Document>, t: seq<Spec>)
    ensures Collect(parse, ds, t).Table? ==>
              && Collect(parse, ds, t).accepted == UsableIn(parse, ds)
              && Collect(parse, ds, t).rejected == |ds| - UsableIn(parse, ds)
              && forall d | d in ds :: !parse(d).Fatal?
    ensures Collect(parse, ds, t).Stopped? ==> exists d | d in ds :: parse(d) == Fatal(Collect(parse, ds, t).code)
  {
    if ds != [] {
      var front, last := ds[..|ds| - 1], ds[|ds| - 1];
      CollectCounts(parse, front, t);
      UsableSplits(parse, front, [last]);
      assert front + [last] == ds;
      if Collect(parse, front, t).Stopped? {
        var d :| d in front && parse(d) == Fatal(Collect(parse, front, t).code);
        assert d in ds;
      } else if parse(last).Fatal? {
        assert last in ds;
      }
    }
  }

  /** The identities that the table knows: those of the fallbacks, and those some document defines. */
  function Identities(parse: Parser, fallbacks: seq<Spec>, ds: seq<Document>): set<Bytes> {
    (set s | s in fallbacks :: s.id) + (set d | d in ds && parse(d).Accepted? :: parse(d).spec.id)
  }

  lemma {:induction false} TableSize(t: seq<Spec>)
    requires Ordered(t)
    ensures |t| == |set s | s in t :: s.id|
  {
    if t != [] {
      var ids, rest := set s | s in t :: s.id, set s | s in t[1..] :: s.id;
      TableSize(t[1..]);
      FirstIsNotLater(t);
      assert ids == rest + {t[0].id};
    }
  }

  lemma TableKnows(parse: Parser, fallbacks: seq<Spec>, ds: seq<Document>)
    requires Ordered(fallbacks) && Collect(parse, Sort(ds), fallbacks).Table?
    ensures |Collect(parse, Sort(ds), fallbacks).table| == |Identities(parse, fallbacks, ds)|
  {
    var table := Collect(parse, Sort(ds), fallbacks).table;
    SortSorts(ds);
    CollectIs(parse, Sort(ds), fallbacks);
    TableSize(table);
    var ids := set s | s in table :: s.id;
    forall id
      ensures id in ids <==> id in Identities(parse, fallbacks, ds)
    {
      hide Collect, Sort, Ordered;
      KnownIdentity(parse, fallbacks, ds, id);
    }
    assert ids == Identities(parse, fallbacks, ds);
  }

  lemma KnownIdentity(parse: Parser, fallbacks: seq<Spec>, ds: seq<Document>, id: Bytes)
    requires Ordered(fallbacks) && Collect(parse, Sort(ds), fallbacks).Table?
    ensures (exists s | s in Collect(parse, Sort(ds), fallbacks).table :: s.id == id) <==> id in Identities(parse, fallbacks, ds)
  {
    hide Collect, Sort, Ordered, Before;
    TableHoldsWinners(parse, fallbacks, ds, id);
    WinnerExists(parse, ds, id);
    var table := Collect(parse, Sort(ds), fallbacks).table;
    assert (exists s | s in table :: s.id == id) <==> Lookup(table, id).Some?;
    assert (exists s | s in fallbacks :: s.id == id) <==> Lookup(fallbacks, id).Some?;
    if exists d :: Wins(parse, ds, d, id) {
      var d :| Wins(parse, ds, d, id);
      assert Defines(parse, d, id);
    }
  }

  /** A reload that succeeds had no fatal document; its summary counts the usable and the unusable ones, and of
      all identities known those kept and those dropped. One that a document ends names that document's error. */
  lemma SummaryCounts(parse: Parser, fallbacks: seq<Spec>, ds: seq<Document>)
    requires Ordered(fallbacks)
    ensures var r := Reloaded(parse, fallbacks, ds);
            r.Loaded? ==>
              && (forall d | d in ds :: !parse(d).Fatal?)
              && r.summary.accepted == UsableIn(parse, ds) && r.summary.rejected == |ds| - UsableIn(parse, ds)
              && r.summary.retained == |r.snapshot|
              && r.summary.retained + r.summary.truncated == |Identities(parse, fallbacks, ds)|
    ensures var r := Reloaded(parse, fallbacks, ds);
            r.Failed? && r.failure.ParseFailed? ==> exists d | d in ds :: parse(d) == Fatal(r.failure.code)
  {
    hide Before, TooLarge, Retain, Collect, Identities;
    CollectCounts(parse, Sort(ds), fallbacks);
    SortUsable(parse, ds);
    SameDocuments(ds);
    if Collect(parse, Sort(ds), fallbacks).Table? {
      TableKnows(parse, fallbacks, ds);
      CollectIs(parse, Sort(ds), fallbacks);
      RetainKeepsOrder(Collect(parse, Sort(ds), fallbacks).table, MAX_ENTRIES - MANDATORY_COUNT);
    }
  }

  // ----- Which definition wins -----

  predicate Defines(parse: Parser, d: Document, id: Bytes) {
    parse(d).Accepted? && parse(d).spec.id == id
  }

  lemma {:induction false} CollectIs(parse: Parser, ds: seq<Document>, t: seq<Spec>)
    requires Ordered(t) && Collect(parse, ds, t).Table?
    ensures Ordered(Collect(parse, ds, t).table)
    ensures forall id :: Lookup(Collect(parse, ds, t).table, id) == LastDefinition(parse, ds, id, t)
  {
    if ds != [] {
      hide Lookup, Ordered, Put;
      var front, last := ds[..|ds| - 1], ds[|ds| - 1];
      CollectIs(parse, front, t);
      if parse(last).Accepted? {
        PutIs(Collect(parse, front, t).table, parse(last).spec);
      }
    }
  }

  /** What the last of the documents that define the agent says; without one, what `t` says. */
  function LastDefinition(parse: Parser, ds: seq<Document>, id: Bytes, t: seq<Spec>): Option<Spec> {
    if ds == [] then Lookup(t, id)
    else
      var last := ds[|ds| - 1];
      if Defines(parse, last, id) then Some(parse(last).spec) else LastDefinition(parse, ds[..|ds| - 1], id, t)
  }

  lemma {:induction false} NoDefinition(parse: Parser, ds: seq<Document>, id: Bytes, t: seq<Spec>)
    requires forall d | d in ds :: !Defines(parse, d, id)
    ensures LastDefinition(parse, ds, id, t) == Lookup(t, id)
  {
    if ds != [] {
      hide Defines, Lookup;
      assert ds[|ds| - 1] in ds;
      assert forall d | d in ds[..|ds| - 1] :: d in ds;
      NoDefinition(parse, ds[..|ds| - 1], id, t);
    }
  }

  lemma {:induction false} DefinitionAt(parse: Parser, ds: seq<Document>, i: nat, id: Bytes, t: seq<Spec>)
    requires i < |ds| && Defines(parse, ds[i], id) && forall j | i < j < |ds| :: !Defines(parse, ds[j], id)
    ensures LastDefinition(parse, ds, id, t) == Some(parse(ds[i]).spec)
  {
    var front := ds[..|ds| - 1];
    if i < |front| {
      assert forall j | i <= j < |front| :: front[j] == ds[j];
      DefinitionAt(parse, front, i, id, t);
    }
  }

  /** `d` is the last document, in sorted order, that defines the agent. */
  predicate Wins(parse: Parser, ds: seq<Document>, d: Document, id: Bytes) {
    && d in ds && Defines(parse, d, id)
    && forall e | e in ds && Defines(parse, e, id) :: e == d || Before(e, d)
  }

  lemma {:induction false} WinnerExists(parse: Parser, ds: seq<Document>, id: Bytes)
    ensures (forall d | d in ds :: !Defines(parse, d, id)) || exists d :: Wins(parse, ds, d, id)
  {
    if ds != [] {
      var front, last := ds[..|ds| - 1], ds[|ds| - 1];
      WinnerExists(parse, front, id);
      if Defines(parse, last, id) {
        if d :| Wins(parse, front, d, id) {
          BeforeIsStrict(d, last);
          var w := if Before(last, d) then d else last;
          forall e | e in ds && Defines(parse, e, id)
            ensures e == w || Before(e, w)
          {
            if e != last && e != d && w == last {
              assert Before(e, d);
              if d != last {
                BeforeTransitive(e, d, last);
              }
            }
          }
          assert Wins(parse, ds, w, id);
        } else {
          assert Wins(parse, ds, last, id);
        }
      } else if d :| Wins(parse, front, d, id) {
        assert Wins(parse, ds, d, id);
      }
    }
  }

  /** The table holds, for each agent, the definition of its winning document; without one, the
      fallback. */
  lemma TableHoldsWinners(parse: Parser, fallbacks: seq<Spec>, ds: seq<Document>, id: Bytes)
    requires Ordered(fallbacks) && Collect(parse, Sort(ds), fallbacks).Table?
    ensures var table := Collect(parse, Sort(ds), fallbacks).table;
            && (forall d | Wins(parse, ds, d, id) :: Lookup(table, id) == Some(parse(d).spec))
            && ((forall d | d in ds :: !Defines(parse, d, id)) ==> Lookup(table, id) == Lookup(fallbacks, id))
  {
    var sorted := Sort(ds);
    SortSorts(ds);
    CollectIs(parse, sorted, fallbacks);
    SameDocuments(ds);
    if forall d | d in ds :: !Defines(parse, d, id) {
      NoDefinition(parse, sorted, id, fallbacks);
    }
    forall d | Wins(parse, ds, d, id)
      ensures Lookup(Collect(parse, sorted, fallbacks).table, id) == Some(parse(d).spec)
    {
      var i := LastOccurrence(sorted, d);
      forall j | i < j < |sorted|
        ensures !Defines(parse, sorted[j], id)
      {
        assert sorted[j] in sorted[i + 1..] && sorted[j] in sorted && !Before(sorted[j], sorted[i]);
      }
      DefinitionAt(parse, sorted, i, id, fallbacks);
    }
  }

  lemma SameDocuments(ds: seq<Document>)
    ensures forall d :: d in Sort(ds) <==> d in ds
  {
    assert forall d :: d in ds <==> d in multiset(ds);
    assert forall d :: d in Sort(ds) <==> d in multiset(Sort(ds));
  }

  lemma {:induction false} LastOccurrence(ds: seq<Document>, d: Document) returns (i: nat)
    requires d in ds
    ensures i < |ds| && ds[i] == d && d !in ds[i + 1..]
  {
    i := |ds| - 1;
    if ds[i] != d {
      var front := ds[..i];
      assert d in front;
      i := LastOccurrence(front, d);
      assert ds[i + 1..] == front[i + 1..] + [ds[|ds| - 1]];
    }
  }

  /** A usable custom definition always beats a built-in one. */
  lemma CustomWins(parse: Parser, ds: seq<Document>, custom: Document, id: Bytes)
    requires custom in ds && custom.origin == Custom && Defines(parse, custom, id)
    ensures exists d :: Wins(parse, ds, d, id) && d.origin == Custom
  {
    WinnerExists(parse, ds, id);
    var d :| Wins(parse, ds, d, id);
    assert d.origin == Custom;
  }

  // ----- What is kept -----

  function OthersIn(t: seq<Spec>): nat {
    if t == [] then 0 else OthersIn(t[..|t| - 1]) + (if IsMandatory(t[|t| - 1].id) then 0 else 1)
  }

  lemma {:induction false} OthersSplit(s: Spec, t: seq<Spec>)
    ensures OthersIn([s] + t) == (if IsMandatory(s.id) then 0 else 1) + OthersIn(t)
    decreases |t|
  {
    hide IsMandatory;
    if t == [] {
      assert ([s] + t)[..0] == [];
    } else {
      OthersSplit(s, t[..|t| - 1]);
      assert ([s] + t)[..|t|] == [s] + t[..|t| - 1];
    }
  }

  lemma {:induction false} RetainKeepsOrder(t: seq<Spec>, capacity: nat)
    requires Ordered(t)
    ensures Ordered(Retain(t, capacity)) && |Retain(t, capacity)| <= |t|
    ensures forall s | s in Retain(t, capacity) :: s in t
    decreases |t|
  {
    hide IsMandatory, Less;
    if t != [] {
      var rest := if IsMandatory(t[0].id) || capacity == 0 then capacity else capacity - 1;
      var kept := Retain(t[1..], rest);
      RetainKeepsOrder(t[1..], rest);
      forall k | 0 <= k < |kept|
        ensures Less(t[0].id, kept[k].id)
      {
        assert kept[k] in t[1..];
      }
    }
  }

  /** Entry `i` of the table is kept exactly if it is mandatory or fewer than `capacity` optional
      entries precede it. */
  lemma {:induction false} RetainedAre(t: seq<Spec>, capacity: nat, i: nat)
    requires Ordered(t) && i < |t|
    ensures t[i] in Retain(t, capacity) <==> IsMandatory(t[i].id) || OthersIn(t[..i]) < capacity
    decreases |t|
  {
    hide IsMandatory;
    var rest := if IsMandatory(t[0].id) || capacity == 0 then capacity else capacity - 1;
    RetainKeepsOrder(t[1..], rest);
    if i > 0 {
      LessIsStrict(t[0].id, t[i].id);
      hide Less, Ordered;
      RetainedAre(t[1..], rest, i - 1);
      assert t[..i] == [t[0]] + t[1..][..i - 1];
      OthersSplit(t[0], t[1..][..i - 1]);
    } else {
      FirstIsNotLater(t);
      hide Less, Ordered;
    }
  }

  lemma FirstIsNotLater(t: seq<Spec>)
    requires Ordered(t) && t != []
    ensures forall s | s in t[1..] :: s.id != t[0].id
  {
    forall s | s in t[1..]
      ensures s.id != t[0].id
    {
      var k :| 0 <= k < |t[1..]| && t[1..][k] == s;
      assert Less(t[0].id, t[k + 1].id);
      LessIsStrict(t[0].id, t[k + 1].id);
    }
  }

  function MandatoryIn(t: seq<Spec>): set<Bytes> {
    if t == [] then {} else MandatoryIn(t[1..]) + (if IsMandatory(t[0].id) then {t[0].id} else {})
  }

  lemma {:induction false} MandatoryInIs(t: seq<Spec>)
    ensures forall id | id in MandatoryIn(t) :: IsMandatory(id) && exists s | s in t :: s.id == id
  {
    hide IsMandatory;
    if t != [] {
      MandatoryInIs(t[1..]);
      assert t[0] in t;
      assert forall s | s in t[1..] :: s in t;
    }
  }

  /** The result holds at most the capacity and one entry for each mandatory identity. */
  lemma {:induction false} RetainedCount(t: seq<Spec>, capacity: nat)
    requires Ordered(t)
    ensures |Retain(t, capacity)| <= capacity + |MandatoryIn(t)|
    decreases |t|
  {
    hide IsMandatory, Less;
    if t != [] {
      FirstIsNotLater(t);
      MandatoryInIs(t[1..]);
      RetainedCount(t[1..], if IsMandatory(t[0].id) || capacity == 0 then capacity else capacity - 1);
      assert t[0].id !in MandatoryIn(t[1..]);
    }
  }

  lemma {:induction false} ElementsBound(t: set<Bytes>, all: seq<Bytes>)
    requires forall x | x in t :: x in all
    ensures |t| <= |all|
    decreases |all|
  {
    if all == [] {
      assert forall x | x in t :: x in all;
      assert t == {};
    } else {
      var last := all[|all| - 1];
      ElementsBound(t - {last}, all[..|all| - 1]);
      assert |t| <= |t - {last}| + 1;
    }
  }

  predicate HasMandatory(t: seq<Spec>) {
    forall id | id in Mandatory() :: Lookup(t, id).Some?
  }

  /** A snapshot: strictly sorted by identity, complete, and within the cap. */
  predicate SnapshotOk(snapshot: seq<Spec>) {
    Ordered(snapshot) && HasMandatory(snapshot) && |snapshot| <= MAX_ENTRIES
  }

  lemma OrderedLookup(t: seq<Spec>, s: Spec)
    requires Ordered(t) && s in t
    ensures Lookup(t, s.id) == Some(s)
  {
    var found := Lookup(t, s.id).value;
    var i :| 0 <= i < |t| && t[i] == s;
    var j :| 0 <= j < |t| && t[j] == found;
    LessIsStrict(t[i].id, t[j].id);
  }

  lemma KeptMandatory(table: seq<Spec>, capacity: nat)
    requires Ordered(table) && HasMandatory(table)
    ensures HasMandatory(Retain(table, capacity))
  {
    hide Mandatory;
    var kept := Retain(table, capacity);
    forall id | id in Mandatory()
      ensures Lookup(kept, id).Some?
    {
      var s := Lookup(table, id).value;
      var i :| 0 <= i < |table| && table[i] == s;
      RetainedAre(table, capacity, i);
      assert table[i] in kept;
    }
  }

  lemma {:induction false} CollectKeepsMandatory(parse: Parser, ds: seq<Document>, t: seq<Spec>)
    requires Ordered(t) && HasMandatory(t) && Collect(parse, ds, t).Table?
    ensures HasMandatory(Collect(parse, ds, t).table)
    decreases |ds|
  {
    hide Mandatory, Defines;
    if ds != [] {
      CollectKeepsMandatory(parse, ds[..|ds| - 1], t);
      CollectIs(parse, ds[..|ds| - 1], t);
      if parse(ds[|ds| - 1]).Accepted? {
        PutIs(Collect(parse, ds[..|ds| - 1], t).table, parse(ds[|ds| - 1]).spec);
      }
    }
  }

  /** A successful reload leaves a good snapshot, whatever was offered. Each entry is what the
      table holds for its identity. */
  lemma ReloadedIsGood(parse: Parser, fallbacks: seq<Spec>, ds: seq<Document>)
    requires SnapshotOk(fallbacks) && Reloaded(parse, fallbacks, ds).Loaded?
    ensures var r := Reloaded(parse, fallbacks, ds);
            var table := Collect(parse, Sort(ds), fallbacks).table;
            && SnapshotOk(r.snapshot) && Ordered(table)
            && r.summary.retained == |r.snapshot| && r.summary.retained + r.summary.truncated == |table|
            && (forall id :: Lookup(r.snapshot, id).Some? ==> Lookup(r.snapshot, id) == Lookup(table, id))
            && (forall id | id in Mandatory() :: Lookup(r.snapshot, id) == Lookup(table, id))
  {
    hide Mandatory, IsMandatory, HasMandatory, Defines, Collect, Retain, Sort, Lookup, TooLarge;
    var table := Collect(parse, Sort(ds), fallbacks).table;
    var kept := Retain(table, MAX_ENTRIES - MANDATORY_COUNT);
    CollectIs(parse, Sort(ds), fallbacks);
    CollectKeepsMandatory(parse, Sort(ds), fallbacks);
    KeptFits(table);
    KeptMandatory(table, MAX_ENTRIES - MANDATORY_COUNT);
    KeptIsInTable(table, MAX_ENTRIES - MANDATORY_COUNT);
    MandatoryIsKept(table, kept);
  }

  lemma KeptFits(table: seq<Spec>)
    requires Ordered(table)
    ensures |Retain(table, MAX_ENTRIES - MANDATORY_COUNT)| <= MAX_ENTRIES
  {
    hide Mandatory;
    RetainedCount(table, MAX_ENTRIES - MANDATORY_COUNT);
    MandatoryInIs(table);
    ElementsBound(MandatoryIn(table), Mandatory());
  }

  lemma KeptIsInTable(table: seq<Spec>, capacity: nat)
    requires Ordered(table)
    ensures Ordered(Retain(table, capacity)) && |Retain(table, capacity)| <= |table|
    ensures forall id :: Lookup(Retain(table, capacity), id).Some? ==> Lookup(Retain(table, capacity), id) == Lookup(table, id)
  {
    hide IsMandatory;
    var kept := Retain(table, capacity);
    RetainKeepsOrder(table, capacity);
    forall id | Lookup(kept, id).Some?
      ensures Lookup(kept, id) == Lookup(table, id)
    {
      OrderedLookup(table, Lookup(kept, id).value);
    }
  }

  lemma MandatoryIsKept(table: seq<Spec>, kept: seq<Spec>)
    requires HasMandatory(kept)
    requires forall id :: Lookup(kept, id).Some? ==> Lookup(kept, id) == Lookup(table, id)
    ensures forall id | id in Mandatory() :: Lookup(kept, id) == Lookup(table, id)
  {
    hide Mandatory, Lookup;
  }
}
