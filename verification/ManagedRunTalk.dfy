// What a managed run says to its provider and its tools, as values: exchanges, invocations, totals.

module ManagedRunTalk {
  import opened Options
  import opened Utf8
  import opened ManagedRunModel

  const MAX_TOKENS: nat := 0xFFFF_FFFF_FFFF_FFFF
  const MAX_OUTPUT_BYTES: nat := 262_144

  type Tokens = n: nat | n <= MAX_TOKENS

  datatype Reply = Reply(response: ResponseId, inputTokens: Tokens, outputTokens: Tokens, retained: Option<nat>,
                         calls: seq<Call>, text: seq<byte>)

  /** What the run was started with; the instruction to continue from a handoff; or only the results of the calls. */
  datatype Input = Task | Continue | Results

  /** One turn the run acted on: what was sent and what came back. */
  datatype Exchange = Exchange(input: Input, previous: Option<ResponseId>, answers: seq<CallId>, reply: Reply)

  /** What the owner's current policy grants. */
  datatype Authority = Authority(ownerMatches: bool, roots: seq<nat>, grants: seq<Access>, denials: seq<Access>, shell: bool)

  /** A tool invoked for call `call` of exchange `exchange`; a worker's under the policy read just before. */
  datatype Invocation = Invocation(exchange: nat, call: nat, under: Option<Authority>)

  datatype Tool = Tool(name: Name, onlyReads: bool)

  /** `inheritable`: tools any worker may be given. */
  datatype Rules = Rules(inheritable: Name -> bool)

  function CallIds(calls: seq<Call>): (ids: seq<CallId>)
    ensures |ids| == |calls|
  {
    seq(|calls|, i requires 0 <= i < |calls| => calls[i].id)
  }

  // ----- Which tools -----

  predicate Offered(rules: Rules, q: Request, t: Tool) {
    && (!q.readOnly || t.onlyReads)
    && (q.scope.Some? ==> rules.inheritable(t.name) && t.name in q.scope.value.allowedTools)
  }

  /** A run without tools invokes none; a read-only run only tools that read; a worker only tools of the
      scope it inherited. */
  predicate MayInvoke(rules: Rules, q: Request, catalog: seq<Tool>, name: Name) {
    && q.allowTools
    && (q.readOnly || q.scope.Some? ==> exists t | t in catalog :: t.name == name && Offered(rules, q, t))
  }

  /** The policy still grants all of the scope a worker was started with. */
  predicate StillGranted(scope: Scope, current: Authority) {
    && current.ownerMatches && scope.roots != [] && scope.grants != []
    && (forall root | root in scope.roots :: root in current.roots)
    && (forall grant | grant in scope.grants :: grant in current.grants && grant !in current.denials)
    && (scope.shell ==> current.shell && Execute in scope.grants)
  }

  // ----- The conversation -----

  predicate OncePerResponse(ex: seq<Exchange>) {
    forall i, j | 0 <= i < j < |ex| :: ex[i].reply.response != ex[j].reply.response
  }

  /** What may be sent after an exchange: the results of exactly its calls in their order under its
      response, or the instruction to continue under a successor's response. */
  predicate MayFollow(e: Exchange, input: Input, previous: Option<ResponseId>, answers: seq<CallId>) {
    && e.reply.calls != []
    && match input
       case Task => false
       case Results => previous == Some(e.reply.response) && answers == CallIds(e.reply.calls)
       case Continue => previous.Some? && answers == []
  }

  predicate MaySend(ex: seq<Exchange>, input: Input, previous: Option<ResponseId>, answers: seq<CallId>) {
    if ex == [] then input == Task && previous == None && answers == []
    else MayFollow(ex[|ex| - 1], input, previous, answers)
  }

  predicate Chained(ex: seq<Exchange>) {
    forall k | 0 <= k < |ex| :: MaySend(ex[..k], ex[k].input, ex[k].previous, ex[k].answers)
  }

  predicate Before(a: Invocation, exchange: nat, call: nat) {
    a.exchange < exchange || (a.exchange == exchange && a.call < call)
  }

  /** Each invocation is for a call the provider made and the run permits, a worker's under a policy that still
      grants its scope, in the order of the calls, and none is repeated. */
  predicate InvocationsOk(rules: Rules, q: Request, catalog: seq<Tool>, ex: seq<Exchange>, inv: seq<Invocation>) {
    && (forall i | 0 <= i < |inv| ::
          && inv[i].exchange < |ex| && inv[i].call < |ex[inv[i].exchange].reply.calls|
          && MayInvoke(rules, q, catalog, ex[inv[i].exchange].reply.calls[inv[i].call].name)
          && UnderPolicy(q, inv[i]))
    && (forall i, j | 0 <= i < j < |inv| :: Before(inv[i], inv[j].exchange, inv[j].call))
  }

  predicate UnderPolicy(q: Request, v: Invocation) {
    q.scope.Some? ==> v.under.Some? && StillGranted(q.scope.value, v.under.value)
  }

  /** No invocation for a call at or after this one. */
  predicate Until(inv: seq<Invocation>, exchange: nat, call: nat) {
    forall i | 0 <= i < |inv| :: Before(inv[i], exchange, call)
  }

  predicate Invoked(inv: seq<Invocation>, exchange: nat, call: nat) {
    exists i | 0 <= i < |inv| :: inv[i].exchange == exchange && inv[i].call == call
  }

  /** Of these calls of the exchange, exactly those the run permits were invoked. */
  predicate InvokedExactly(rules: Rules, q: Request, catalog: seq<Tool>, calls: seq<Call>, inv: seq<Invocation>, exchange: nat) {
    forall i | 0 <= i < |calls| :: Invoked(inv, exchange, i) <==> MayInvoke(rules, q, catalog, calls[i].name)
  }

  /** Of the first `n` exchanges, exactly the calls the run permits were invoked. */
  predicate AllInvoked(rules: Rules, q: Request, catalog: seq<Tool>, ex: seq<Exchange>, inv: seq<Invocation>, n: nat)
    requires n <= |ex|
  {
    forall k | 0 <= k < n :: InvokedExactly(rules, q, catalog, ex[k].reply.calls, inv, k)
  }

  lemma InvokingKeeps(rules: Rules, q: Request, catalog: seq<Tool>, ex: seq<Exchange>, inv: seq<Invocation>, at: Invocation)
    requires InvocationsOk(rules, q, catalog, ex, inv) && Until(inv, at.exchange, at.call) && UnderPolicy(q, at)
    requires at.exchange < |ex| && at.call < |ex[at.exchange].reply.calls|
    requires MayInvoke(rules, q, catalog, ex[at.exchange].reply.calls[at.call].name)
    ensures InvocationsOk(rules, q, catalog, ex, inv + [at])
    ensures Until(inv + [at], at.exchange, at.call + 1)
  {
    hide MayInvoke, UnderPolicy;
  }

  /** A call after those before it: invoked as the run permits, or refused as it does not. */
  lemma NextCall(rules: Rules, q: Request, catalog: seq<Tool>, calls: seq<Call>, i: nat, inv: seq<Invocation>,
                 inv': seq<Invocation>, exchange: nat)
    requires i < |calls| && InvokedExactly(rules, q, catalog, calls[..i], inv, exchange) && Until(inv, exchange, i)
    requires if MayInvoke(rules, q, catalog, calls[i].name)
             then |inv'| == |inv| + 1 && inv <= inv' && inv'[|inv|].exchange == exchange && inv'[|inv|].call == i
             else inv' == inv
    ensures InvokedExactly(rules, q, catalog, calls[..i + 1], inv', exchange)
  {
    hide MayInvoke;
    forall k | 0 <= k < i
      ensures Invoked(inv', exchange, k) <==> Invoked(inv, exchange, k)
    {
      if Invoked(inv, exchange, k) {
        var j :| 0 <= j < |inv| && inv[j].exchange == exchange && inv[j].call == k;
        assert inv'[j] == inv[j];
      }
    }
    assert forall k | 0 <= k < i :: calls[..i][k] == calls[k] && calls[..i + 1][k] == calls[k];
    if MayInvoke(rules, q, catalog, calls[i].name) {
      assert inv'[|inv|].call == i;
    }
    assert Invoked(inv', exchange, i) <==> MayInvoke(rules, q, catalog, calls[i].name);
  }

  /** The invocations for a later exchange leave those of the earlier ones as they are. */
  lemma EarlierStay(rules: Rules, q: Request, catalog: seq<Tool>, ex: seq<Exchange>, inv: seq<Invocation>,
                    inv': seq<Invocation>, n: nat)
    requires n <= |ex| && inv <= inv' && AllInvoked(rules, q, catalog, ex, inv, n)
    requires forall j | |inv| <= j < |inv'| :: inv'[j].exchange >= n
    ensures AllInvoked(rules, q, catalog, ex, inv', n)
  {
    hide MayInvoke;
    forall k, i | 0 <= k < n && 0 <= i < |ex[k].reply.calls|
      ensures Invoked(inv', k, i) <==> Invoked(inv, k, i)
    {
      if Invoked(inv, k, i) {
        var j :| 0 <= j < |inv| && inv[j].exchange == k && inv[j].call == i;
        assert inv'[j] == inv[j];
      }
    }
  }

  lemma ExchangingKeeps(rules: Rules, q: Request, catalog: seq<Tool>, ex: seq<Exchange>, inv: seq<Invocation>, e: Exchange)
    requires OncePerResponse(ex) && Chained(ex) && InvocationsOk(rules, q, catalog, ex, inv)
    requires MaySend(ex, e.input, e.previous, e.answers) && e.reply.response !in Responses(ex)
    ensures OncePerResponse(ex + [e]) && Chained(ex + [e]) && InvocationsOk(rules, q, catalog, ex + [e], inv)
    ensures Responses(ex + [e]) == Responses(ex) + {e.reply.response}
    ensures Until(inv, |ex|, 0)
    ensures forall n | 0 <= n <= |ex| && AllInvoked(rules, q, catalog, ex, inv, n) ::
              AllInvoked(rules, q, catalog, ex + [e], inv, n)
  {
    hide MaySend, MayInvoke, InvokedExactly;
    assert (ex + [e])[..|ex|] == ex;
    assert forall k | 0 <= k < |ex| :: (ex + [e])[..k] == ex[..k];
  }

  function Responses(ex: seq<Exchange>): set<ResponseId> {
    set e | e in ex :: e.reply.response
  }

  lemma NothingSaid(rules: Rules, q: Request, catalog: seq<Tool>)
    ensures OncePerResponse([]) && Chained([]) && InvocationsOk(rules, q, catalog, [], []) && Responses([]) == {}
    ensures InputSum([]) == 0 && OutputSum([]) == 0 && MaySend([], Task, None, [])
  {
  }

  // ----- Totals -----

  function InputSum(ex: seq<Exchange>): nat {
    if ex == [] then 0 else InputSum(ex[..|ex| - 1]) + ex[|ex| - 1].reply.inputTokens
  }

  function OutputSum(ex: seq<Exchange>): nat {
    if ex == [] then 0 else OutputSum(ex[..|ex| - 1]) + ex[|ex| - 1].reply.outputTokens
  }

  function Saturated(n: nat): Tokens {
    if n <= MAX_TOKENS then n else MAX_TOKENS
  }

  /** Adding with a bound at each step is bounding the sum. */
  lemma SaturatingSum(ex: seq<Exchange>, e: Exchange)
    ensures InputSum(ex + [e]) == InputSum(ex) + e.reply.inputTokens
    ensures OutputSum(ex + [e]) == OutputSum(ex) + e.reply.outputTokens
    ensures var total, more := Saturated(InputSum(ex)), e.reply.inputTokens;
            (if total > MAX_TOKENS - more then MAX_TOKENS else total + more) == Saturated(InputSum(ex + [e]))
    ensures var total, more := Saturated(OutputSum(ex)), e.reply.outputTokens;
            (if total > MAX_TOKENS - more then MAX_TOKENS else total + more) == Saturated(OutputSum(ex + [e]))
  {
    assert (ex + [e])[..|ex|] == ex;
  }

  /** The totals of a record are those of the exchanges, each counted once. */
  predicate Totals(r: Record, ex: seq<Exchange>) {
    r.inputTokens == Saturated(InputSum(ex)) && r.outputTokens == Saturated(OutputSum(ex))
  }
}
