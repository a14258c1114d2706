// The manager status as the dashboard writes it and as the byte budget measures it.

module DashboardJson {
  import opened Options
  import opened Utf8
  import opened JsonText
  import Calendar

  // ----- Bounded output -----

  /** Output so far, or `None` once something was refused. */
  function Emit(out: Option<Bytes>, text: Bytes, maximum: nat): Option<Bytes> {
    if out.Some? && |out.value| + |text| <= maximum then Some(out.value + text) else None
  }

  lemma EmitTwice(out: Option<Bytes>, a: Bytes, b: Bytes, maximum: nat)
    ensures Emit(Emit(out, a, maximum), b, maximum) == Emit(out, a + b, maximum)
  {
    if out.Some? {
      assert out.value + a + b == out.value + (a + b);
    }
  }

  /** Text a writer accepts in a string. */
  predicate IsPlain(s: Bytes) {
    WellFormed(s) && 0 !in s
  }

  predicate AllPlain(v: Json)
    decreases v, 1
  {
    match v
    case String(s) => IsPlain(s)
    case Object(members) => MembersPlain(members)
    case _ => true
  }

  predicate MembersPlain(ms: seq<Member>)
    decreases ms, 0
  {
    ms == [] || (MembersPlain(ms[..|ms| - 1]) && IsPlain(ms[|ms| - 1].name) && AllPlain(ms[|ms| - 1].value))
  }

  /** What a writer has once it wrote the opening brace and these members after `start`. */
  function Written(start: Option<Bytes>, done: seq<Member>, maximum: nat): Option<Bytes> {
    if MembersPlain(done) then Emit(start, [OPEN] + MembersText(done), maximum) else None
  }

  /** A member with an ASCII name. */
  function M(name: string, value: Json): Member { Member(Ascii(name), value) }

  function MemberPrefix(m: Member, first: bool): Bytes {
    (if first then [] else [COMMA]) + Quoted(m.name) + [COLON]
  }

  /** What writing one more member and its value does. */
  function Next(out: Option<Bytes>, first: bool, m: Member, maximum: nat): Option<Bytes> {
    var named := if IsPlain(m.name) then Emit(out, MemberPrefix(m, first), maximum) else None;
    if AllPlain(m.value) then Emit(named, Text(m.value), maximum) else None
  }

  lemma AppendText(done: seq<Member>, m: Member)
    ensures MembersText(done + [m]) == MembersText(done) + (if done == [] then [] else [COMMA]) + MemberText(m)
    ensures MembersPlain(done + [m]) <==> MembersPlain(done) && IsPlain(m.name) && AllPlain(m.value)
  {
    hide MemberText, IsPlain, AllPlain;
    assert (done + [m])[..|done|] == done;
  }

  lemma FourParts(before: Bytes, comma: Bytes, name: Bytes, value: Bytes)
    ensures ([OPEN] + before) + (comma + name + [COLON]) + value == [OPEN] + (before + comma + (name + [COLON] + value))
  {
  }

  lemma WrittenNext(start: Option<Bytes>, done: seq<Member>, m: Member, maximum: nat)
    ensures Next(Written(start, done, maximum), done == [], m, maximum) == Written(start, done + [m], maximum)
  {
    AppendText(done, m);
    hide Text, Quoted, IsPlain, AllPlain, MembersText, MembersPlain, Emit;
    if MembersPlain(done) && IsPlain(m.name) && AllPlain(m.value) {
      var comma: Bytes := if done == [] then [] else [COMMA];
      var name, before := comma + Quoted(m.name) + [COLON], [OPEN] + MembersText(done);
      EmitTwice(start, before, name, maximum);
      EmitTwice(start, before + name, Text(m.value), maximum);
      FourParts(MembersText(done), comma, Quoted(m.name), Text(m.value));
    } else {
      RefusedStays(MemberPrefix(m, done == []), Text(m.value), maximum);
    }
  }

  lemma RefusedStays(a: Bytes, b: Bytes, maximum: nat)
    ensures Emit(None, a, maximum) == None && Emit(None, b, maximum) == None
  {
  }

  class JsonWriter {
    const maximum: nat
    var output: Bytes
    /** Writing has failed; the exception of the original leaves the document behind. */
    var rejected: bool

    constructor (maximum: nat)
      ensures this.maximum == maximum && View() == Some([])
    {
      this.maximum := maximum;
      output, rejected := [], false;
    }

    function View(): Option<Bytes>
      reads this
    {
      if rejected then None else Some(output)
    }

    method Raw(value: Bytes)
      modifies this
      ensures View() == Emit(old(View()), value, maximum)
    {
      if rejected {
        return;
      }
      if |output| > maximum || |value| > maximum - |output| {
        rejected := true;
        return;
      }
      output := output + value;
    }

    method Character(value: byte)
      modifies this
      ensures View() == Emit(old(View()), [value], maximum)
    {
      if rejected {
        return;
      }
      if |output| >= maximum {
        rejected := true;
        return;
      }
      output := output + [value];
    }

    method Boolean(value: bool)
      modifies this
      ensures View() == Emit(old(View()), Text(Bool(value)), maximum)
    {
      Raw(if value then TRUE else FALSE);
    }

    method NullValue()
      modifies this
      ensures View() == Emit(old(View()), Text(Null), maximum)
    {
      Raw(NULL);
    }

    method Integer(value: int)
      modifies this
      ensures View() == Emit(old(View()), Text(Int(value)), maximum)
    {
      Raw(Decimal(value));
    }

    /** One character of a string. */
    method Escape(c: byte)
      modifies this
      ensures View() == Emit(old(View()), Escaped(c), maximum)
    {
      var short := ShortEscape(c);
      if short.Some? {
        Raw([BACKSLASH, short.value]);
      } else if c < 0x20 {
        ghost var start := View();
        Raw([BACKSLASH, 117, 48, 48]);
        Character(HexDigit(c / 16));
        EmitTwice(start, [BACKSLASH, 117, 48, 48], [HexDigit(c / 16)], maximum);
        Character(HexDigit(c % 16));
        EmitTwice(start, [BACKSLASH, 117, 48, 48] + [HexDigit(c / 16)], [HexDigit(c % 16)], maximum);
        assert [BACKSLASH, 117, 48, 48] + [HexDigit(c / 16)] + [HexDigit(c % 16)] == Escaped(c);
      } else {
        Character(c);
      }
    }

    method String(value: Bytes)
      modifies this
      ensures View() == if IsPlain(value) then Emit(old(View()), Quoted(value), maximum) else None
    {
      var utf8 := IsStrictUtf8(value);
      if 0 in value || !utf8 {
        rejected := true;
        return;
      }
      hide Escaped, Emit, WellFormed;
      ghost var start := View();
      Character(QUOTE);
      var i := 0;
      assert EscapedAll(value[..0]) == [] && [QUOTE] + [] == [QUOTE];
      while i < |value|
        invariant i <= |value| && View() == Emit(start, [QUOTE] + EscapedAll(value[..i]), maximum)
      {
        Escape(value[i]);
        EmitTwice(start, [QUOTE] + EscapedAll(value[..i]), Escaped(value[i]), maximum);
        EscapedNext(value, i);
        assert [QUOTE] + EscapedAll(value[..i]) + Escaped(value[i]) == [QUOTE] + (EscapedAll(value[..i]) + Escaped(value[i]));
        i := i + 1;
      }
      assert value[..i] == value;
      Character(QUOTE);
      EmitTwice(start, [QUOTE] + EscapedAll(value), [QUOTE], maximum);
    }

    /** A comma unless first, the name, a colon. */
    method Member(first: bool, name: Bytes)
      modifies this
      ensures View() == if IsPlain(name) then Emit(old(View()), MemberPrefix(JsonText.Member(name, Null), first), maximum)
                        else None
    {
      hide Quoted, IsPlain;
      ghost var start := View();
      ghost var comma: Bytes := if first then [] else [COMMA];
      if !first {
        Character(COMMA);
        EmitTwice(start, comma, Quoted(name), maximum);
      }
      String(name);
      assert first ==> comma + Quoted(name) == Quoted(name);
      Character(COLON);
      EmitTwice(start, comma + Quoted(name), [COLON], maximum);
    }

    // ----- Members of an object, one after the other -----

    method PutBool(ghost start: Option<Bytes>, ghost done: seq<Member>, first: bool, name: string, value: bool)
      requires first <==> done == []
      requires View() == Written(start, done, maximum)
      modifies this
      ensures View() == Written(start, done + [M(name, Bool(value))], maximum)
    {
      hide Written, Emit, Text, IsPlain;
      Member(first, Ascii(name));
      Boolean(value);
      WrittenNext(start, done, M(name, Bool(value)), maximum);
    }

    method PutInt(ghost start: Option<Bytes>, ghost done: seq<Member>, first: bool, name: string, value: int)
      requires first <==> done == []
      requires View() == Written(start, done, maximum)
      modifies this
      ensures View() == Written(start, done + [M(name, Int(value))], maximum)
    {
      hide Written, Emit, Text, IsPlain;
      Member(first, Ascii(name));
      Integer(value);
      WrittenNext(start, done, M(name, Int(value)), maximum);
    }

    method PutString(ghost start: Option<Bytes>, ghost done: seq<Member>, first: bool, name: string, value: Bytes)
      requires first <==> done == []
      requires View() == Written(start, done, maximum)
      modifies this
      ensures View() == Written(start, done + [M(name, Json.String(value))], maximum)
    {
      hide Written, Emit, IsPlain;
      Member(first, Ascii(name));
      String(value);
      WrittenNext(start, done, M(name, Json.String(value)), maximum);
    }

    method PutNull(ghost start: Option<Bytes>, ghost done: seq<Member>, first: bool, name: string)
      requires first <==> done == []
      requires View() == Written(start, done, maximum)
      modifies this
      ensures View() == Written(start, done + [M(name, Null)], maximum)
    {
      hide Written, Emit, Text, IsPlain;
      Member(first, Ascii(name));
      NullValue();
      WrittenNext(start, done, M(name, Null), maximum);
    }
  }

  lemma {:induction false} EscapedNext(s: Bytes, i: nat)
    requires i < |s|
    ensures EscapedAll(s[..i + 1]) == EscapedAll(s[..i]) + Escaped(s[i])
    decreases |s|
  {
    hide Escaped;
    if i > 0 {
      EscapedNext(s[1..], i - 1);
      assert s[..i + 1][1..] == s[1..][..i] && s[..i][1..] == s[1..][..i - 1];
      assert Escaped(s[0]) + (EscapedAll(s[1..][..i - 1]) + Escaped(s[i])) ==
             Escaped(s[0]) + EscapedAll(s[1..][..i - 1]) + Escaped(s[i]);
    } else {
      assert s[..1][1..] == [] && s[..0] == [];
    }
  }

  // ----- The byte budget -----

  function Count(measured: Option<nat>, n: nat, maximum: nat): Option<nat> {
    if measured.Some? && measured.value + n <= maximum then Some(measured.value + n) else None
  }

  class JsonBudget {
    const maximum: nat
    var measured: nat
    var rejected: bool

    constructor (maximum: nat)
      ensures this.maximum == maximum && View() == Some(0)
    {
      this.maximum := maximum;
      measured, rejected := 0, false;
    }

    function View(): Option<nat>
      reads this
    {
      if rejected then None else Some(measured)
    }

    method Add(count: nat)
      modifies this
      ensures View() == Count(old(View()), count, maximum)
    {
      if rejected {
        return;
      }
      if measured > maximum || count > maximum - measured {
        rejected := true;
        return;
      }
      measured := measured + count;
    }

    method String(value: Bytes)
      modifies this
      ensures View() == Count(old(View()), 2 + StringSize(value), maximum)
    {
      Add(1);
      var i := 0;
      while i < |value|
        invariant i <= |value| && View() == Count(old(View()), 1 + StringSize(value[..i]), maximum)
      {
        SizeNext(value, i);
        Add(EscapedSize(value[i]));
        i := i + 1;
      }
      assert value[..i] == value;
      Add(1);
    }

    method Member(first: bool, name: Bytes)
      modifies this
      ensures View() == Count(old(View()), (if first then 0 else 1) + 2 + StringSize(name) + 1, maximum)
    {
      if !first {
        Add(1);
      }
      String(name);
      Add(1);
    }

    method Integer(value: int)
      modifies this
      ensures View() == Count(old(View()), Size(Int(value)), maximum)
    {
      SizeIsLength(Int(value));
      Add(|Decimal(value)|);
    }

    /** A value that is not an object. */
    method Leaf(value: Json)
      requires !value.Object?
      modifies this
      ensures View() == Count(old(View()), Size(value), maximum)
    {
      match value {
        case Null => Add(4);
        case Bool(b) => Add(if b then 4 else 5);
        case Int(n) => Integer(n);
        case String(s) => String(s);
        case Object(_) =>
      }
    }

    method Put(ghost start: Option<nat>, ghost done: seq<JsonText.Member>, first: bool, name: string, value: Json)
      requires (first <==> done == []) && !value.Object?
      requires View() == Count(start, 1 + MembersSize(done), maximum)
      modifies this
      ensures View() == Count(start, 1 + MembersSize(done + [M(name, value)]), maximum)
    {
      hide Size, MembersSize, StringSize;
      Member(first, Ascii(name));
      Leaf(value);
      AppendSize(done, M(name, value));
    }
  }

  lemma AppendSize(done: seq<JsonText.Member>, m: JsonText.Member)
    ensures MembersSize(done + [m]) == MembersSize(done) + (if done == [] then 0 else 1) + MemberSize(m)
  {
    assert (done + [m])[..|done|] == done;
  }

  lemma {:induction false} SizeNext(s: Bytes, i: nat)
    requires i < |s|
    ensures StringSize(s[..i + 1]) == StringSize(s[..i]) + EscapedSize(s[i])
    decreases |s|
  {
    if i > 0 {
      SizeNext(s[1..], i - 1);
      assert s[..i + 1][1..] == s[1..][..i] && s[..i][1..] == s[1..][..i - 1];
    } else {
      assert s[..1][1..] == [] && s[..0] == [];
    }
  }

  // ----- The manager status -----

  datatype ServiceState = Stopped | Starting | Running | Restarting | Stopping | Failed

  function StateName(s: ServiceState): string {
    match s
    case Stopped => "stopped"
    case Starting => "starting"
    case Running => "running"
    case Restarting => "restarting"
    case Stopping => "stopping"
    case Failed => "failed"
  }

  /** `startedAt` in milliseconds since 1970, intervals in seconds. */
  datatype ManagerStatus = ManagerStatus(
    ok: bool, isManager: bool, state: ServiceState, desiredRunning: bool, httpListening: bool, serviceActive: bool,
    processId: nat, startedAt: Option<nat>, uptime: Option<nat>, restartCount: nat, lastError: Option<Bytes>,
    autoRestart: bool, watchdogInterval: nat, openBrowserOnStart: bool, dashboardHost: Bytes, dashboardPort: nat,
    refreshInterval: nat, home: Bytes, version: Bytes)

  /** The address of a canonical loopback host. */
  function Url(host: Bytes, port: nat): Option<Bytes> {
    if host == Ascii("127.0.0.1") then Some(Ascii("http://127.0.0.1:") + Decimal(port) + Ascii("/"))
    else if host == Ascii("::1") then Some(Ascii("http://[::1]:") + Decimal(port) + Ascii("/"))
    else None
  }

  /** What both codecs require of a status before they look at its size. */
  predicate IsValid(s: ManagerStatus) {
    Url(s.dashboardHost, s.dashboardPort).Some? && (s.startedAt.Some? ==> s.startedAt.value < Calendar.YEAR_10000)
  }

  function OptionalInt(n: Option<nat>): (v: Json)
    ensures !v.Object?
  {
    if n.Some? then Int(n.value) else Null
  }

  function StartedJson(at: Option<nat>): (v: Json)
    ensures !v.Object?
  {
    if at.Some? then String(Ascii(Calendar.Utc(at.value))) else Null
  }

  function ErrorJson(e: Option<Bytes>): (v: Json)
    ensures !v.Object?
  {
    if e.Some? then String(e.value) else Null
  }

  function DashboardMembers(s: ManagerStatus): seq<JsonText.Member>
    requires IsValid(s)
  {
    [M("host", String(s.dashboardHost)), M("port", Int(s.dashboardPort)),
     M("url", String(Url(s.dashboardHost, s.dashboardPort).value)), M("refresh_interval_sec", Int(s.refreshInterval))]
  }

  function StateMembers(s: ManagerStatus): seq<JsonText.Member> {
    [M("ok", Bool(s.ok)), M("manager", Bool(s.isManager)), M("state", String(Ascii(StateName(s.state)))),
     M("desired_running", Bool(s.desiredRunning)), M("http_listening", Bool(s.httpListening)),
     M("service_active", Bool(s.serviceActive))]
  }

  function ProcessMembers(s: ManagerStatus): seq<JsonText.Member> {
    [M("pid", Int(s.processId)), M("started_at", StartedJson(s.startedAt)), M("uptime_sec", OptionalInt(s.uptime)),
     M("restart_count", Int(s.restartCount)), M("last_error", ErrorJson(s.lastError))]
  }

  function PolicyMembers(s: ManagerStatus): seq<JsonText.Member> {
    [M("auto_restart", Bool(s.autoRestart)), M("watchdog_interval_sec", Int(s.watchdogInterval)),
     M("open_browser_on_start", Bool(s.openBrowserOnStart))]
  }

  function PlaceMembers(s: ManagerStatus): seq<JsonText.Member>
    requires IsValid(s)
  {
    [M("dashboard", Object(DashboardMembers(s))), M("home", String(s.home)), M("version", String(s.version))]
  }

  /** In the order of the writer and of the budget. */
  function StatusMembers(s: ManagerStatus): seq<JsonText.Member>
    requires IsValid(s)
  {
    StateMembers(s) + ProcessMembers(s) + PolicyMembers(s) + PlaceMembers(s)
  }

  function StatusJson(s: ManagerStatus): Json
    requires IsValid(s)
  {
    Object(StatusMembers(s))
  }

  method MeasureDashboard(b: JsonBudget, s: ManagerStatus)
    requires IsValid(s)
    modifies b
    ensures b.View() == Count(old(b.View()), Size(Object(DashboardMembers(s))), b.maximum)
  {
    hide Ascii, Url, Size, MembersSize, M;
    ghost var start := b.View();
    ghost var done: seq<JsonText.Member> := [];
    NoSize();
    b.Add(1);
    b.Put(start, done, true, "host", String(s.dashboardHost));
    done := done + [M("host", String(s.dashboardHost))];
    b.Put(start, done, false, "port", Int(s.dashboardPort));
    done := done + [M("port", Int(s.dashboardPort))];
    b.Put(start, done, false, "url", String(Url(s.dashboardHost, s.dashboardPort).value));
    done := done + [M("url", String(Url(s.dashboardHost, s.dashboardPort).value))];
    b.Put(start, done, false, "refresh_interval_sec", Int(s.refreshInterval));
    done := done + [M("refresh_interval_sec", Int(s.refreshInterval))];
    assert done == DashboardMembers(s);
    b.Add(1);
    ObjectSize(done);
  }

  method MeasureState(b: JsonBudget, s: ManagerStatus, ghost start: Option<nat>, ghost before: seq<JsonText.Member>)
    requires IsValid(s) && before == []
    requires b.View() == Count(start, 1 + MembersSize(before), b.maximum)
    modifies b
    ensures b.View() == Count(start, 1 + MembersSize(before + StateMembers(s)), b.maximum)
  {
    hide Ascii, Url, Size, MembersSize, M, DashboardMembers;
    ghost var done := before;
    b.Put(start, done, true, "ok", Bool(s.ok));
    done := done + [M("ok", Bool(s.ok))];
    b.Put(start, done, false, "manager", Bool(s.isManager));
    done := done + [M("manager", Bool(s.isManager))];
    b.Put(start, done, false, "state", String(Ascii(StateName(s.state))));
    done := done + [M("state", String(Ascii(StateName(s.state))))];
    b.Put(start, done, false, "desired_running", Bool(s.desiredRunning));
    done := done + [M("desired_running", Bool(s.desiredRunning))];
    b.Put(start, done, false, "http_listening", Bool(s.httpListening));
    done := done + [M("http_listening", Bool(s.httpListening))];
    b.Put(start, done, false, "service_active", Bool(s.serviceActive));
    done := done + [M("service_active", Bool(s.serviceActive))];
    assert done == before + StateMembers(s);
  }

  method MeasureProcess(b: JsonBudget, s: ManagerStatus, ghost start: Option<nat>, ghost before: seq<JsonText.Member>)
    requires IsValid(s) && before != []
    requires b.View() == Count(start, 1 + MembersSize(before), b.maximum)
    modifies b
    ensures b.View() == Count(start, 1 + MembersSize(before + ProcessMembers(s)), b.maximum)
  {
    hide Ascii, Url, Size, MembersSize, M, DashboardMembers;
    ghost var done := before;
    b.Put(start, done, false, "pid", Int(s.processId));
    done := done + [M("pid", Int(s.processId))];
    b.Put(start, done, false, "started_at", StartedJson(s.startedAt));
    done := done + [M("started_at", StartedJson(s.startedAt))];
    b.Put(start, done, false, "uptime_sec", OptionalInt(s.uptime));
    done := done + [M("uptime_sec", OptionalInt(s.uptime))];
    b.Put(start, done, false, "restart_count", Int(s.restartCount));
    done := done + [M("restart_count", Int(s.restartCount))];
    b.Put(start, done, false, "last_error", ErrorJson(s.lastError));
    done := done + [M("last_error", ErrorJson(s.lastError))];
    assert done == before + ProcessMembers(s);
  }

  method MeasurePolicy(b: JsonBudget, s: ManagerStatus, ghost start: Option<nat>, ghost before: seq<JsonText.Member>)
    requires IsValid(s) && before != []
    requires b.View() == Count(start, 1 + MembersSize(before), b.maximum)
    modifies b
    ensures b.View() == Count(start, 1 + MembersSize(before + PolicyMembers(s)), b.maximum)
  {
    hide Ascii, Url, Size, MembersSize, M, DashboardMembers;
    ghost var done := before;
    b.Put(start, done, false, "auto_restart", Bool(s.autoRestart));
    done := done + [M("auto_restart", Bool(s.autoRestart))];
    b.Put(start, done, false, "watchdog_interval_sec", Int(s.watchdogInterval));
    done := done + [M("watchdog_interval_sec", Int(s.watchdogInterval))];
    b.Put(start, done, false, "open_browser_on_start", Bool(s.openBrowserOnStart));
    done := done + [M("open_browser_on_start", Bool(s.openBrowserOnStart))];
    assert done == before + PolicyMembers(s);
  }

  method MeasurePlace(b: JsonBudget, s: ManagerStatus, ghost start: Option<nat>, ghost before: seq<JsonText.Member>)
    requires IsValid(s) && before != []
    requires b.View() == Count(start, 1 + MembersSize(before), b.maximum)
    modifies b
    ensures b.View() == Count(start, 1 + MembersSize(before + PlaceMembers(s)), b.maximum)
  {
    hide Ascii, Url, Size, MembersSize, DashboardMembers, IsValid;
    ghost var done := before;
    b.Member(false, Ascii("dashboard"));
    MeasureDashboard(b, s);
    AppendSize(done, M("dashboard", Object(DashboardMembers(s))));
    done := done + [M("dashboard", Object(DashboardMembers(s)))];
    b.Put(start, done, false, "home", String(s.home));
    done := done + [M("home", String(s.home))];
    b.Put(start, done, false, "version", String(s.version));
    done := done + [M("version", String(s.version))];
    assert done == before + PlaceMembers(s);
  }

  method MeasureStatus(b: JsonBudget, s: ManagerStatus)
    requires IsValid(s)
    modifies b
    ensures b.View() == Count(old(b.View()), Size(StatusJson(s)), b.maximum)
  {
    hide Ascii, Url, Size, MembersSize, M, DashboardMembers, StateMembers, ProcessMembers, PolicyMembers, PlaceMembers;
    ghost var start := b.View();
    ghost var done: seq<JsonText.Member> := [];
    NoSize();
    b.Add(1);
    MeasureState(b, s, start, done);
    assert [] + StateMembers(s) == StateMembers(s);
    SomeState(s);
    done := done + StateMembers(s);
    MeasureProcess(b, s, start, done);
    done := done + ProcessMembers(s);
    MeasurePolicy(b, s, start, done);
    done := done + PolicyMembers(s);
    MeasurePlace(b, s, start, done);
    done := done + PlaceMembers(s);
    assert done == StatusMembers(s);
    b.Add(1);
    ObjectSize(done);
  }

  lemma SomeState(s: ManagerStatus)
    ensures StateMembers(s) != []
  {
  }

  lemma NothingWritten(start: Option<Bytes>, maximum: nat)
    ensures Emit(start, [OPEN], maximum) == Written(start, [], maximum)
  {
    assert [OPEN] + MembersText([]) == [OPEN];
  }

  lemma ObjectWritten(start: Option<Bytes>, done: seq<JsonText.Member>, maximum: nat)
    ensures Emit(Written(start, done, maximum), [CLOSE], maximum) ==
            if AllPlain(Object(done)) then Emit(start, Text(Object(done)), maximum) else None
  {
    if MembersPlain(done) {
      EmitTwice(start, [OPEN] + MembersText(done), [CLOSE], maximum);
    }
  }

  method WriteDashboard(w: JsonWriter, s: ManagerStatus)
    requires IsValid(s)
    modifies w
    ensures w.View() ==
            if AllPlain(Object(DashboardMembers(s))) then
              Emit(old(w.View()), Text(Object(DashboardMembers(s))), w.maximum)
            else None
  {
    hide Ascii, Url, Text, Written, Emit, M;
    ghost var start := w.View();
    ghost var done: seq<JsonText.Member> := [];
    w.Character(OPEN);
    NothingWritten(start, w.maximum);
    w.PutString(start, done, true, "host", s.dashboardHost);
    done := done + [M("host", String(s.dashboardHost))];
    w.PutInt(start, done, false, "port", s.dashboardPort);
    done := done + [M("port", Int(s.dashboardPort))];
    w.PutString(start, done, false, "url", Url(s.dashboardHost, s.dashboardPort).value);
    done := done + [M("url", String(Url(s.dashboardHost, s.dashboardPort).value))];
    w.PutInt(start, done, false, "refresh_interval_sec", s.refreshInterval);
    done := done + [M("refresh_interval_sec", Int(s.refreshInterval))];
    assert done == DashboardMembers(s);
    w.Character(CLOSE);
    ObjectWritten(start, done, w.maximum);
  }

  method WriteState(w: JsonWriter, s: ManagerStatus, ghost start: Option<Bytes>, ghost before: seq<JsonText.Member>)
    requires IsValid(s) && before == []
    requires w.View() == Written(start, before, w.maximum)
    modifies w
    ensures w.View() == Written(start, before + StateMembers(s), w.maximum)
  {
    hide Ascii, Url, Text, Written, Emit, M, DashboardMembers;
    ghost var done := before;
    w.PutBool(start, done, true, "ok", s.ok);
    done := done + [M("ok", Bool(s.ok))];
    w.PutBool(start, done, false, "manager", s.isManager);
    done := done + [M("manager", Bool(s.isManager))];
    w.PutString(start, done, false, "state", Ascii(StateName(s.state)));
    done := done + [M("state", String(Ascii(StateName(s.state))))];
    w.PutBool(start, done, false, "desired_running", s.desiredRunning);
    done := done + [M("desired_running", Bool(s.desiredRunning))];
    w.PutBool(start, done, false, "http_listening", s.httpListening);
    done := done + [M("http_listening", Bool(s.httpListening))];
    w.PutBool(start, done, false, "service_active", s.serviceActive);
    done := done + [M("service_active", Bool(s.serviceActive))];
    assert done == before + StateMembers(s);
  }

  method WriteProcess(w: JsonWriter, s: ManagerStatus, ghost start: Option<Bytes>, ghost before: seq<JsonText.Member>)
    requires IsValid(s) && before != []
    requires w.View() == Written(start, before, w.maximum)
    modifies w
    ensures w.View() == Written(start, before + ProcessMembers(s), w.maximum)
  {
    hide Ascii, Url, Text, Written, Emit, M, DashboardMembers;
    ghost var done := before;
    w.PutInt(start, done, false, "pid", s.processId);
    done := done + [M("pid", Int(s.processId))];
    if s.startedAt.Some? {
      w.PutString(start, done, false, "started_at", Ascii(Calendar.Utc(s.startedAt.value)));
    } else {
      w.PutNull(start, done, false, "started_at");
    }
    done := done + [M("started_at", StartedJson(s.startedAt))];
    if s.uptime.Some? {
      w.PutInt(start, done, false, "uptime_sec", s.uptime.value);
    } else {
      w.PutNull(start, done, false, "uptime_sec");
    }
    done := done + [M("uptime_sec", OptionalInt(s.uptime))];
    w.PutInt(start, done, false, "restart_count", s.restartCount);
    done := done + [M("restart_count", Int(s.restartCount))];
    if s.lastError.Some? {
      w.PutString(start, done, false, "last_error", s.lastError.value);
    } else {
      w.PutNull(start, done, false, "last_error");
    }
    done := done + [M("last_error", ErrorJson(s.lastError))];
    assert done == before + ProcessMembers(s);
  }

  method WritePolicy(w: JsonWriter, s: ManagerStatus, ghost start: Option<Bytes>, ghost before: seq<JsonText.Member>)
    requires IsValid(s) && before != []
    requires w.View() == Written(start, before, w.maximum)
    modifies w
    ensures w.View() == Written(start, before + PolicyMembers(s), w.maximum)
  {
    hide Ascii, Url, Text, Written, Emit, M, DashboardMembers;
    ghost var done := before;
    w.PutBool(start, done, false, "auto_restart", s.autoRestart);
    done := done + [M("auto_restart", Bool(s.autoRestart))];
    w.PutInt(start, done, false, "watchdog_interval_sec", s.watchdogInterval);
    done := done + [M("watchdog_interval_sec", Int(s.watchdogInterval))];
    w.PutBool(start, done, false, "open_browser_on_start", s.openBrowserOnStart);
    done := done + [M("open_browser_on_start", Bool(s.openBrowserOnStart))];
    assert done == before + PolicyMembers(s);
  }

  method WritePlace(w: JsonWriter, s: ManagerStatus, ghost start: Option<Bytes>, ghost before: seq<JsonText.Member>)
    requires IsValid(s) && before != []
    requires w.View() == Written(start, before, w.maximum)
    modifies w
    ensures w.View() == Written(start, before + PlaceMembers(s), w.maximum)
  {
    hide Ascii, Url, Text, Written, Emit, DashboardMembers;
    ghost var done := before;
    w.Member(false, Ascii("dashboard"));
    WriteDashboard(w, s);
    WrittenNext(start, done, M("dashboard", Object(DashboardMembers(s))), w.maximum);
    done := done + [M("dashboard", Object(DashboardMembers(s)))];
    w.PutString(start, done, false, "home", s.home);
    done := done + [M("home", String(s.home))];
    w.PutString(start, done, false, "version", s.version);
    done := done + [M("version", String(s.version))];
    assert done == before + PlaceMembers(s);
  }

  method WriteStatus(w: JsonWriter, s: ManagerStatus)
    requires IsValid(s)
    modifies w
    ensures w.View() == if AllPlain(StatusJson(s)) then Emit(old(w.View()), Text(StatusJson(s)), w.maximum) else None
  {
    hide Ascii, Url, Text, Written, Emit, M, DashboardMembers, StateMembers, ProcessMembers, PolicyMembers,
      PlaceMembers;
    ghost var start := w.View();
    ghost var done: seq<JsonText.Member> := [];
    w.Character(OPEN);
    NothingWritten(start, w.maximum);
    WriteState(w, s, start, done);
    assert [] + StateMembers(s) == StateMembers(s);
    SomeState(s);
    done := done + StateMembers(s);
    WriteProcess(w, s, start, done);
    done := done + ProcessMembers(s);
    WritePolicy(w, s, start, done);
    done := done + PolicyMembers(s);
    WritePlace(w, s, start, done);
    done := done + PlaceMembers(s);
    assert done == StatusMembers(s);
    w.Character(CLOSE);
    ObjectWritten(start, done, w.maximum);
  }

  lemma NoSize()
    ensures MembersSize([]) == 0
  {
  }

  lemma ObjectSize(ms: seq<JsonText.Member>)
    ensures Size(Object(ms)) == 2 + MembersSize(ms)
  {
  }

  // ----- Preflight and encoding -----

  method Preflight(s: ManagerStatus, maximum: nat) returns (ok: bool)
    requires IsValid(s)
    ensures ok <==> Size(StatusJson(s)) <= maximum
  {
    hide Size, StatusJson;
    var budget := new JsonBudget(maximum);
    MeasureStatus(budget, s);
    ok := !budget.rejected;
  }

  method Encode(s: ManagerStatus, maximum: nat) returns (r: Option<Bytes>)
    requires IsValid(s)
    ensures r == if AllPlain(StatusJson(s)) && |Text(StatusJson(s))| <= maximum then Some(Text(StatusJson(s))) else None
  {
    hide Text, StatusJson;
    var writer := new JsonWriter(maximum);
    WriteStatus(writer, s);
    assert [] + Text(StatusJson(s)) == Text(StatusJson(s));
    return writer.View();
  }

  /** The preflight accepts a status exactly when its written text fits, so for text the writer
      accepts, preflight and writer agree under every limit; and what is written reads back. */
  lemma PreflightIsExact(s: ManagerStatus, maximum: nat)
    requires IsValid(s)
    ensures Size(StatusJson(s)) <= maximum <==> |Text(StatusJson(s))| <= maximum
    ensures ReadValue(Text(StatusJson(s)), Depth(StatusJson(s)) + 1) == Got(StatusJson(s), [])
  {
    hide Text, Size, ReadValue, StatusJson, Depth, Url;
    SizeIsLength(StatusJson(s));
    RoundTrip(StatusJson(s), [], Depth(StatusJson(s)) + 1);
    assert Text(StatusJson(s)) + [] == Text(StatusJson(s));
  }

  // ----- The manager codec writes its members in order of their names -----

  function SortedDashboard(s: ManagerStatus): seq<JsonText.Member>
    requires IsValid(s)
  {
    var d := DashboardMembers(s);
    [d[0], d[1], d[3], d[2]]
  }

  function SortedStatus(s: ManagerStatus): seq<JsonText.Member>
    requires IsValid(s)
  {
    Sorted(StateMembers(s), ProcessMembers(s), PolicyMembers(s), PlaceMembers(s), M("dashboard", Object(SortedDashboard(s))))
  }

  /** The members of the four groups by name, with another member in the place of the dashboard. */
  function Sorted(a: seq<JsonText.Member>, b: seq<JsonText.Member>, c: seq<JsonText.Member>, d: seq<JsonText.Member>,
                  dashboard: JsonText.Member): seq<JsonText.Member>
    requires |a| == 6 && |b| == 5 && |c| == 3 && |d| == 3
  {
    [c[0], dashboard, a[3], d[1], a[4], b[4]] + [a[1], a[0], c[2], b[0], b[3], a[5]] + [b[1], a[2], b[2], d[2], c[1]]
  }

  lemma SumOfThree(ms: seq<JsonText.Member>)
    requires |ms| == 3
    ensures SumOfSizes(ms) == MemberSize(ms[0]) + MemberSize(ms[1]) + MemberSize(ms[2])
  {
    hide MemberSize;
    SumLast(ms);
    SumLast(ms[..2]);
    SumLast(ms[..1]);
    assert ms[..2][..1] == ms[..1] && ms[..1][..0] == [];
  }

  lemma SumOfFive(ms: seq<JsonText.Member>)
    requires |ms| == 5
    ensures SumOfSizes(ms) ==
            MemberSize(ms[0]) + MemberSize(ms[1]) + MemberSize(ms[2]) + MemberSize(ms[3]) + MemberSize(ms[4])
  {
    hide MemberSize, SumOfSizes;
    SumLast(ms);
    SumLast(ms[..4]);
    SumOfThree(ms[..3]);
    assert ms[..4][..3] == ms[..3];
  }

  lemma SumOfSix(ms: seq<JsonText.Member>)
    requires |ms| == 6
    ensures SumOfSizes(ms) == MemberSize(ms[0]) + MemberSize(ms[1]) + MemberSize(ms[2]) + MemberSize(ms[3])
                              + MemberSize(ms[4]) + MemberSize(ms[5])
  {
    hide MemberSize, SumOfSizes;
    SumLast(ms);
    SumOfFive(ms[..5]);
  }

  lemma SumOfGroups(a: seq<JsonText.Member>, b: seq<JsonText.Member>, c: seq<JsonText.Member>, d: seq<JsonText.Member>)
    ensures SumOfSizes(a + b + c + d) == SumOfSizes(a) + SumOfSizes(b) + SumOfSizes(c) + SumOfSizes(d)
  {
    hide SumOfSizes;
    SumSplits(a + b + c, d);
    SumSplits(a + b, c);
    SumSplits(a, b);
  }

  /** Sorting keeps the sum, if the dashboard's stand-in is as large as the dashboard. */
  lemma SortedSum(a: seq<JsonText.Member>, b: seq<JsonText.Member>, c: seq<JsonText.Member>, d: seq<JsonText.Member>,
                  dashboard: JsonText.Member)
    requires |a| == 6 && |b| == 5 && |c| == 3 && |d| == 3 && MemberSize(dashboard) == MemberSize(d[0])
    ensures SumOfSizes(Sorted(a, b, c, d, dashboard)) == SumOfSizes(a + b + c + d)
    ensures |Sorted(a, b, c, d, dashboard)| == 17
  {
    hide SumOfSizes, MemberSize;
    var x, y := [c[0], dashboard, a[3], d[1], a[4], b[4]], [a[1], a[0], c[2], b[0], b[3], a[5]];
    var z := [b[1], a[2], b[2], d[2], c[1]];
    SumSplits(x + y, z);
    SumSplits(x, y);
    SumOfSix(x);
    SumOfSix(y);
    SumOfFive(z);
    SumOfGroups(a, b, c, d);
    SumOfSix(a);
    SumOfFive(b);
    SumOfThree(c);
    SumOfThree(d);
  }

  lemma SumOfFour(ms: seq<JsonText.Member>, swapped: seq<JsonText.Member>)
    requires |ms| == 4 && swapped == [ms[0], ms[1], ms[3], ms[2]]
    ensures MembersSize(ms) == MembersSize(swapped)
  {
    hide MemberSize, SumOfSizes;
    MembersSizeIsSum(ms);
    MembersSizeIsSum(swapped);
    SumLast(ms);
    SumLast(swapped);
    SumOfThree(ms[..3]);
    SumOfThree(swapped[..3]);
  }

  lemma Groups(s: ManagerStatus)
    requires IsValid(s)
    ensures |StateMembers(s)| == 6 && |ProcessMembers(s)| == 5 && |PolicyMembers(s)| == 3 && |PlaceMembers(s)| == 3
    ensures |DashboardMembers(s)| == 4 && |StatusMembers(s)| == 17
    ensures PlaceMembers(s)[0] == M("dashboard", Object(DashboardMembers(s)))
  {
    hide M, Ascii, Url;
  }

  /** The budget taken in the writer's order is exact for the manager codec, whose documents have
      their members sorted by name. */
  lemma BudgetFitsSortedDocument(s: ManagerStatus, maximum: nat)
    requires IsValid(s)
    ensures Size(StatusJson(s)) <= maximum <==> |Text(Object(SortedStatus(s)))| <= maximum
  {
    hide M, Ascii, Url, StateMembers, ProcessMembers, PolicyMembers, PlaceMembers, DashboardMembers, Text, MemberSize,
      SumOfSizes, Sorted;
    Groups(s);
    SumOfFour(DashboardMembers(s), SortedDashboard(s));
    SameDashboardSize(DashboardMembers(s), SortedDashboard(s));
    SortedSum(StateMembers(s), ProcessMembers(s), PolicyMembers(s), PlaceMembers(s), M("dashboard", Object(SortedDashboard(s))));
    SizeIsLength(Object(SortedStatus(s)));
    MembersSizeIsSum(SortedStatus(s));
    MembersSizeIsSum(StatusMembers(s));
  }

  lemma SameDashboardSize(a: seq<JsonText.Member>, b: seq<JsonText.Member>)
    requires MembersSize(a) == MembersSize(b)
    ensures MemberSize(M("dashboard", Object(a))) == MemberSize(M("dashboard", Object(b)))
  {
    hide Ascii;
  }
}
