// What a reader finds in a written manager status: each member under its name, and the state under its text.

module DashboardReading {
  import opened Options
  import opened Utf8
  import opened JsonText
  import opened DashboardJson
  import Calendar

  /** The value of the first member of this name. */
  function Find(ms: seq<JsonText.Member>, name: Bytes): Option<Json> {
    if ms == [] then None else if ms[0].name == name then Some(ms[0].value) else Find(ms[1..], name)
  }

  /** The service state that a text names. */
  function StateOf(text: Bytes): Option<ServiceState> {
    if text == Ascii("stopped") then Some(Stopped)
    else if text == Ascii("starting") then Some(Starting)
    else if text == Ascii("running") then Some(Running)
    else if text == Ascii("restarting") then Some(Restarting)
    else if text == Ascii("stopping") then Some(Stopping)
    else if text == Ascii("failed") then Some(Failed)
    else None
  }

  /** Length and first byte: enough to tell the names of a status apart. */
  function Key(name: Bytes): (nat, nat) {
    (|name|, if name == [] then 0 else name[0] as nat)
  }

  const KEYS: seq<(nat, nat)> :=
    [(2, 111), (7, 109), (5, 115), (15, 100), (14, 104), (14, 115), (3, 112), (10, 115), (10, 117), (13, 114), (10, 108),
     (12, 97), (21, 119), (21, 111), (9, 100), (4, 104), (7, 118)]

  lemma {:induction false} FindByKey(ms: seq<JsonText.Member>, k: nat, name: Bytes)
    requires k < |ms| && ms[k].name == name && forall j | 0 <= j < k :: Key(ms[j].name) != Key(name)
    ensures Find(ms, name) == Some(ms[k].value)
  {
    if k > 0 {
      assert Key(ms[0].name) != Key(name);
      assert forall j | 0 <= j < k - 1 :: ms[1..][j] == ms[j + 1];
      FindByKey(ms[1..], k - 1, name);
    }
  }

  lemma StateIsNamed(s: ServiceState)
    ensures StateOf(Ascii(StateName(s))) == Some(s)
  {
    assert |Ascii("stopped")| == |Ascii("running")| == 7 && Ascii("stopped")[0] == 115 && Ascii("running")[0] == 114;
    assert |Ascii("starting")| == |Ascii("stopping")| == 8 && Ascii("starting")[2] == 97 && Ascii("stopping")[2] == 111;
    assert |Ascii("restarting")| == 10 && |Ascii("failed")| == 6;
  }

  predicate KeysAre(ms: seq<JsonText.Member>, from: nat) {
    from + |ms| <= |KEYS| && forall j | 0 <= j < |ms| :: Key(ms[j].name) == KEYS[from + j]
  }

  lemma StateKeys(s: ManagerStatus)
    ensures |StateMembers(s)| == 6 && KeysAre(StateMembers(s), 0)
  {
  }

  lemma ProcessKeys(s: ManagerStatus)
    ensures |ProcessMembers(s)| == 5 && KeysAre(ProcessMembers(s), 6)
  {
  }

  lemma PolicyKeys(s: ManagerStatus)
    ensures |PolicyMembers(s)| == 3 && KeysAre(PolicyMembers(s), 11)
  {
  }

  lemma PlaceKeys(s: ManagerStatus)
    requires IsValid(s)
    ensures |PlaceMembers(s)| == 3 && KeysAre(PlaceMembers(s), 14)
  {
    hide DashboardMembers, Url;
  }

  lemma KeysDiffer()
    ensures forall i, j | 0 <= i < j < |KEYS| :: KEYS[i] != KEYS[j]
  {
  }

  lemma StatusKeys(s: ManagerStatus)
    requires IsValid(s)
    ensures |StatusMembers(s)| == 17 && forall j | 0 <= j < 17 :: Key(StatusMembers(s)[j].name) == KEYS[j]
  {
    StateKeys(s);
    ProcessKeys(s);
    PolicyKeys(s);
    PlaceKeys(s);
    hide StateMembers, ProcessMembers, PolicyMembers, PlaceMembers, Key, KEYS;
    var ms := StatusMembers(s);
    forall j | 0 <= j < 17
      ensures Key(ms[j].name) == KEYS[j]
    {
      if j < 6 {
        assert ms[j] == StateMembers(s)[j];
      } else if j < 11 {
        assert ms[j] == ProcessMembers(s)[j - 6];
      } else if j < 14 {
        assert ms[j] == PolicyMembers(s)[j - 11];
      } else {
        assert ms[j] == PlaceMembers(s)[j - 14];
      }
    }
  }

  /** Member `k` of a status is found under its name. */
  lemma StatusFinds(s: ManagerStatus, k: nat)
    requires IsValid(s) && k < 17
    ensures |StatusMembers(s)| == 17 && Find(StatusMembers(s), StatusMembers(s)[k].name) == Some(StatusMembers(s)[k].value)
  {
    StatusKeys(s);
    KeysDiffer();
    hide StatusMembers, Key, KEYS;
    FindByKey(StatusMembers(s), k, StatusMembers(s)[k].name);
  }

  /** A member that says `value` under this name. */
  predicate Says(ms: seq<JsonText.Member>, name: string, value: Json) {
    Find(ms, Ascii(name)) == Some(value)
  }

  lemma SaysAt(s: ManagerStatus, k: nat, name: string, value: Json)
    requires IsValid(s) && k < 17 && StatusMembers(s)[k] == M(name, value)
    ensures Says(StatusMembers(s), name, value)
  {
    StatusFinds(s, k);
  }

  // ----- What a status says -----

  /** The status as its members say it by name; its time of start is said to the second. */
  ghost predicate IsStatus(ms: seq<JsonText.Member>, s: ManagerStatus) {
    SaysState(ms, s) && SaysProcess(ms, s) && SaysPolicy(ms, s) && SaysPlace(ms, s)
  }

  ghost predicate SaysState(ms: seq<JsonText.Member>, s: ManagerStatus) {
    && Says(ms, "ok", Bool(s.ok)) && Says(ms, "manager", Bool(s.isManager))
    && (exists text :: Says(ms, "state", String(text)) && StateOf(text) == Some(s.state))
    && Says(ms, "desired_running", Bool(s.desiredRunning)) && Says(ms, "http_listening", Bool(s.httpListening))
    && Says(ms, "service_active", Bool(s.serviceActive))
  }

  ghost predicate SaysProcess(ms: seq<JsonText.Member>, s: ManagerStatus) {
    && Says(ms, "pid", Int(s.processId)) && Says(ms, "restart_count", Int(s.restartCount))
    && (s.startedAt.None? ==> Says(ms, "started_at", Null))
    && (s.startedAt.Some? ==> SaysTime(ms, s.startedAt.value))
    && Says(ms, "uptime_sec", if s.uptime.Some? then Int(s.uptime.value) else Null)
    && Says(ms, "last_error", if s.lastError.Some? then String(s.lastError.value) else Null)
  }

  ghost predicate SaysTime(ms: seq<JsonText.Member>, at: nat) {
    exists text, f ::
      Says(ms, "started_at", String(Ascii(text))) && Calendar.Names(text, f) && Calendar.Instant(f) == at - at % 1000
  }

  predicate SaysPolicy(ms: seq<JsonText.Member>, s: ManagerStatus) {
    && Says(ms, "auto_restart", Bool(s.autoRestart)) && Says(ms, "watchdog_interval_sec", Int(s.watchdogInterval))
    && Says(ms, "open_browser_on_start", Bool(s.openBrowserOnStart))
  }

  ghost predicate SaysPlace(ms: seq<JsonText.Member>, s: ManagerStatus) {
    && Says(ms, "home", String(s.home)) && Says(ms, "version", String(s.version))
    && exists inner ::
         && Says(ms, "dashboard", Object(inner))
         && Says(inner, "host", String(s.dashboardHost)) && Says(inner, "port", Int(s.dashboardPort))
         && Says(inner, "refresh_interval_sec", Int(s.refreshInterval))
         && (s.dashboardHost == Ascii("127.0.0.1") ==>
               Says(inner, "url", String(Ascii("http://127.0.0.1:") + Decimal(s.dashboardPort) + Ascii("/"))))
         && (s.dashboardHost == Ascii("::1") ==>
               Says(inner, "url", String(Ascii("http://[::1]:") + Decimal(s.dashboardPort) + Ascii("/"))))
  }

  lemma StateIsSaid(s: ManagerStatus)
    requires IsValid(s)
    ensures SaysState(StatusMembers(s), s)
  {
    hide Says, Ascii, M, ProcessMembers, PolicyMembers, PlaceMembers, StateOf, StateName;
    SaysAt(s, 0, "ok", Bool(s.ok));
    SaysAt(s, 1, "manager", Bool(s.isManager));
    SaysAt(s, 2, "state", String(Ascii(StateName(s.state))));
    StateIsNamed(s.state);
    SaysAt(s, 3, "desired_running", Bool(s.desiredRunning));
    SaysAt(s, 4, "http_listening", Bool(s.httpListening));
    SaysAt(s, 5, "service_active", Bool(s.serviceActive));
  }

  lemma ProcessIsSaid(s: ManagerStatus)
    requires IsValid(s)
    ensures SaysProcess(StatusMembers(s), s)
  {
    hide Says, Ascii, M, StateMembers, PolicyMembers, PlaceMembers, Calendar.Utc, Calendar.Names, Calendar.Instant;
    StateKeys(s);
    SaysAt(s, 6, "pid", Int(s.processId));
    SaysAt(s, 7, "started_at", StartedJson(s.startedAt));
    if s.startedAt.Some? {
      Calendar.InstantRoundTrip(s.startedAt.value);
    }
    SaysAt(s, 8, "uptime_sec", OptionalInt(s.uptime));
    SaysAt(s, 9, "restart_count", Int(s.restartCount));
    SaysAt(s, 10, "last_error", ErrorJson(s.lastError));
  }

  lemma PolicyIsSaid(s: ManagerStatus)
    requires IsValid(s)
    ensures SaysPolicy(StatusMembers(s), s)
  {
    hide Says, Ascii, M, StateMembers, ProcessMembers, PlaceMembers;
    StateKeys(s);
    ProcessKeys(s);
    SaysAt(s, 11, "auto_restart", Bool(s.autoRestart));
    SaysAt(s, 12, "watchdog_interval_sec", Int(s.watchdogInterval));
    SaysAt(s, 13, "open_browser_on_start", Bool(s.openBrowserOnStart));
  }

  lemma DashboardSays(s: ManagerStatus)
    requires IsValid(s)
    ensures var inner := DashboardMembers(s);
            && Says(inner, "host", String(s.dashboardHost)) && Says(inner, "port", Int(s.dashboardPort))
            && Says(inner, "url", String(Url(s.dashboardHost, s.dashboardPort).value))
            && Says(inner, "refresh_interval_sec", Int(s.refreshInterval))
  {
    hide Url;
    var inner := DashboardMembers(s);
    assert Key(inner[0].name) == (4, 104) && Key(inner[1].name) == (4, 112) && Key(inner[2].name) == (3, 117)
           && Key(inner[3].name) == (20, 114);
    hide Ascii, DashboardMembers;
    forall k: nat | k < 4
      ensures Find(inner, inner[k].name) == Some(inner[k].value)
    {
      FindByKey(inner, k, inner[k].name);
    }
  }

  lemma PlaceIsSaid(s: ManagerStatus)
    requires IsValid(s)
    ensures SaysPlace(StatusMembers(s), s)
  {
    DashboardSays(s);
    hide Says, Ascii, M, StateMembers, ProcessMembers, PolicyMembers, DashboardMembers;
    StateKeys(s);
    ProcessKeys(s);
    PolicyKeys(s);
    SaysAt(s, 14, "dashboard", Object(DashboardMembers(s)));
    SaysAt(s, 15, "home", String(s.home));
    SaysAt(s, 16, "version", String(s.version));
  }

  /** Whatever the encoder writes reads back as a document whose members say the status, name by name. */
  lemma EncodedStatusReadsBack(s: ManagerStatus)
    requires IsValid(s)
    ensures exists ms ::
              && ReadValue(Text(StatusJson(s)), Depth(StatusJson(s)) + 1) == Got(Object(ms), [])
              && IsStatus(ms, s)
  {
    PreflightIsExact(s, 0);
    StateIsSaid(s);
    ProcessIsSaid(s);
    PolicyIsSaid(s);
    PlaceIsSaid(s);
    hide SaysState, SaysProcess, SaysPolicy, SaysPlace, StatusMembers, Text, ReadValue, Depth;
  }

  // ----- The codec that sorts its members -----

  /** Which member of a status stands at each place. */
  const PLACES: seq<nat> := [11, 14, 3, 15, 4, 10, 1, 0, 13, 6, 9, 5, 7, 2, 8, 16, 12]

  lemma PlacesDiffer()
    ensures forall i, j | 0 <= i < j < 17 :: PLACES[i] != PLACES[j]
    ensures forall i | 0 <= i < 17 :: PLACES[i] < 17
  {
  }

  lemma PlaceOf(k: nat) returns (p: nat)
    requires k < 17
    ensures p < 17 && PLACES[p] == k && (p == 1 ==> k == 14)
  {
    var places := [7, 6, 13, 2, 4, 11, 9, 12, 14, 10, 5, 0, 16, 8, 1, 3, 15];
    p := places[k];
  }

  lemma SortedAt(a: seq<JsonText.Member>, b: seq<JsonText.Member>, c: seq<JsonText.Member>, d: seq<JsonText.Member>,
                 dashboard: JsonText.Member, p: nat)
    requires |a| == 6 && |b| == 5 && |c| == 3 && |d| == 3 && p < 17
    ensures |Sorted(a, b, c, d, dashboard)| == 17 && PLACES[p] < 17
    ensures Sorted(a, b, c, d, dashboard)[p] == if p == 1 then dashboard else (a + b + c + d)[PLACES[p]]
  {
  }

  /** The members of a status in their places; only the dashboard is another document. */
  lemma SortedPlaces(s: ManagerStatus)
    requires IsValid(s)
    ensures |SortedStatus(s)| == |StatusMembers(s)| == 17
    ensures forall p | 0 <= p < 17 && p != 1 :: SortedStatus(s)[p] == StatusMembers(s)[PLACES[p]]
    ensures SortedStatus(s)[1] == M("dashboard", Object(SortedDashboard(s)))
  {
    hide StateMembers, ProcessMembers, PolicyMembers, PlaceMembers, SortedDashboard, M, Ascii, Sorted;
    Groups(s);
    PlacesDiffer();
    var dashboard := M("dashboard", Object(SortedDashboard(s)));
    assert |PLACES| == 17;
    hide PLACES;
    SortedAt(StateMembers(s), ProcessMembers(s), PolicyMembers(s), PlaceMembers(s), dashboard, 1);
    forall p: nat | p < 17 && p != 1
      ensures SortedStatus(s)[p] == StatusMembers(s)[PLACES[p]]
    {
      SortedAt(StateMembers(s), ProcessMembers(s), PolicyMembers(s), PlaceMembers(s), dashboard, p);
    }
  }

  lemma SortedFinds(s: ManagerStatus, p: nat)
    requires IsValid(s) && p < 17
    ensures |SortedStatus(s)| == 17 && Find(SortedStatus(s), SortedStatus(s)[p].name) == Some(SortedStatus(s)[p].value)
  {
    SortedPlaces(s);
    StatusKeys(s);
    PlacesDiffer();
    KeysDiffer();
    var ms := SortedStatus(s);
    assert Key(ms[1].name) == (9, 100) == KEYS[PLACES[1]];
    hide SortedStatus, StatusMembers, SortedDashboard, Key, KEYS, PLACES, M;
    forall j | 0 <= j < 17
      ensures Key(ms[j].name) == KEYS[PLACES[j]]
    {
    }
    FindByKey(ms, p, ms[p].name);
  }

  lemma {:induction false} FoundAt(ms: seq<JsonText.Member>, name: Bytes) returns (k: nat)
    requires Find(ms, name).Some?
    ensures k < |ms| && ms[k].name == name && Find(ms, name) == Some(ms[k].value)
  {
    if ms[0].name == name {
      k := 0;
    } else {
      k := FoundAt(ms[1..], name);
      k := k + 1;
    }
  }

  /** Sorting keeps what is said; "dashboard" is the one name of nine letters. */
  lemma SortedSays(s: ManagerStatus, name: string, value: Json)
    requires IsValid(s) && |name| != 9 && Says(StatusMembers(s), name, value)
    ensures Says(SortedStatus(s), name, value)
  {
    var k := FoundAt(StatusMembers(s), Ascii(name));
    StatusKeys(s);
    assert |Ascii(name)| == |name|;
    hide SortedStatus, StatusMembers, Ascii;
    assert k != 14 by {
      assert KEYS[14] == (9, 100);
    }
    hide KEYS, Key;
    var p := PlaceOf(k);
    SortedPlaces(s);
    SortedFinds(s, p);
  }

  lemma SortedDashboardSays(s: ManagerStatus)
    requires IsValid(s)
    ensures Says(SortedStatus(s), "dashboard", Object(SortedDashboard(s)))
    ensures var inner := SortedDashboard(s);
            && Says(inner, "host", String(s.dashboardHost)) && Says(inner, "port", Int(s.dashboardPort))
            && Says(inner, "url", String(Url(s.dashboardHost, s.dashboardPort).value))
            && Says(inner, "refresh_interval_sec", Int(s.refreshInterval))
  {
    hide Url;
    SortedFinds(s, 1);
    SortedPlaces(s);
    hide SortedStatus;
    var inner := SortedDashboard(s);
    assert Key(inner[0].name) == (4, 104) && Key(inner[1].name) == (4, 112) && Key(inner[2].name) == (20, 114)
           && Key(inner[3].name) == (3, 117);
    hide Ascii, SortedDashboard;
    forall k: nat | k < 4
      ensures Find(inner, inner[k].name) == Some(inner[k].value)
    {
      FindByKey(inner, k, inner[k].name);
    }
  }

  /** What `ms` says under a name other than the dashboard's, `other` says too. */
  ghost predicate Carries(ms: seq<JsonText.Member>, other: seq<JsonText.Member>) {
    forall name, value | |name| != 9 && Says(ms, name, value) :: Says(other, name, value)
  }

  lemma StateIsCarried(ms: seq<JsonText.Member>, other: seq<JsonText.Member>, s: ManagerStatus)
    requires Carries(ms, other) && SaysState(ms, s)
    ensures SaysState(other, s)
  {
    hide Says, StateOf;
  }

  lemma ProcessIsCarried(ms: seq<JsonText.Member>, other: seq<JsonText.Member>, s: ManagerStatus)
    requires Carries(ms, other) && SaysProcess(ms, s)
    ensures SaysProcess(other, s)
  {
    hide Says, Ascii, Calendar.Names, Calendar.Instant;
  }

  lemma PolicyIsCarried(ms: seq<JsonText.Member>, other: seq<JsonText.Member>, s: ManagerStatus)
    requires Carries(ms, other) && SaysPolicy(ms, s)
    ensures SaysPolicy(other, s)
  {
    hide Says;
  }

  lemma SortedIsStatus(s: ManagerStatus)
    requires IsValid(s)
    ensures IsStatus(SortedStatus(s), s)
  {
    StateIsSaid(s);
    ProcessIsSaid(s);
    PolicyIsSaid(s);
    PlaceIsSaid(s);
    SortedDashboardSays(s);
    hide Says, StatusMembers, SortedStatus, SortedDashboard, Ascii, Decimal, IsValid, SaysState, SaysProcess, SaysPolicy;
    assert Carries(StatusMembers(s), SortedStatus(s)) by {
      forall name, value | |name| != 9 && Says(StatusMembers(s), name, value)
        ensures Says(SortedStatus(s), name, value)
      {
        SortedSays(s, name, value);
      }
    }
    StateIsCarried(StatusMembers(s), SortedStatus(s), s);
    ProcessIsCarried(StatusMembers(s), SortedStatus(s), s);
    PolicyIsCarried(StatusMembers(s), SortedStatus(s), s);
  }

  /** What the codec that sorts its members writes reads back as the same status. */
  lemma SortedStatusReadsBack(s: ManagerStatus)
    requires IsValid(s)
    ensures exists ms ::
              && ReadValue(Text(Object(SortedStatus(s))), Depth(Object(SortedStatus(s))) + 1) == Got(Object(ms), [])
              && IsStatus(ms, s)
  {
    SortedIsStatus(s);
    hide IsStatus, SortedStatus, Text, ReadValue, Depth;
    var v := Object(SortedStatus(s));
    RoundTrip(v, [], Depth(v) + 1);
    assert Text(v) + [] == Text(v);
  }

  /** A time is read back from its bytes. */
  lemma TimesAreAscii(a: string, b: string, f: Calendar.Fields, g: Calendar.Fields)
    requires Calendar.Names(a, f) && Calendar.Names(b, g) && Ascii(a) == Ascii(b)
    ensures f == g
  {
    hide Calendar.Number, Calendar.Exists, Calendar.Padded;
    Calendar.NamesHaveShape(a);
    Calendar.NamesHaveShape(b);
    Calendar.NamesHaveParts(a);
    Calendar.NamesHaveParts(b);
    TimeBytes(a, f);
    TimeBytes(b, g);
    assert forall i | 0 <= i < 20 :: Ascii(a)[i] == Ascii(b)[i];
    assert a == b;
  }

  lemma TimeBytes(a: string, f: Calendar.Fields)
    requires |a| == 20 && Calendar.HasShape(a) && Calendar.Parts(a, f)
    ensures forall i | 0 <= i < 20 :: a[i] < 128 as char
  {
    hide Calendar.Number;
    forall i | 0 <= i < 20
      ensures a[i] < 128 as char
    {
      assert 0 <= i < 4 ==> Calendar.IsDigit(a[0..4][i]);
      assert 5 <= i < 7 ==> Calendar.IsDigit(a[5..7][i - 5]);
      assert 8 <= i < 10 ==> Calendar.IsDigit(a[8..10][i - 8]);
      assert 11 <= i < 13 ==> Calendar.IsDigit(a[11..13][i - 11]);
      assert 14 <= i < 16 ==> Calendar.IsDigit(a[14..16][i - 14]);
      assert 17 <= i < 19 ==> Calendar.IsDigit(a[17..19][i - 17]);
    }
  }

  lemma SameTime(ms: seq<JsonText.Member>, a: nat, b: nat)
    requires SaysTime(ms, a) && SaysTime(ms, b)
    ensures a / 1000 == b / 1000
  {
    hide Find, Ascii, Calendar.Text, Calendar.Exists, Calendar.DayNumber, Calendar.Clock;
    var s, f :| Says(ms, "started_at", String(Ascii(s))) && Calendar.Names(s, f) && Calendar.Instant(f) == a - a % 1000;
    var t, g :| Says(ms, "started_at", String(Ascii(t))) && Calendar.Names(t, g) && Calendar.Instant(g) == b - b % 1000;
    TimesAreAscii(s, t, f, g);
  }

  /** Members say at most one status, up to the second of its start. */
  lemma MembersSayOneStatus(ms: seq<JsonText.Member>, s: ManagerStatus, t: ManagerStatus)
    requires IsStatus(ms, s) && IsStatus(ms, t)
    ensures s.startedAt.Some? <==> t.startedAt.Some?
    ensures s.startedAt.Some? ==> s.startedAt.value / 1000 == t.startedAt.value / 1000
    ensures s == t.(startedAt := s.startedAt)
  {
    OneState(ms, s, t);
    OneProcess(ms, s, t);
    OnePolicy(ms, s, t);
    OnePlace(ms, s, t);
    hide *;
  }

  lemma OneState(ms: seq<JsonText.Member>, s: ManagerStatus, t: ManagerStatus)
    requires SaysState(ms, s) && SaysState(ms, t)
    ensures (s.ok, s.isManager, s.state, s.desiredRunning, s.httpListening, s.serviceActive) ==
            (t.ok, t.isManager, t.state, t.desiredRunning, t.httpListening, t.serviceActive)
  {
    hide Find, Ascii, StateOf;
  }

  lemma OneProcess(ms: seq<JsonText.Member>, s: ManagerStatus, t: ManagerStatus)
    requires SaysProcess(ms, s) && SaysProcess(ms, t)
    ensures (s.processId, s.restartCount, s.uptime, s.lastError) == (t.processId, t.restartCount, t.uptime, t.lastError)
    ensures s.startedAt.Some? <==> t.startedAt.Some?
    ensures s.startedAt.Some? ==> s.startedAt.value / 1000 == t.startedAt.value / 1000
  {
    hide Find, Ascii, Calendar.Names, Calendar.Instant;
    if s.startedAt.Some? && t.startedAt.Some? {
      SameTime(ms, s.startedAt.value, t.startedAt.value);
    }
  }

  lemma OnePolicy(ms: seq<JsonText.Member>, s: ManagerStatus, t: ManagerStatus)
    requires SaysPolicy(ms, s) && SaysPolicy(ms, t)
    ensures (s.autoRestart, s.watchdogInterval, s.openBrowserOnStart) == (t.autoRestart, t.watchdogInterval, t.openBrowserOnStart)
  {
    hide Find, Ascii;
  }

  lemma OnePlace(ms: seq<JsonText.Member>, s: ManagerStatus, t: ManagerStatus)
    requires SaysPlace(ms, s) && SaysPlace(ms, t)
    ensures (s.home, s.version, s.dashboardHost, s.dashboardPort, s.refreshInterval) ==
            (t.home, t.version, t.dashboardHost, t.dashboardPort, t.refreshInterval)
  {
    hide Find, Ascii, Decimal;
  }
}
