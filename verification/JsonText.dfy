// JSON documents as the dashboard writes and measures them, and the reader of RFC 8259 that takes
// the written text back to the document.

module JsonText {
  import opened Options
  import opened Utf8

  type Bytes = seq<byte>

  datatype Member = Member(name: Bytes, value: Json)

  datatype Json = Null | Bool(b: bool) | Int(n: int) | String(s: Bytes) | Object(members: seq<Member>)

  const QUOTE: byte := 34
  const BACKSLASH: byte := 92
  const OPEN: byte := 123
  const CLOSE: byte := 125
  const COMMA: byte := 44
  const COLON: byte := 58
  const MINUS: byte := 45

  const NULL: Bytes := [110, 117, 108, 108]
  const TRUE: Bytes := [116, 114, 117, 101]
  const FALSE: Bytes := [102, 97, 108, 115, 101]

  // ----- Writing -----

  function HexDigit(n: nat): (b: byte)
    requires n < 16
  {
    if n < 10 then 48 + n else 87 + n
  }

  /** The letter of a two-byte escape, if the character has one. */
  function ShortEscape(c: byte): Option<byte> {
    if c == QUOTE then Some(QUOTE)
    else if c == BACKSLASH then Some(BACKSLASH)
    else if c == 8 then Some(98)
    else if c == 12 then Some(102)
    else if c == 10 then Some(110)
    else if c == 13 then Some(114)
    else if c == 9 then Some(116)
    else None
  }

  function Escaped(c: byte): (e: Bytes)
    ensures 1 <= |e| <= 6
  {
    match ShortEscape(c)
    case Some(letter) => [BACKSLASH, letter]
    case None => if c < 0x20 then [BACKSLASH, 117, 48, 48, HexDigit(c / 16), HexDigit(c % 16)] else [c]
  }

  function EscapedAll(s: Bytes): Bytes {
    if s == [] then [] else Escaped(s[0]) + EscapedAll(s[1..])
  }

  function Quoted(s: Bytes): Bytes { [QUOTE] + EscapedAll(s) + [QUOTE] }

  function Digits(n: nat): (d: Bytes)
    ensures d != [] && forall i | 0 <= i < |d| :: 48 <= d[i] <= 57
  {
    if n < 10 then [48 + n] else Digits(n / 10) + [48 + n % 10]
  }

  function Decimal(n: int): Bytes {
    if n < 0 then [MINUS] + Digits(-n) else Digits(n)
  }

  function Text(v: Json): Bytes
    decreases v, 1
  {
    match v
    case Null => NULL
    case Bool(b) => if b then TRUE else FALSE
    case Int(n) => Decimal(n)
    case String(s) => Quoted(s)
    case Object(members) => [OPEN] + MembersText(members) + [CLOSE]
  }

  function MemberText(m: Member): Bytes
    decreases m, 2
  {
    Quoted(m.name) + [COLON] + Text(m.value)
  }

  /** The members in order, with a comma before each but the first. */
  function MembersText(ms: seq<Member>): Bytes
    decreases ms, 0
  {
    if ms == [] then []
    else
      var last := ms[|ms| - 1];
      MembersText(ms[..|ms| - 1]) + (if |ms| > 1 then [COMMA] else []) + MemberText(last)
  }

  // ----- Measuring -----

  function EscapedSize(c: byte): nat {
    if ShortEscape(c).Some? then 2 else if c < 0x20 then 6 else 1
  }

  function StringSize(s: Bytes): nat {
    if s == [] then 0 else EscapedSize(s[0]) + StringSize(s[1..])
  }

  function DigitCount(n: nat): nat {
    if n < 10 then 1 else DigitCount(n / 10) + 1
  }

  function Size(v: Json): nat
    decreases v, 1
  {
    match v
    case Null => 4
    case Bool(b) => if b then 4 else 5
    case Int(n) => if n < 0 then 1 + DigitCount(-n) else DigitCount(n)
    case String(s) => 2 + StringSize(s)
    case Object(members) => 2 + MembersSize(members)
  }

  function MemberSize(m: Member): nat
    decreases m, 2
  {
    2 + StringSize(m.name) + 1 + Size(m.value)
  }

  function MembersSize(ms: seq<Member>): nat
    decreases ms, 0
  {
    if ms == [] then 0
    else MembersSize(ms[..|ms| - 1]) + (if |ms| > 1 then 1 else 0) + MemberSize(ms[|ms| - 1])
  }

  // ----- The measure is the length -----

  lemma {:induction false} QuotedLength(s: Bytes)
    ensures |EscapedAll(s)| == StringSize(s)
  {
    if s != [] {
      QuotedLength(s[1..]);
    }
  }

  lemma {:induction false} DigitsLength(n: nat)
    ensures |Digits(n)| == DigitCount(n)
  {
    if n >= 10 {
      DigitsLength(n / 10);
    }
  }

  /** Every document is measured at exactly the number of bytes its text has. */
  lemma {:induction false} SizeIsLength(v: Json)
    ensures |Text(v)| == Size(v)
    decreases v, 1
  {
    match v
    case Int(n) => DigitsLength(if n < 0 then -n else n);
    case String(s) => QuotedLength(s);
    case Object(members) => MembersSizeIsLength(members);
    case _ =>
  }

  lemma {:induction false} MembersSizeIsLength(ms: seq<Member>)
    ensures |MembersText(ms)| == MembersSize(ms)
    decreases ms, 0
  {
    if ms != [] {
      var last := ms[|ms| - 1];
      MembersSizeIsLength(ms[..|ms| - 1]);
      QuotedLength(last.name);
      SizeIsLength(last.value);
    }
  }

  // ----- The order of members does not matter to the measure -----

  function SumOfSizes(ms: seq<Member>): nat {
    if ms == [] then 0 else SumOfSizes(ms[..|ms| - 1]) + MemberSize(ms[|ms| - 1])
  }

  lemma {:induction false} MembersSizeIsSum(ms: seq<Member>)
    ensures MembersSize(ms) == SumOfSizes(ms) + (if ms == [] then 0 else |ms| - 1)
  {
    if ms != [] {
      MembersSizeIsSum(ms[..|ms| - 1]);
    }
  }

  lemma {:induction false} SumSplits(a: seq<Member>, b: seq<Member>)
    ensures SumOfSizes(a + b) == SumOfSizes(a) + SumOfSizes(b)
    decreases |b|
  {
    if b == [] {
      assert a + b == a;
    } else {
      SumSplits(a, b[..|b| - 1]);
      assert (a + b)[..|a + b| - 1] == a + b[..|b| - 1];
    }
  }

  lemma SumInsert(a: seq<Member>, m: Member, b: seq<Member>)
    ensures SumOfSizes(a + ([m] + b)) == SumOfSizes(a + b) + MemberSize(m)
  {
    SumSplits(a, [m] + b);
    SumSplits([m], b);
    SumSplits(a, b);
    SumOfOne(m);
  }

  lemma SumOfOne(m: Member)
    ensures SumOfSizes([m]) == MemberSize(m)
  {
    assert [m][..0] == [];
  }

  lemma SumWithout(ms: seq<Member>, i: nat)
    requires i < |ms|
    ensures SumOfSizes(ms) == SumOfSizes(ms[..i] + ms[i + 1..]) + MemberSize(ms[i])
  {
    hide SumOfSizes, MemberSize;
    SumInsert(ms[..i], ms[i], ms[i + 1..]);
    assert ms == ms[..i] + ([ms[i]] + ms[i + 1..]);
  }

  lemma {:induction false} SumOfPermutation(a: seq<Member>, b: seq<Member>)
    requires multiset(a) == multiset(b)
    ensures SumOfSizes(a) == SumOfSizes(b)
    decreases |a|
  {
    assert |a| == |multiset(a)| == |multiset(b)| == |b|;
    if a != [] {
      var last := a[|a| - 1];
      assert last in multiset(b);
      var i :| 0 <= i < |b| && b[i] == last;
      assert a == a[..|a| - 1] + [last];
      WithoutOne(b, i);
      SumWithout(b, i);
      hide SumOfSizes, MemberSize;
      SumOfPermutation(a[..|a| - 1], b[..i] + b[i + 1..]);
      SumLast(a);
    }
  }

  lemma WithoutOne(ms: seq<Member>, i: nat)
    requires i < |ms|
    ensures multiset(ms[..i] + ms[i + 1..]) == multiset(ms) - multiset{ms[i]}
  {
    assert ms == ms[..i] + ([ms[i]] + ms[i + 1..]);
  }

  lemma SumLast(ms: seq<Member>)
    requires ms != []
    ensures SumOfSizes(ms) == SumOfSizes(ms[..|ms| - 1]) + MemberSize(ms[|ms| - 1])
  {
  }

  /** A document measures the same in every order of its members, so a budget taken in one order
      is exact for a writer that sorts them. */
  lemma OrderDoesNotMatter(a: seq<Member>, b: seq<Member>)
    requires multiset(a) == multiset(b)
    ensures |Text(Object(a))| == |Text(Object(b))| == Size(Object(a))
  {
    assert |a| == |multiset(a)| == |multiset(b)| == |b|;
    SizeIsLength(Object(a));
    SizeIsLength(Object(b));
    MembersSizeIsSum(a);
    MembersSizeIsSum(b);
    SumOfPermutation(a, b);
  }

  // ----- Reading strings: section 7 of RFC 8259 -----

  function HexValue(b: byte): Option<nat> {
    if 48 <= b <= 57 then Some(b as nat - 48)
    else if 97 <= b <= 102 then Some(b as nat - 87)
    else if 65 <= b <= 70 then Some(b as nat - 55)
    else None
  }

  function Unescape(letter: byte): Option<byte> {
    if letter == QUOTE || letter == BACKSLASH || letter == 47 then Some(letter)
    else if letter == 98 then Some(8)
    else if letter == 102 then Some(12)
    else if letter == 110 then Some(10)
    else if letter == 114 then Some(13)
    else if letter == 116 then Some(9)
    else None
  }

  datatype Read<T> = Got(value: T, rest: Bytes) | Bad

  /** The characters of a string up to its closing quotation mark. Escapes of code points above
      U+00FF are outside this reader. */
  function ReadChars(t: Bytes): (r: Read<Bytes>)
    ensures r.Got? ==> |r.rest| < |t|
    decreases |t|
  {
    if t == [] then Bad
    else if t[0] == QUOTE then Got([], t[1..])
    else if t[0] < 0x20 then Bad
    else if t[0] != BACKSLASH then Prepend(t[0], ReadChars(t[1..]))
    else if |t| < 2 then Bad
    else if t[1] != 117 then
      match Unescape(t[1])
      case None => Bad
      case Some(c) => Prepend(c, ReadChars(t[2..]))
    else if |t| < 6 || t[2] != 48 || t[3] != 48 || HexValue(t[4]).None? || HexValue(t[5]).None? then Bad
    else Prepend(HexValue(t[4]).value * 16 + HexValue(t[5]).value, ReadChars(t[6..]))
  }

  function Prepend(c: byte, r: Read<Bytes>): Read<Bytes> {
    match r
    case Bad => Bad
    case Got(s, rest) => Got([c] + s, rest)
  }

  lemma ReadEscaped(c: byte, t: Bytes)
    ensures ReadChars(Escaped(c) + t) == Prepend(c, ReadChars(t))
  {
    if ShortEscape(c).Some? {
      ReadShort(c, t);
    } else if c < 0x20 {
      ReadHex(c, t);
    } else {
      assert ([c] + t)[1..] == t;
    }
  }

  lemma ReadShort(c: byte, t: Bytes)
    requires ShortEscape(c).Some?
    ensures ReadChars(Escaped(c) + t) == Prepend(c, ReadChars(t))
  {
    var letter := ShortEscape(c).value;
    assert letter != 117 && Unescape(letter) == Some(c);
    hide ShortEscape, Unescape;
    var e := [BACKSLASH, letter] + t;
    assert e[2..] == t && e[0] == BACKSLASH && e[1] == letter;
  }

  lemma ReadHex(c: byte, t: Bytes)
    requires ShortEscape(c).None? && c < 0x20
    ensures ReadChars(Escaped(c) + t) == Prepend(c, ReadChars(t))
  {
    var high, low := HexDigit(c / 16), HexDigit(c % 16);
    HexRoundTrip(c / 16);
    HexRoundTrip(c % 16);
    assert c / 16 * 16 + c % 16 == c;
    hide HexDigit, HexValue, ShortEscape;
    var e := [BACKSLASH, 117, 48, 48, high, low] + t;
    assert e[6..] == t && e[4] == high && e[5] == low;
    assert e[0] == BACKSLASH && e[1] == 117 && e[2] == 48 && e[3] == 48;
  }

  lemma HexRoundTrip(n: nat)
    requires n < 16
    ensures HexValue(HexDigit(n)) == Some(n)
  {
  }

  /** Escaping loses nothing: the reader stops at the closing quotation mark the writer put, and
      has exactly the characters written. */
  lemma {:induction false} StringRoundTrip(s: Bytes, rest: Bytes)
    ensures ReadChars(EscapedAll(s) + [QUOTE] + rest) == Got(s, rest)
  {
    if s == [] {
      assert EscapedAll(s) + [QUOTE] + rest == [QUOTE] + rest;
    } else {
      StringRoundTrip(s[1..], rest);
      ReadEscaped(s[0], EscapedAll(s[1..]) + [QUOTE] + rest);
      assert EscapedAll(s) + [QUOTE] + rest == Escaped(s[0]) + (EscapedAll(s[1..]) + [QUOTE] + rest);
      assert [s[0]] + s[1..] == s;
    }
  }

  // ----- Reading documents -----

  function ReadString(t: Bytes): Read<Bytes> {
    if t != [] && t[0] == QUOTE then ReadChars(t[1..]) else Bad
  }

  predicate IsDigit(b: byte) { 48 <= b <= 57 }

  /** The digits that start `t`. */
  function DigitRun(t: Bytes): (d: Bytes)
    ensures d <= t && forall i | 0 <= i < |d| :: IsDigit(d[i])
    ensures |d| < |t| ==> !IsDigit(t[|d|])
  {
    if t == [] || !IsDigit(t[0]) then [] else [t[0]] + DigitRun(t[1..])
  }

  function Value(d: Bytes): nat
    requires forall i | 0 <= i < |d| :: IsDigit(d[i])
  {
    if d == [] then 0
    else
      assert IsDigit(d[|d| - 1]);
      10 * Value(d[..|d| - 1]) + (d[|d| - 1] as nat - 48)
  }

  function ReadInt(t: Bytes): Read<Json> {
    var negative := t != [] && t[0] == MINUS;
    var digits := DigitRun(if negative then t[1..] else t);
    if digits == [] then Bad
    else
      var magnitude: int := Value(digits);
      Got(Int(if negative then -magnitude else magnitude), t[(if negative then 1 else 0) + |digits|..])
  }

  /** A reader for the documents of this service: no blanks, arrays, fractions or exponents. The
      fuel bounds nesting. */
  function ReadValue(t: Bytes, fuel: nat): Read<Json>
    decreases fuel, |t|, 1
  {
    if fuel == 0 || t == [] then Bad
    else if NULL <= t then Got(Null, t[4..])
    else if TRUE <= t then Got(Bool(true), t[4..])
    else if FALSE <= t then Got(Bool(false), t[5..])
    else if t[0] == QUOTE then
      (match ReadString(t) case Bad => Bad case Got(s, rest) => Got(String(s), rest))
    else if t[0] == OPEN then
      if |t| > 1 && t[1] == CLOSE then Got(Object([]), t[2..])
      else (match ReadMembers(t[1..], [], fuel - 1) case Bad => Bad case Got(ms, rest) => Got(Object(ms), rest))
    else ReadInt(t)
  }

  /** One member and what follows it; `before` has been read. */
  function ReadMembers(t: Bytes, before: seq<Member>, fuel: nat): Read<seq<Member>>
    decreases fuel, |t|, 0
  {
    match ReadString(t)
    case Bad => Bad
    case Got(name, afterName) =>
      if afterName == [] || afterName[0] != COLON || fuel == 0 then Bad
      else
        match ReadValue(afterName[1..], fuel)
        case Bad => Bad
        case Got(value, afterValue) =>
          var ms := before + [Member(name, value)];
          if afterValue == [] || |afterValue| >= |t| then Bad
          else if afterValue[0] == CLOSE then Got(ms, afterValue[1..])
          else if afterValue[0] == COMMA then ReadMembers(afterValue[1..], ms, fuel)
          else Bad
  }

  // ----- The written text reads back as the document -----

  lemma {:induction false} DigitsRead(n: nat, rest: Bytes)
    requires rest == [] || !IsDigit(rest[0])
    ensures DigitRun(Digits(n) + rest) == Digits(n) && Value(Digits(n)) == n
  {
    RunOfDigits(Digits(n), rest);
    DigitsValue(n);
  }

  lemma {:induction false} RunOfDigits(d: Bytes, rest: Bytes)
    requires (forall i | 0 <= i < |d| :: IsDigit(d[i])) && (rest == [] || !IsDigit(rest[0]))
    ensures DigitRun(d + rest) == d
  {
    if d == [] {
      assert d + rest == rest;
    } else {
      RunOfDigits(d[1..], rest);
      assert (d + rest)[1..] == d[1..] + rest && (d + rest)[0] == d[0] && IsDigit(d[0]);
    }
  }

  lemma {:induction false} DigitsValue(n: nat)
    ensures Value(Digits(n)) == n
  {
    if n >= 10 {
      DigitsValue(n / 10);
      assert Digits(n)[..|Digits(n)| - 1] == Digits(n / 10);
    } else {
      assert Digits(n)[..0] == [];
    }
  }

  lemma DigitsStart(n: nat)
    ensures |Digits(n)| > 0 && IsDigit(Digits(n)[0])
  {
  }

  lemma PlainRead(n: nat, t: Bytes, rest: Bytes)
    requires t == Digits(n) + rest && (rest == [] || !IsDigit(rest[0]))
    ensures t != [] && IsDigit(t[0]) && ReadInt(t) == Got(Int(n), rest)
  {
    DigitsRead(n, rest);
    DigitsStart(n);
    hide Digits, Value, DigitRun;
    assert t[0] == Digits(n)[0];
    assert t[|Digits(n)|..] == rest;
  }

  lemma NegativeParts(d: Bytes, t: Bytes, rest: Bytes)
    requires t == [MINUS] + d + rest
    ensures t[0] == MINUS && t[1..] == d + rest && t[1 + |d|..] == rest
  {
  }

  lemma NegativeRead(n: nat, t: Bytes, rest: Bytes)
    requires t == [MINUS] + Digits(n) + rest && (rest == [] || !IsDigit(rest[0]))
    ensures ReadInt(t) == Got(Int(0 - n), rest)
  {
    hide Digits, Value, DigitRun;
    DigitsRead(n, rest);
    DigitsStart(n);
    NegativeParts(Digits(n), t, rest);
  }

  lemma IntRoundTrip(n: int, rest: Bytes)
    requires rest == [] || !IsDigit(rest[0])
    ensures ReadInt(Decimal(n) + rest) == Got(Int(n), rest)
    ensures var t := Decimal(n) + rest; t != [] && (IsDigit(t[0]) || t[0] == MINUS)
  {
    hide Digits, ReadInt;
    if n < 0 {
      NegativeRead(-n, Decimal(n) + rest, rest);
    } else {
      PlainRead(n, Decimal(n) + rest, rest);
    }
  }

  /** How deeply objects are nested. */
  function Depth(v: Json): nat
    decreases v, 1
  {
    match v
    case Object(members) => 1 + MembersDepth(members)
    case _ => 0
  }

  function MembersDepth(ms: seq<Member>): nat
    decreases ms, 0
  {
    if ms == [] then 0
    else
      var front, last := MembersDepth(ms[..|ms| - 1]), Depth(ms[|ms| - 1].value);
      if front < last then last else front
  }

  lemma {:induction false} MemberDepth(ms: seq<Member>, k: nat)
    requires k < |ms|
    ensures Depth(ms[k].value) <= MembersDepth(ms)
    decreases |ms|
  {
    if k < |ms| - 1 {
      MemberDepth(ms[..|ms| - 1], k);
    }
  }

  /** The text from member `k` on. */
  function TailText(ms: seq<Member>, k: nat): Bytes
    requires k < |ms|
    decreases |ms| - k
  {
    MemberText(ms[k]) + (if k + 1 < |ms| then [COMMA] + TailText(ms, k + 1) else [])
  }

  lemma {:induction false} MembersTextFromFront(ms: seq<Member>, k: nat)
    requires k < |ms|
    ensures MembersText(ms) == MembersText(ms[..k]) + (if k > 0 then [COMMA] else []) + TailText(ms, k)
    decreases |ms| - k
  {
    var front := ms[..k + 1];
    assert front[..k] == ms[..k] && front[|front| - 1] == ms[k];
    if k + 1 < |ms| {
      MembersTextFromFront(ms, k + 1);
      hide MembersText, MemberText;
      Associate(MembersText(ms[..k]), if k > 0 then [COMMA] else [], MemberText(ms[k]), [COMMA], TailText(ms, k + 1));
      MembersTextSnoc(ms, k);
    } else {
      assert front == ms;
    }
  }

  lemma MembersTextSnoc(ms: seq<Member>, k: nat)
    requires k < |ms|
    ensures MembersText(ms[..k + 1]) == MembersText(ms[..k]) + (if k > 0 then [COMMA] else []) + MemberText(ms[k])
  {
    hide MemberText;
    assert ms[..k + 1][..k] == ms[..k];
  }

  lemma Associate(a: Bytes, b: Bytes, c: Bytes, d: Bytes, e: Bytes)
    ensures ((a + b) + c) + d + e == (a + b) + (c + (d + e))
  {
  }

  lemma NotALiteral(t: Bytes, fuel: nat)
    requires t != [] && t[0] != 110 && t[0] != 116 && t[0] != 102 && fuel > 0
    ensures t[0] == QUOTE && ReadString(t).Got? ==> ReadValue(t, fuel) == Got(String(ReadString(t).value), ReadString(t).rest)
    ensures t[0] != QUOTE && t[0] != OPEN ==> ReadValue(t, fuel) == ReadInt(t)
  {
    hide ReadString, ReadInt, ReadMembers;
    assert NULL[0] == 110 && TRUE[0] == 116 && FALSE[0] == 102;
  }

  lemma LiteralsRead(rest: Bytes, fuel: nat)
    requires fuel > 0
    ensures ReadValue(NULL + rest, fuel) == Got(Null, rest)
    ensures ReadValue(TRUE + rest, fuel) == Got(Bool(true), rest)
    ensures ReadValue(FALSE + rest, fuel) == Got(Bool(false), rest)
  {
    hide ReadString, ReadInt, ReadMembers;
    assert (NULL + rest)[..4] == NULL && (NULL + rest)[4..] == rest;
    assert (TRUE + rest)[..4] == TRUE && (TRUE + rest)[4..] == rest && (TRUE + rest)[0] == TRUE[0];
    assert (FALSE + rest)[..5] == FALSE && (FALSE + rest)[5..] == rest && (FALSE + rest)[0] == FALSE[0];
  }

  /** Writing and reading a document: the reader of RFC 8259 recovers it, and stops where the
      text ends. */
  lemma {:induction false} RoundTrip(v: Json, rest: Bytes, fuel: nat)
    requires (rest == [] || !IsDigit(rest[0])) && fuel > Depth(v)
    ensures ReadValue(Text(v) + rest, fuel) == Got(v, rest)
    decreases v, 2
  {
    hide ReadValue, Decimal, Quoted, ReadInt, ReadString, MembersText;
    match v
    case Null => LiteralsRead(rest, fuel);
    case Bool(b) => LiteralsRead(rest, fuel);
    case Int(n) =>
      IntRoundTrip(n, rest);
      NotALiteral(Decimal(n) + rest, fuel);
    case String(s) =>
      NameReads(s, rest);
      NotALiteral(Quoted(s) + rest, fuel);
    case Object(members) => ObjectRoundTrip(members, rest, fuel);
  }

  lemma ReadObject(t: Bytes, fuel: nat)
    requires fuel > 0 && |t| >= 2 && t[0] == OPEN
    ensures t[1] == CLOSE ==> ReadValue(t, fuel) == Got(Object([]), t[2..])
    ensures t[1] != CLOSE && ReadMembers(t[1..], [], fuel - 1).Got? ==>
              ReadValue(t, fuel) ==
              Got(Object(ReadMembers(t[1..], [], fuel - 1).value), ReadMembers(t[1..], [], fuel - 1).rest)
  {
    hide ReadMembers;
  }

  lemma ReadMember(t: Bytes, before: seq<Member>, fuel: nat, name: Bytes, value: Json, body: Bytes, after: Bytes)
    requires fuel > 0 && ReadString(t) == Got(name, [COLON] + body)
    requires ReadValue(body, fuel) == Got(value, after) && after != [] && |after| < |t|
    ensures var ms := before + [Member(name, value)];
            && (after[0] == CLOSE ==> ReadMembers(t, before, fuel) == Got(ms, after[1..]))
            && (after[0] == COMMA ==> ReadMembers(t, before, fuel) == ReadMembers(after[1..], ms, fuel))
  {
    hide ReadValue, ReadString;
    assert ([COLON] + body)[1..] == body;
  }

  lemma {:induction false} ObjectRoundTrip(ms: seq<Member>, rest: Bytes, fuel: nat)
    requires fuel > Depth(Object(ms))
    ensures ReadValue(Text(Object(ms)) + rest, fuel) == Got(Object(ms), rest)
    decreases ms, 1
  {
    hide ReadValue, ReadMembers, MembersText, MemberText, TailText, MembersDepth;
    var t := Text(Object(ms)) + rest;
    ReadObject(t, fuel);
    if ms == [] {
      NoMembers();
      assert t == [OPEN, CLOSE] + rest && t[2..] == rest;
    } else {
      MembersTextFromFront(ms, 0);
      TailStarts(ms, 0);
      NoMembers();
      MembersRoundTrip(ms, 0, rest, fuel - 1);
      assert ms[..0] == [];
      assert t[1..] == TailText(ms, 0) + [CLOSE] + rest;
      assert t[1] == TailText(ms, 0)[0];
    }
  }

  lemma NoMembers()
    ensures MembersText([]) == []
  {
  }

  lemma TailStarts(ms: seq<Member>, k: nat)
    requires k < |ms|
    ensures TailText(ms, k) != [] && TailText(ms, k)[0] == QUOTE
  {
  }

  lemma TailStep(ms: seq<Member>, k: nat)
    requires k < |ms|
    ensures TailText(ms, k) == Quoted(ms[k].name) + [COLON] + Text(ms[k].value)
                               + (if k + 1 < |ms| then [COMMA] + TailText(ms, k + 1) else [])
  {
    hide Quoted, Text;
  }

  function AfterMember(ms: seq<Member>, k: nat, rest: Bytes): Bytes
    requires k < |ms|
  {
    (if k + 1 < |ms| then [COMMA] + TailText(ms, k + 1) else []) + [CLOSE] + rest
  }

  lemma TailIsMemberFirst(ms: seq<Member>, k: nat, rest: Bytes)
    requires k < |ms|
    ensures TailText(ms, k) + [CLOSE] + rest ==
            Quoted(ms[k].name) + ([COLON] + (Text(ms[k].value) + AfterMember(ms, k, rest)))
    ensures |AfterMember(ms, k, rest)| < |TailText(ms, k) + [CLOSE] + rest|
  {
    TailStep(ms, k);
    hide Quoted, Text, TailText;
    Regroup(Quoted(ms[k].name), Text(ms[k].value), if k + 1 < |ms| then [COMMA] + TailText(ms, k + 1) else [], rest);
  }

  lemma AfterMemberIs(ms: seq<Member>, k: nat, rest: Bytes)
    requires k < |ms|
    ensures var after := AfterMember(ms, k, rest);
            && after != [] && !IsDigit(after[0])
            && (if k + 1 < |ms| then after[0] == COMMA && after[1..] == TailText(ms, k + 1) + [CLOSE] + rest
                else after[0] == CLOSE && after[1..] == rest)
  {
    hide TailText;
    if k + 1 < |ms| {
      var tail := TailText(ms, k + 1);
      assert AfterMember(ms, k, rest) == [COMMA] + (tail + [CLOSE] + rest);
    } else {
      assert AfterMember(ms, k, rest) == [CLOSE] + rest;
    }
  }

  lemma {:induction false} MembersRoundTrip(ms: seq<Member>, k: nat, rest: Bytes, fuel: nat)
    requires k < |ms| && fuel > MembersDepth(ms)
    ensures ReadMembers(TailText(ms, k) + [CLOSE] + rest, ms[..k], fuel) == Got(ms, rest)
    decreases ms, 0, |ms| - k
  {
    MemberDepth(ms, k);
    TailIsMemberFirst(ms, k, rest);
    AfterMemberIs(ms, k, rest);
    var m, after := ms[k], AfterMember(ms, k, rest);
    hide ReadValue, ReadMembers, ReadString, Text, Quoted, TailText, MembersDepth, AfterMember, IsDigit;
    RoundTrip(m.value, after, fuel);
    NameReads(m.name, [COLON] + (Text(m.value) + after));
    ReadMember(TailText(ms, k) + [CLOSE] + rest, ms[..k], fuel, m.name, m.value, Text(m.value) + after, after);
    PrefixGrows(ms, k);
    if k + 1 < |ms| {
      MembersRoundTrip(ms, k + 1, rest, fuel);
    }
  }

  lemma PrefixGrows(ms: seq<Member>, k: nat)
    requires k < |ms|
    ensures ms[..k] + [Member(ms[k].name, ms[k].value)] == ms[..k + 1]
    ensures k + 1 == |ms| ==> ms[..k + 1] == ms
  {
  }

  lemma NameReads(name: Bytes, after: Bytes)
    ensures ReadString(Quoted(name) + after) == Got(name, after)
    ensures Quoted(name) + after != [] && (Quoted(name) + after)[0] == QUOTE
  {
    StringRoundTrip(name, after);
    assert (Quoted(name) + after)[1..] == EscapedAll(name) + [QUOTE] + after;
  }

  lemma Regroup(quoted: Bytes, text: Bytes, tail: Bytes, rest: Bytes)
    ensures (quoted + [COLON] + text + tail) + [CLOSE] + rest == quoted + ([COLON] + (text + (tail + [CLOSE] + rest)))
  {
  }
}
