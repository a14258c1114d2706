// What an accepted buffer is: the written form of the request handed out, and nothing else.

module HttpMessage {
  import opened Options
  import opened Utf8
  import opened HttpText
  import opened HttpParser
  import opened HttpParserProperties

  // ----- The written form of a request -----

  /** How a field is written around its value. */
  datatype Margin = Margin(name: seq<byte>, left: seq<byte>, right: seq<byte>)

  function FieldText(m: Margin, h: Header): seq<byte> {
    m.name + [COLON] + m.left + h.value + m.right
  }

  function FieldTexts(ms: seq<Margin>, hs: seq<Header>): (lines: seq<seq<byte>>)
    requires |ms| == |hs|
    ensures |lines| == |hs| && forall i | 0 <= i < |hs| :: lines[i] == FieldText(ms[i], hs[i])
  {
    seq(|hs|, i requires 0 <= i < |hs| => FieldText(ms[i], hs[i]))
  }

  /** Each line after a line break. */
  function Joined(lines: seq<seq<byte>>): seq<byte> {
    if lines == [] then [] else LINE_DELIMITER + lines[0] + Joined(lines[1..])
  }

  function StartLine(verb: seq<byte>, target: seq<byte>): seq<byte> {
    verb + [SPACE] + target + [SPACE] + HTTP_VERSION
  }

  /** A nonempty token, in any case; blanks; a value without control bytes and outer blanks; blanks. */
  predicate FieldIsWritten(m: Margin, h: Header) {
    && m.name != [] && IsToken(m.name) && h.name == Lower(m.name)
    && AllBlank(m.left) && AllBlank(m.right) && !HasDisallowedFieldValueByte(h.value)
    && (h.value != [] ==> !IsOptionalWhitespace(h.value[0]) && !IsOptionalWhitespace(h.value[|h.value| - 1]))
  }

  predicate IsDecimal(s: seq<byte>) {
    s != [] && forall d | d in s :: IsDigit(d)
  }

  /** `n` is the number the fields declare, or zero where they declare none. */
  predicate Declares(hs: seq<Header>, n: nat) {
    && (forall h | h in hs && h.name == CONTENT_LENGTH :: IsDecimal(h.value) && DecimalValue(h.value) == n)
    && (n > 0 ==> HasName(hs, CONTENT_LENGTH))
  }

  /** `wire` is the request written with this method and these margins. */
  predicate IsWritten(wire: seq<byte>, r: Request, verb: seq<byte>, ms: seq<Margin>) {
    && |ms| == |r.headers| <= MAX_HEADER_COUNT
    && var text := StartLine(verb, r.target) + Joined(FieldTexts(ms, r.headers));
    && wire == text + HEADER_DELIMITER + r.body
    && WellFormed(text) && |text| <= MAX_HEADER_BYTES
    && verb != [] && IsToken(verb) && r.verb == Upper(verb)
    && |r.target| <= MAX_TARGET_BYTES && IsValidTarget(r.target)
    && (forall i | 0 <= i < |ms| :: FieldIsWritten(ms[i], r.headers[i]))
    && DistinctNames(r.headers) && !HasName(r.headers, TRANSFER_ENCODING)
    && Declares(r.headers, |r.body|) && |r.body| <= MAX_BODY_BYTES
  }

  ghost predicate Writes(wire: seq<byte>, r: Request) {
    exists verb, ms :: IsWritten(wire, r, verb, ms)
  }

  // ----- Fields -----

  lemma {:induction false} TrimLeftBlanks(left: seq<byte>, s: seq<byte>)
    requires AllBlank(left)
    ensures TrimLeft(left + s) == TrimLeft(s)
  {
    if left == [] {
      assert left + s == s;
    } else {
      assert left[0] in left && forall b | b in left[1..] :: b in left;
      TrimLeftBlanks(left[1..], s);
      assert (left + s)[1..] == left[1..] + s;
    }
  }

  lemma {:induction false} TrimRightBlanks(s: seq<byte>, right: seq<byte>)
    requires AllBlank(right)
    ensures TrimRight(s + right) == TrimRight(s)
  {
    if right == [] {
      assert s + right == s;
    } else {
      var init := right[..|right| - 1];
      assert right[|right| - 1] in right && forall b | b in init :: b in right;
      TrimRightBlanks(s, init);
      assert (s + right)[..|s + right| - 1] == s + init;
    }
  }

  /** What stands between the blanks is the value. */
  lemma TrimFinds(left: seq<byte>, value: seq<byte>, right: seq<byte>)
    requires AllBlank(left) && AllBlank(right)
    requires value != [] ==> !IsOptionalWhitespace(value[0]) && !IsOptionalWhitespace(value[|value| - 1])
    ensures Trim(left + value + right) == value
  {
    assert left + value + right == left + (value + right);
    TrimLeftBlanks(left, value + right);
    if value == [] {
      assert value + right == right && right + [] == right;
      TrimLeftBlanks(right, []);
    } else {
      TrimRightBlanks(value, right);
    }
  }

  lemma NameBytes(name: seq<byte>)
    requires IsToken(name)
    ensures forall b | b in name :: b != CR && b != LF && b != COLON && !IsOptionalWhitespace(b)
  {
    forall b | b in name
      ensures b != CR && b != LF && b != COLON && !IsOptionalWhitespace(b)
    {
      assert IsTokenCharacter(b);
    }
  }

  lemma ValueBytes(value: seq<byte>, blanks: seq<byte>)
    requires !HasDisallowedFieldValueByte(value) && AllBlank(blanks)
    ensures CR !in value && LF !in value && CR !in blanks && LF !in blanks
  {
  }

  lemma TextBytes(m: Margin, h: Header)
    requires FieldIsWritten(m, h)
    ensures CR !in FieldText(m, h) && LF !in FieldText(m, h)
  {
    NameBytes(m.name);
    ValueBytes(h.value, m.left);
    ValueBytes(h.value, m.right);
    hide IsToken, AllBlank, HasDisallowedFieldValueByte;
    assert forall b | b in FieldText(m, h) :: b in m.name || b == COLON || b in m.left || b in h.value || b in m.right;
  }

  lemma ColonComesAfterName(m: Margin, h: Header)
    requires IsToken(m.name)
    ensures ColonOf(FieldText(m, h)) == Some(|m.name|)
  {
    var line, n := FieldText(m, h), |m.name|;
    NameBytes(m.name);
    forall i | 0 <= i < n
      ensures line[i] != COLON
    {
      assert line[i] == m.name[i] && m.name[i] in m.name;
    }
    FindSingle(line, COLON, 0, n);
  }

  /** A written field is a field line, and denotes its header. */
  lemma WrittenIsFieldLine(m: Margin, h: Header)
    requires FieldIsWritten(m, h) && h.name != TRANSFER_ENCODING
    requires h.name == CONTENT_LENGTH ==> ContentLengthVerdict(h.value).LengthOk?
    ensures IsFieldLine(FieldText(m, h)) && FieldOf(FieldText(m, h)) == h
  {
    hide ColonOf, Trim, IsToken, AllBlank, HasDisallowedFieldValueByte, ContentLengthVerdict, Lower;
    var line, n := FieldText(m, h), |m.name|;
    TextBytes(m, h);
    NameBytes(m.name);
    ColonComesAfterName(m, h);
    assert line[0] == m.name[0] && m.name[0] in m.name;
    assert line[..n] == m.name && line[n + 1..] == m.left + h.value + m.right;
    TrimFinds(m.left, h.value, m.right);
  }

  lemma TrimIsInside(s: seq<byte>) returns (left: seq<byte>, right: seq<byte>)
    ensures s == left + Trim(s) + right && AllBlank(left) && AllBlank(right)
    ensures Trim(s) != [] ==> !IsOptionalWhitespace(Trim(s)[0]) && !IsOptionalWhitespace(Trim(s)[|Trim(s)| - 1])
  {
    hide Trim, AllBlank;
    TrimMeaning(s);
    left, right :| s == left + Trim(s) + right && AllBlank(left) && AllBlank(right);
  }

  /** A field line is a written field. */
  lemma FieldLineIsWritten(line: seq<byte>) returns (m: Margin)
    requires IsFieldLine(line)
    ensures FieldIsWritten(m, FieldOf(line)) && line == FieldText(m, FieldOf(line))
  {
    hide Find, Trim, AllBlank, HasDisallowedFieldValueByte, IsToken, Lower, ContentLengthVerdict;
    var n := ColonOf(line).value;
    var left, right := TrimIsInside(line[n + 1..]);
    m := Margin(line[..n], left, right);
    assert line[n] == line[n..n + 1][0] == COLON;
    assert line == line[..n] + [COLON] + line[n + 1..];
  }

  lemma {:induction false} FieldLinesAreWritten(lines: seq<seq<byte>>) returns (ms: seq<Margin>)
    requires AllFieldLines(lines)
    ensures |ms| == |lines| && FieldTexts(ms, FieldsOf(lines)) == lines
    ensures forall i | 0 <= i < |ms| :: FieldIsWritten(ms[i], FieldsOf(lines)[i])
  {
    hide IsFieldLine, FieldText, FieldIsWritten, FieldOf;
    if lines == [] {
      ms := [];
    } else {
      assert lines[0] in lines && forall l | l in lines[1..] :: l in lines;
      var m := FieldLineIsWritten(lines[0]);
      var rest := FieldLinesAreWritten(lines[1..]);
      ms := [m] + rest;
    }
  }

  // ----- Lines -----

  lemma BreakAt(s: seq<byte>, i: nat)
    ensures OccursAt(s, LINE_DELIMITER, i) <==> i + 2 <= |s| && s[i] == CR && s[i + 1] == LF
  {
    if i + 2 <= |s| {
      assert s[i..i + 2] == [s[i], s[i + 1]];
    }
  }

  predicate EndsInBreak(text: seq<byte>) {
    |text| >= 2 && text[|text| - 2] == CR && text[|text| - 1] == LF
  }

  lemma SplitAt(text: seq<byte>, from: nat, end: nat)
    requires from <= end && OccursAt(text, LINE_DELIMITER, end)
    ensures text[from..] == text[from..end] + LINE_DELIMITER + text[end + 2..]
    ensures !EndsInBreak(text) ==> end + 2 < |text|
  {
    BreakAt(text, end);
  }

  /** The lines after a line break are what they join to, unless the text ends in a line break. */
  lemma {:induction false} LinesJoin(text: seq<byte>, from: nat)
    requires from < |text| && !EndsInBreak(text)
    ensures Joined(Lines(text, from)) == LINE_DELIMITER + text[from..]
    decreases |text| - from
  {
    hide Find, OccursAt, EndsInBreak, Lines;
    LinesStep(text, from);
    var lines := Lines(text, from);
    match Find(text, LINE_DELIMITER, from)
    case None =>
      assert text[from..|text|] == text[from..];
    case Some(end) =>
      SplitAt(text, from, end);
      LinesJoin(text, end + 2);
      assert Joined(lines) == LINE_DELIMITER + text[from..end] + (LINE_DELIMITER + text[end + 2..]);
  }

  lemma TextJoins(text: seq<byte>)
    requires !EndsInBreak(text)
    ensures text == RequestLineOf(text) + Joined(Lines(text, FieldsStart(text)))
  {
    hide Find, OccursAt, EndsInBreak, Lines, Joined;
    match Find(text, LINE_DELIMITER, 0)
    case None =>
      NoLines(text);
      JoinedNothing();
    case Some(end) =>
      SplitAt(text, 0, end);
      LinesJoin(text, end + 2);
      assert text[0..] == text && text[0..end] == text[..end];
  }

  lemma JoinedNothing()
    ensures Joined([]) == []
  {
  }

  predicate Unbroken(line: seq<byte>) {
    CR !in line && LF !in line
  }

  lemma NoBreakIn(text: seq<byte>, from: nat, line: seq<byte>, j: nat)
    requires Unbroken(line) && from + |line| <= |text| && text[from..from + |line|] == line && from <= j < from + |line|
    ensures !OccursAt(text, LINE_DELIMITER, j)
  {
    BreakAt(text, j);
    assert text[j] == line[j - from] && line[j - from] in line;
  }

  /** An unbroken line ends at the line break after it, or with the text. */
  lemma BreakAfter(text: seq<byte>, from: nat, line: seq<byte>, rest: seq<byte>)
    requires Unbroken(line) && from <= |text| && text[from..] == line + LINE_DELIMITER + rest
    ensures Find(text, LINE_DELIMITER, from) == Some(from + |line|)
    ensures from + |line| + 2 <= |text| && text[from..from + |line|] == line && text[from + |line| + 2..] == rest
  {
    var end := from + |line|;
    assert text[from..end] == text[from..][..|line|] == line;
    assert text[end] == text[from..][|line|] == CR && text[end + 1] == text[from..][|line| + 1] == LF;
    assert text[end + 2..] == text[from..][|line| + 2..] == rest;
    hide OccursAt, Unbroken;
    forall j | from <= j < end
      ensures !OccursAt(text, LINE_DELIMITER, j)
    {
      NoBreakIn(text, from, line, j);
    }
    BreakAt(text, end);
    FindUnique(text, LINE_DELIMITER, from, end);
  }

  lemma NoBreakAfter(text: seq<byte>, from: nat, line: seq<byte>)
    requires Unbroken(line) && from <= |text| && text[from..] == line
    ensures Find(text, LINE_DELIMITER, from) == None
  {
    hide Unbroken;
    assert text[from..from + |line|] == line;
    if Find(text, LINE_DELIMITER, from).Some? {
      NoBreakIn(text, from, line, Find(text, LINE_DELIMITER, from).value);
    }
  }

  lemma {:induction false} JoinedLines(text: seq<byte>, from: nat, lines: seq<seq<byte>>)
    requires lines != [] && from < |text| && text[from..] == lines[0] + Joined(lines[1..])
    requires forall l | l in lines :: l != [] && Unbroken(l)
    ensures Lines(text, from) == lines
    decreases |lines|
  {
    hide Find, Unbroken, Lines;
    var line, rest := lines[0], lines[1..];
    assert line in lines;
    LinesStep(text, from);
    if rest == [] {
      assert text[from..] == line;
      NoBreakAfter(text, from, line);
      assert text[from..|text|] == text[from..];
    } else {
      assert rest[0] in lines && forall l | l in rest :: l in lines;
      var more := rest[0] + Joined(rest[1..]);
      assert text[from..] == line + LINE_DELIMITER + more;
      BreakAfter(text, from, line, more);
      JoinedLines(text, from + |line| + 2, rest);
    }
  }

  lemma OneLineParts(start: seq<byte>)
    requires Unbroken(start)
    ensures RequestLineOf(start) == start && Lines(start, FieldsStart(start)) == []
  {
    hide Find, Unbroken, Lines;
    assert start[0..] == start;
    NoBreakAfter(start, 0, start);
    NoLines(start);
  }

  lemma MoreLinesParts(text: seq<byte>, start: seq<byte>, lines: seq<seq<byte>>, more: seq<byte>)
    requires Unbroken(start) && lines != [] && forall l | l in lines :: l != [] && Unbroken(l)
    requires text == start + LINE_DELIMITER + more && more == lines[0] + Joined(lines[1..])
    ensures RequestLineOf(text) == start && Lines(text, FieldsStart(text)) == lines
  {
    hide Find, Unbroken, Lines, Joined;
    assert text[0..] == text && lines[0] in lines;
    BreakAfter(text, 0, start, more);
    assert text[0..|start|] == text[..|start|];
    JoinedLines(text, |start| + 2, lines);
  }

  lemma TextParts(start: seq<byte>, lines: seq<seq<byte>>)
    requires Unbroken(start) && forall l | l in lines :: l != [] && Unbroken(l)
    ensures var text := start + Joined(lines); RequestLineOf(text) == start && Lines(text, FieldsStart(text)) == lines
  {
    hide Find, Unbroken, Lines, FieldsStart, RequestLineOf;
    var text := start + Joined(lines);
    if lines == [] {
      assert text == start;
      OneLineParts(start);
    } else {
      var more := lines[0] + Joined(lines[1..]);
      assert text == start + LINE_DELIMITER + more;
      MoreLinesParts(text, start, lines, more);
    }
  }

  // ----- The end of the header -----

  lemma DelimiterAt(s: seq<byte>, i: nat)
    ensures OccursAt(s, HEADER_DELIMITER, i) <==>
            i + 4 <= |s| && s[i] == CR && s[i + 1] == LF && s[i + 2] == CR && s[i + 3] == LF
  {
    if i + 4 <= |s| {
      assert s[i..i + 4] == [s[i], s[i + 1], s[i + 2], s[i + 3]];
    }
  }

  lemma DelimiterLater(before: seq<byte>, t: seq<byte>, i: nat)
    requires i >= |before|
    ensures OccursAt(before + t, HEADER_DELIMITER, i) <==> OccursAt(t, HEADER_DELIMITER, i - |before|)
  {
    if i + 4 <= |before + t| {
      assert (before + t)[i..i + 4] == t[i - |before|..i - |before| + 4];
    }
  }

  /** Neither an unbroken line nor the break before a nonempty one starts a header delimiter. */
  lemma NoDelimiterInLine(start: seq<byte>, t: seq<byte>, i: nat)
    requires Unbroken(start) && i < |start|
    ensures !OccursAt(start + t, HEADER_DELIMITER, i)
  {
    DelimiterAt(start + t, i);
    assert (start + t)[i] == start[i] && start[i] in start;
  }

  lemma NoDelimiterInBreak(start: seq<byte>, line: seq<byte>, t: seq<byte>, i: nat)
    requires Unbroken(line) && line != [] && |start| <= i < |start| + 2
    ensures !OccursAt(start + LINE_DELIMITER + (line + t), HEADER_DELIMITER, i)
  {
    var s := start + LINE_DELIMITER + (line + t);
    DelimiterAt(s, i);
    assert s[|start|] == CR && s[|start| + 1] == LF && s[|start| + 2] == line[0] && line[0] in line;
  }

  /** Unbroken lines hold no header delimiter: their first one comes after them. */
  lemma {:induction false} NoDelimiterBefore(start: seq<byte>, lines: seq<seq<byte>>, after: seq<byte>, i: nat)
    requires Unbroken(start) && (forall l | l in lines :: l != [] && Unbroken(l))
    requires i < |start + Joined(lines)|
    ensures !OccursAt(start + Joined(lines) + HEADER_DELIMITER + after, HEADER_DELIMITER, i)
    decreases |lines|
  {
    hide OccursAt, Unbroken;
    var s := start + Joined(lines) + HEADER_DELIMITER + after;
    if i < |start| {
      NoDelimiterInLine(start, Joined(lines) + HEADER_DELIMITER + after, i);
      assert s == start + (Joined(lines) + HEADER_DELIMITER + after);
    } else {
      var line, rest := lines[0], lines[1..];
      assert line in lines && forall l | l in rest :: l in lines;
      var t := Joined(rest) + HEADER_DELIMITER + after;
      assert s == start + LINE_DELIMITER + (line + t);
      if i < |start| + 2 {
        NoDelimiterInBreak(start, line, t, i);
      } else {
        DelimiterLater(start + LINE_DELIMITER, line + t, i);
        NoDelimiterBefore(line, rest, after, i - |start| - 2);
        assert line + t == line + Joined(rest) + HEADER_DELIMITER + after;
      }
    }
  }

  lemma DelimiterInWindow(text: seq<byte>, body: seq<byte>)
    requires |text| <= MAX_HEADER_BYTES
    ensures OccursAt(SearchWindow(text + HEADER_DELIMITER + body), HEADER_DELIMITER, |text|)
  {
    DelimiterAt(SearchWindow(text + HEADER_DELIMITER + body), |text|);
  }

  lemma HeaderEndsAfter(start: seq<byte>, lines: seq<seq<byte>>, body: seq<byte>)
    requires Unbroken(start) && (forall l | l in lines :: l != [] && Unbroken(l))
    requires |start + Joined(lines)| <= MAX_HEADER_BYTES
    ensures HeaderEnd(start + Joined(lines) + HEADER_DELIMITER + body) == Some(|start + Joined(lines)|)
  {
    var text := start + Joined(lines);
    var wire := text + HEADER_DELIMITER + body;
    var window, end := SearchWindow(wire), |text|;
    DelimiterInWindow(text, body);
    forall j | 0 <= j < end
      ensures !OccursAt(window, HEADER_DELIMITER, j)
    {
      NoDelimiterBefore(start, lines, body, j);
      if j + 4 <= |window| {
        assert window[j..j + 4] == wire[j..j + 4];
      }
    }
    FindUnique(window, HEADER_DELIMITER, 0, end);
  }

  /** The text before the first header delimiter does not end in a line break. */
  lemma HeaderEndsUnbroken(wire: seq<byte>)
    requires HeaderEnd(wire).Some?
    ensures !EndsInBreak(wire[..HeaderEnd(wire).value])
    ensures var end := HeaderEnd(wire).value; wire == wire[..end] + HEADER_DELIMITER + wire[end + 4..]
  {
    var end := HeaderEnd(wire).value;
    var window := SearchWindow(wire);
    assert window[end..end + 4] == wire[end..end + 4] == HEADER_DELIMITER;
    assert wire == wire[..end] + wire[end..end + 4] + wire[end + 4..];
    if EndsInBreak(wire[..end]) {
      assert wire[end - 2] == CR && wire[end - 1] == LF;
      assert wire[end..end + 4][0] == CR && wire[end..end + 4][1] == LF;
      DelimiterAt(window, end - 2);
    }
  }

  // ----- The declared length -----

  lemma {:induction false} DeclaredIs(hs: seq<Header>)
    requires DistinctNames(hs)
    requires forall h | h in hs && h.name == CONTENT_LENGTH :: ContentLengthVerdict(h.value).LengthOk?
    ensures Declares(hs, DeclaredLength(hs))
  {
    if hs != [] {
      var init, last := hs[..|hs| - 1], hs[|hs| - 1];
      assert hs == init + [last] && last in hs && forall h | h in init :: h in hs;
      DistinctPrefix(init, [last]);
      DeclaredIs(init);
      if last.name == CONTENT_LENGTH {
        LengthIsDecimal(last.value);
        forall h | h in hs && h.name == CONTENT_LENGTH
          ensures h == last
        {
          var i :| 0 <= i < |hs| && hs[i] == h;
        }
      } else if DeclaredLength(hs) > 0 {
        assert HasName(init, CONTENT_LENGTH);
      }
    }
  }

  lemma LengthIsDecimal(value: seq<byte>)
    ensures ContentLengthVerdict(value).LengthOk? <==> IsDecimal(value) && DecimalValue(value) <= MAX_BODY_BYTES
    ensures ContentLengthVerdict(value).LengthOk? ==> ContentLengthVerdict(value).length == DecimalValue(value)
  {
    var p := DigitPrefix(value);
    assert |p| < |value| ==> value[|p|] in value;
    assert |p| == |value| ==> p == value;
  }

  lemma DeclaresOnce(hs: seq<Header>, m: nat, n: nat)
    requires Declares(hs, m) && Declares(hs, n)
    ensures m == n
  {
    if HasName(hs, CONTENT_LENGTH) {
      var h :| h in hs && h.name == CONTENT_LENGTH;
    }
  }

  // ----- Both directions -----

  lemma AcceptedHeader(text: seq<byte>) returns (verb: seq<byte>, ms: seq<Margin>)
    requires VerdictOnHeader(text).HeaderOk? && !EndsInBreak(text)
    ensures var v := VerdictOnHeader(text);
            && WellFormed(text) && |ms| == |v.headers| <= MAX_HEADER_COUNT
            && text == StartLine(verb, v.target) + Joined(FieldTexts(ms, v.headers))
            && verb != [] && IsToken(verb) && v.verb == Upper(verb)
            && |v.target| <= MAX_TARGET_BYTES && IsValidTarget(v.target)
            && (forall i | 0 <= i < |ms| :: FieldIsWritten(ms[i], v.headers[i]))
            && DistinctNames(v.headers) && !HasName(v.headers, TRANSFER_ENCODING)
            && Declares(v.headers, v.length) && v.length <= MAX_BODY_BYTES
  {
    hide FieldIsWritten, FieldText, Joined, IsFieldLine, Lines, FoldFields, DeclaredLength, IsValidTarget, IsToken,
      WellFormed,
      FieldOf, ContentLengthVerdict;
    HeaderGrammar(text);
    var line, lines := RequestLineOf(text), Lines(text, FieldsStart(text));
    HeaderLineIs(text);
    RequestLineAccepted(line);
    verb :| IsRequestLine(line, verb, RequestLineVerdict(line).target) && RequestLineVerdict(line).verb == Upper(verb);
    ms := FieldLinesAreWritten(lines);
    TextJoins(text);
    FieldsMayBe(lines);
    DeclaredIs(FieldsOf(lines));
  }

  lemma HeaderLineIs(text: seq<byte>)
    requires VerdictOnHeader(text).HeaderOk?
    ensures RequestLineVerdict(RequestLineOf(text)) == LineAccepted(VerdictOnHeader(text).verb, VerdictOnHeader(text).target)
  {
    hide RequestLineVerdict, RequestLineOf, FoldFields, Lines, WellFormed;
  }

  lemma FieldsMayBe(lines: seq<seq<byte>>)
    requires AllFieldLines(lines)
    ensures !HasName(FieldsOf(lines), TRANSFER_ENCODING)
    ensures forall h | h in FieldsOf(lines) && h.name == CONTENT_LENGTH :: ContentLengthVerdict(h.value).LengthOk?
  {
    hide ContentLengthVerdict, FieldOf;
    forall h | h in FieldsOf(lines)
      ensures h.name != TRANSFER_ENCODING && (h.name == CONTENT_LENGTH ==> ContentLengthVerdict(h.value).LengthOk?)
    {
      var i :| 0 <= i < |lines| && FieldsOf(lines)[i] == h;
      assert lines[i] in lines && IsFieldLine(lines[i]);
    }
  }

  /** An accepted request is written in the buffer, whole. */
  lemma AcceptedIsWritten(wire: seq<byte>, streamComplete: bool)
    requires Verdict(wire, streamComplete).Accepted?
    ensures Writes(wire, Verdict(wire, streamComplete).request) && Verdict(wire, streamComplete).consumed == |wire|
  {
    hide VerdictOnHeader, FieldIsWritten, FieldText, Joined, IsValidTarget, IsToken, WellFormed, PendingDelimiterBytes,
      DistinctNames, HasName, Declares;
    var end := HeaderEnd(wire).value;
    HeaderEndsUnbroken(wire);
    var verb, ms := AcceptedHeader(wire[..end]);
    var v := VerdictOnHeader(wire[..end]);
    var r := Verdict(wire, streamComplete).request;
    assert r == Request(v.verb, v.target, v.headers, wire[end + 4..]);
    assert IsWritten(wire, r, verb, ms);
  }

  lemma WrittenFields(ms: seq<Margin>, hs: seq<Header>)
    requires |ms| == |hs| && (forall i | 0 <= i < |ms| :: FieldIsWritten(ms[i], hs[i])) && !HasName(hs, TRANSFER_ENCODING)
    requires forall h | h in hs && h.name == CONTENT_LENGTH :: ContentLengthVerdict(h.value).LengthOk?
    ensures var lines := FieldTexts(ms, hs);
            && AllFieldLines(lines) && FieldsOf(lines) == hs && forall l | l in lines :: l != [] && Unbroken(l)
  {
    hide FieldText, FieldIsWritten, ContentLengthVerdict, FieldOf, IsFieldLine;
    var lines := FieldTexts(ms, hs);
    forall i | 0 <= i < |lines|
      ensures IsFieldLine(lines[i]) && FieldOf(lines[i]) == hs[i] && lines[i] != [] && Unbroken(lines[i])
    {
      assert hs[i] in hs;
      WrittenIsFieldLine(ms[i], hs[i]);
      LineMeans(lines[i]);
    }
    assert FieldsOf(lines) == hs;
  }

  lemma LineMeans(line: seq<byte>)
    requires IsFieldLine(line)
    ensures line != [] && Unbroken(line)
  {
  }

  /** The header of a written request is accepted as it. */
  lemma WrittenHeader(r: Request, verb: seq<byte>, ms: seq<Margin>, wire: seq<byte>)
    requires IsWritten(wire, r, verb, ms)
    ensures var text := StartLine(verb, r.target) + Joined(FieldTexts(ms, r.headers));
            && VerdictOnHeader(text) == HeaderOk(r.verb, r.target, r.headers, |r.body|)
            && HeaderEnd(wire) == Some(|text|)
  {
    hide FieldIsWritten, FieldText, Joined, IsFieldLine, Lines, FoldFields, DeclaredLength, IsValidTarget, IsToken,
      WellFormed,
      FieldOf, ContentLengthVerdict, HeaderEnd, RequestLineVerdict, RequestLineOf, FieldsStart;
    var start, lines := StartLine(verb, r.target), FieldTexts(ms, r.headers);
    var text := start + Joined(lines);
    forall h | h in r.headers && h.name == CONTENT_LENGTH
      ensures ContentLengthVerdict(h.value).LengthOk?
    {
      LengthIsDecimal(h.value);
    }
    WrittenFields(ms, r.headers);
    assert IsRequestLine(start, verb, r.target);
    NoLineBreaks(start, verb, r.target);
    TextParts(start, lines);
    RequestLineAccepts(start, verb, r.target);
    HeaderGrammar(text);
    HeaderLineIs(text);
    DeclaredIs(r.headers);
    DeclaresOnce(r.headers, DeclaredLength(r.headers), |r.body|);
    HeaderEndsAfter(start, lines, r.body);
  }

  /** The parser accepts a buffer, as this request, exactly if the buffer is the request written: the
      method as sent in any case, the target, each field in order with its name lower-cased and its
      value without outer blanks, and after the empty line exactly the declared body. */
  lemma AcceptedExactly(wire: seq<byte>, r: Request, streamComplete: bool)
    ensures Verdict(wire, streamComplete) == Accepted(r, |wire|) <==> Writes(wire, r)
  {
    hide IsWritten, VerdictOnHeader, HeaderEnd, PendingDelimiterBytes;
    if Verdict(wire, streamComplete) == Accepted(r, |wire|) {
      AcceptedIsWritten(wire, streamComplete);
    }
    if Writes(wire, r) {
      var verb, ms :| IsWritten(wire, r, verb, ms);
      WrittenIsAccepted(wire, r, verb, ms, streamComplete);
    }
  }

  lemma WrittenIsAccepted(wire: seq<byte>, r: Request, verb: seq<byte>, ms: seq<Margin>, streamComplete: bool)
    requires IsWritten(wire, r, verb, ms)
    ensures Verdict(wire, streamComplete) == Accepted(r, |wire|)
  {
    hide VerdictOnHeader, HeaderEnd, PendingDelimiterBytes, FieldIsWritten, Joined, WellFormed, IsValidTarget, IsToken;
    WrittenHeader(r, verb, ms, wire);
    var text := StartLine(verb, r.target) + Joined(FieldTexts(ms, r.headers));
    assert wire[..|text|] == text && wire[|text| + 4..] == r.body;
  }

  /** A buffer is the written form of one request at most. */
  lemma WritesOne(wire: seq<byte>, r: Request, s: Request)
    requires Writes(wire, r) && Writes(wire, s)
    ensures r == s
  {
    hide Writes, Verdict;
    AcceptedExactly(wire, r, true);
    AcceptedExactly(wire, s, true);
  }

  // ----- What a rejection means -----

  /** The second space comes more than the maximum after the first. */
  ghost predicate HasLongTarget(line: seq<byte>) {
    exists verb, target, rest ::
      line == verb + [SPACE] + target + [SPACE] + rest && SPACE !in verb && SPACE !in target && |target| > MAX_TARGET_BYTES
  }

  ghost predicate IsAnyRequestLine(line: seq<byte>) {
    exists verb, target :: IsRequestLine(line, verb, target)
  }

  /** A line that no field is written as: empty, folded, broken, or without a name before a colon. */
  predicate IsNoField(line: seq<byte>) {
    line == [] || IsOptionalWhitespace(line[0]) || !Unbroken(line) || COLON !in line || line[0] == COLON
  }

  predicate IsLengthField(h: Header) {
    h.name == CONTENT_LENGTH
  }

  /** What one line says of its refusal, after the fields before it. */
  predicate LineCause(line: seq<byte>, before: seq<Header>, reason: Reason) {
    match reason
    case TooManyFields => |before| >= MAX_HEADER_COUNT
    case FieldSyntax => IsNoField(line)
    case FieldName => ColonOf(line).Some? && !IsToken(line[..ColonOf(line).value])
    case DuplicateField => HasName(before, FieldOf(line).name)
    case TransferEncoding => FieldOf(line).name == TRANSFER_ENCODING
    case FieldValueControl => HasDisallowedFieldValueByte(FieldOf(line).value)
    case LengthNotDecimal => IsLengthField(FieldOf(line)) && !IsDecimal(FieldOf(line).value)
    case PayloadTooLarge => IsLengthField(FieldOf(line)) && DecimalValue(DigitPrefix(FieldOf(line).value)) > MAX_BODY_BYTES
    case _ => false
  }

  /** Some line is refused for this reason, after lines that are fields. */
  ghost predicate FieldCause(lines: seq<seq<byte>>, reason: Reason) {
    exists k | 0 <= k < |lines| :: AllFieldLines(lines[..k]) && LineCause(lines[k], FieldsOf(lines)[..k], reason)
  }

  ghost predicate HeaderCause(text: seq<byte>, reason: Reason) {
    var line := RequestLineOf(text);
    match reason
    case HeaderNotUtf8 => !WellFormed(text)
    case TargetTooLarge => WellFormed(text) && HasLongTarget(line)
    case RequestLineInvalid => WellFormed(text) && !IsAnyRequestLine(line) && !HasLongTarget(line)
    case _ => WellFormed(text) && IsAnyRequestLine(line) && FieldCause(Lines(text, FieldsStart(text)), reason)
  }

  /** What each rejection says of the buffer. */
  ghost predicate Cause(wire: seq<byte>, streamComplete: bool, reason: Reason) {
    var end := HeaderEnd(wire);
    match reason
    case HeaderTooLong => forall more :: HeaderEnd(wire + more) == None
    case HeaderIncomplete => streamComplete && end == None && |wire| < MAX_HEADER_WIRE
    case BodyIncomplete =>
      && streamComplete && end.Some? && VerdictOnHeader(wire[..end.value]).HeaderOk?
      && |wire| - end.value - 4 < VerdictOnHeader(wire[..end.value]).length
    case BytesAfterBody =>
      && end.Some? && VerdictOnHeader(wire[..end.value]).HeaderOk?
      && |wire| - end.value - 4 > VerdictOnHeader(wire[..end.value]).length
    case _ => end.Some? && HeaderCause(wire[..end.value], reason)
  }

  lemma PrefixOfMore<T>(first: T, rest: seq<T>, k: nat)
    requires k <= |rest|
    ensures ([first] + rest)[..k + 1] == [first] + rest[..k]
  {
  }

  lemma FieldsAfterFirst(lines: seq<seq<byte>>, k: nat)
    requires lines != [] && k < |lines|
    ensures lines[..k + 1] == [lines[0]] + lines[1..][..k]
    ensures FieldsOf(lines)[..k + 1] == [FieldOf(lines[0])] + FieldsOf(lines[1..])[..k]
  {
    hide FieldOf;
    assert lines == [lines[0]] + lines[1..];
    PrefixOfMore(lines[0], lines[1..], k);
    PrefixOfMore(FieldOf(lines[0]), FieldsOf(lines[1..]), k);
  }

  lemma {:induction false} FirstRefused(lines: seq<seq<byte>>, headers: seq<Header>, length: nat)
    returns (k: nat, before: seq<Header>, n: nat)
    requires FoldFields(lines, headers, length).FieldsBad?
    ensures k < |lines| && before == headers + FieldsOf(lines)[..k] && AllFieldLines(lines[..k])
    ensures FieldStep(lines[k], before, n) == FoldFields(lines, headers, length)
    decreases |lines|
  {
    hide FieldStep, FieldOf, IsFieldLine, AllFieldLines, FieldsOf;
    if FieldStep(lines[0], headers, length).FieldsBad? {
      k, before, n := 0, headers, length;
      NoFieldLines();
    } else {
      var step := FieldStep(lines[0], headers, length);
      StepAccepts(lines[0], headers, length);
      AddsField(lines[0], headers, length);
      k, before, n := FirstRefused(lines[1..], step.headers, step.length);
      FieldsAfterFirst(lines, k);
      AllFieldLinesSplit(lines[0], lines[1..][..k]);
      k := k + 1;
    }
  }

  lemma NoFieldLines()
    ensures AllFieldLines([])
  {
  }

  lemma AddsField(line: seq<byte>, headers: seq<Header>, length: nat)
    requires FieldStep(line, headers, length).FieldsOk?
    ensures FieldStep(line, headers, length).headers == headers + [FieldOf(line)]
  {
  }

  lemma NoColonMeans(line: seq<byte>)
    ensures ColonOf(line) == None ==> COLON !in line
    ensures ColonOf(line) == Some(0) ==> line != [] && line[0] == COLON
  {
    if COLON in line {
      var i :| 0 <= i < |line| && line[i] == COLON;
      assert line[i..i + 1] == [COLON] && OccursAt(line, [COLON], i);
    }
    if ColonOf(line) == Some(0) {
      assert line[0..1] == [COLON];
    }
  }

  lemma StepRefuses(line: seq<byte>, before: seq<Header>, n: nat)
    requires FieldStep(line, before, n).FieldsBad?
    ensures LineCause(line, before, FieldStep(line, before, n).reason)
  {
    hide Find, ColonOf, FieldOf, IsToken, HasDisallowedFieldValueByte, HasName, ContentLengthVerdict;
    NoColonMeans(line);
    RefusedLength(FieldOf(line).value);
  }

  lemma RefusedLength(value: seq<byte>)
    ensures match ContentLengthVerdict(value)
            case LengthOk(_) => true
            case LengthBad(reason) =>
              (reason == LengthNotDecimal && !IsDecimal(value))
              || (reason == PayloadTooLarge && DecimalValue(DigitPrefix(value)) > MAX_BODY_BYTES)
  {
    var p := DigitPrefix(value);
    assert |p| < |value| ==> value[|p|] in value;
    assert |p| == |value| ==> p == value;
  }

  lemma FieldsForCause(lines: seq<seq<byte>>)
    requires FoldFields(lines, [], 0).FieldsBad?
    ensures FieldCause(lines, FoldFields(lines, [], 0).reason)
  {
    hide FieldStep, FoldFields, LineCause, FieldOf, AllFieldLines;
    var k, before, n := FirstRefused(lines, [], 0);
    assert before == FieldsOf(lines)[..k];
    StepRefuses(lines[k], before, n);
  }

  lemma SpacesAround(line: seq<byte>)
    requires Spaces(line).Some?
    ensures var (first, second) := Spaces(line).value;
            && first < second < |line| && SPACE !in line[..first] && SPACE !in line[first + 1..second]
            && line == line[..first] + [SPACE] + line[first + 1..second] + [SPACE] + line[second + 1..]
  {
    var (first, second) := Spaces(line).value;
    assert line[first] == line[first..first + 1][0] == SPACE && line[second] == line[second..second + 1][0] == SPACE;
    forall i | 0 <= i < second && i != first
      ensures line[i] != SPACE
    {
      assert !OccursAt(line, [SPACE], i);
      assert line[i..i + 1] == [line[i]];
    }
  }

  lemma LongTargetSpaces(line: seq<byte>, verb: seq<byte>, target: seq<byte>, rest: seq<byte>)
    requires line == verb + [SPACE] + target + [SPACE] + rest && SPACE !in verb && SPACE !in target
    ensures Spaces(line) == Some((|verb|, |verb| + 1 + |target|))
  {
    var first, second := |verb|, |verb| + 1 + |target|;
    assert line[first] == SPACE && line[second] == SPACE;
    forall i | 0 <= i < second && i != first
      ensures line[i] != SPACE
    {
      if i < first {
        assert line[i] == verb[i] && verb[i] in verb;
      } else {
        assert line[i] == target[i - first - 1] && target[i - first - 1] in target;
      }
    }
    FindSingle(line, SPACE, 0, first);
    FindSingle(line, SPACE, first + 1, second);
  }

  lemma LineForCause(line: seq<byte>)
    ensures RequestLineVerdict(line).LineAccepted? <==> IsAnyRequestLine(line)
    ensures RequestLineVerdict(line).LineTargetTooLong? <==> HasLongTarget(line)
  {
    hide IsRequestLine, SplitRequestLine;
    if RequestLineVerdict(line).LineAccepted? {
      RequestLineAccepted(line);
    }
    if IsAnyRequestLine(line) {
      var verb, target :| IsRequestLine(line, verb, target);
      RequestLineAccepts(line, verb, target);
    }
    if HasLongTarget(line) {
      var verb, target, rest :| line == verb + [SPACE] + target + [SPACE] + rest && SPACE !in verb && SPACE !in target
                                && |target| > MAX_TARGET_BYTES;
      LongTargetSpaces(line, verb, target, rest);
    }
    if RequestLineVerdict(line).LineTargetTooLong? {
      SplitIsShort(line);
      SpacesAround(line);
      var (first, second) := Spaces(line).value;
      assert |line[first + 1..second]| == second - first - 1;
    }
  }

  lemma SplitIsShort(line: seq<byte>)
    ensures !SplitRequestLine(line).LineTargetTooLong?
  {
  }

  lemma HeaderForCause(text: seq<byte>)
    requires VerdictOnHeader(text).HeaderBad?
    ensures HeaderCause(text, VerdictOnHeader(text).reason)
  {
    hide WellFormed, RequestLineVerdict, RequestLineOf, FoldFields, FieldCause, Lines, FieldsStart, IsAnyRequestLine,
      HasLongTarget;
    LineForCause(RequestLineOf(text));
    var fields := FoldFields(Lines(text, FieldsStart(text)), [], 0);
    if fields.FieldsBad? {
      FieldsForCause(Lines(text, FieldsStart(text)));
      FieldReasons(Lines(text, FieldsStart(text)), fields.reason);
    }
  }

  lemma FieldReasons(lines: seq<seq<byte>>, reason: Reason)
    requires FieldCause(lines, reason)
    ensures reason in {TooManyFields, FieldSyntax, FieldName, DuplicateField, TransferEncoding, FieldValueControl,
                       LengthNotDecimal, PayloadTooLarge}
  {
  }

  lemma HeaderReasons(text: seq<byte>, reason: Reason)
    requires HeaderCause(text, reason)
    ensures reason !in {HeaderTooLong, HeaderIncomplete, BodyIncomplete, BytesAfterBody}
  {
    hide FieldCause, WellFormed, IsAnyRequestLine, HasLongTarget;
    if reason !in {HeaderNotUtf8, TargetTooLarge, RequestLineInvalid} {
      FieldReasons(Lines(text, FieldsStart(text)), reason);
    }
  }

  lemma TooLongForEver(wire: seq<byte>, more: seq<byte>)
    requires HeaderEnd(wire).None?
    requires |wire| >= MAX_HEADER_WIRE || |wire| - PendingDelimiterBytes(wire) > MAX_HEADER_BYTES
    ensures HeaderEnd(wire + more) == None
  {
    hide Find, PendingDelimiterBytes;
    if |wire| >= MAX_HEADER_WIRE {
      WindowOfExtension(wire, more);
    } else {
      TooLongStaysTooLong(wire, more);
    }
  }

  /** Every rejection is given for its cause. */
  lemma RejectedForCause(wire: seq<byte>, streamComplete: bool)
    requires Verdict(wire, streamComplete).Rejected?
    ensures Cause(wire, streamComplete, Verdict(wire, streamComplete).reason)
  {
    hide HeaderEnd, VerdictOnHeader, HeaderCause, PendingDelimiterBytes;
    var end := HeaderEnd(wire);
    if end.None? {
      if Verdict(wire, streamComplete) == Rejected(HeaderTooLong) {
        forall more
          ensures HeaderEnd(wire + more) == None
        {
          TooLongForEver(wire, more);
        }
      }
    } else if VerdictOnHeader(wire[..end.value]).HeaderBad? {
      HeaderForCause(wire[..end.value]);
      HeaderReasons(wire[..end.value], VerdictOnHeader(wire[..end.value]).reason);
    }
  }
}
