// The one-shot HTTP/1.1 request parser: its verdict on a buffer as a function, the
// imperative parser proved against it, and what an accepted request line and header
// section mean (sections 2.2, 3 and 6.2 of RFC 9112).

module HttpParser {
  import opened Options
  import opened Utf8
  import opened HttpText

  const MAX_HEADER_BYTES: nat := 32 * 1024
  const MAX_HEADER_COUNT: nat := 64
  const MAX_TARGET_BYTES: nat := 8 * 1024
  const MAX_BODY_BYTES: nat := 1024 * 1024
  const MAX_HEADER_WIRE: nat := MAX_HEADER_BYTES + 4

  datatype Header = Header(name: seq<byte>, value: seq<byte>)

  datatype Request = Request(verb: seq<byte>, target: seq<byte>, headers: seq<Header>, body: seq<byte>)

  /** One constructor for each rejection message. */
  datatype Reason =
    | HeaderTooLong | HeaderIncomplete | HeaderNotUtf8
    | TargetTooLarge | RequestLineInvalid
    | TooManyFields | FieldSyntax | FieldName | DuplicateField | TransferEncoding | FieldValueControl
    | LengthNotDecimal | PayloadTooLarge
    | BodyIncomplete | BytesAfterBody

  datatype ParseResult =
    | Accepted(request: Request, consumed: nat)
    | Rejected(reason: Reason)
    | NeedMoreData

  // ----- Request line -----

  datatype LineVerdict = LineAccepted(verb: seq<byte>, target: seq<byte>) | LineInvalid | LineTargetTooLong

  /** Positions of the first two spaces, if both exist. */
  function Spaces(line: seq<byte>): Option<(nat, nat)> {
    match Find(line, [SPACE], 0)
    case None => None
    case Some(first) =>
      match Find(line, [SPACE], first + 1)
      case None => None
      case Some(second) => Some((first, second))
  }

  /** The three parts of a request line: method token, origin-form target, version. */
  function SplitRequestLine(line: seq<byte>): LineVerdict {
    match Spaces(line)
    case None => LineInvalid
    case Some((first, second)) =>
      var verb, target := line[..first], line[first + 1..second];
      if || CR in line || LF in line || verb == [] || target == [] || line[second + 1..] != HTTP_VERSION
         || !IsToken(verb) || |target| > MAX_TARGET_BYTES || !IsValidTarget(target) then LineInvalid
      else LineAccepted(Upper(verb), target)
  }

  function RequestLineVerdict(line: seq<byte>): LineVerdict {
    match Spaces(line)
    case Some((first, second)) =>
      if second - first - 1 > MAX_TARGET_BYTES then LineTargetTooLong else SplitRequestLine(line)
    case None => LineInvalid
  }

  // ----- Content-Length -----

  datatype LengthVerdict = LengthOk(length: nat) | LengthBad(reason: Reason)

  /** Value of a string of decimal digits. */
  function DecimalValue(digits: seq<byte>): nat
    requires forall d | d in digits :: IsDigit(d)
  {
    if digits == [] then 0
    else
      var last := digits[|digits| - 1];
      assert last in digits && IsDigit(last);
      DecimalValue(digits[..|digits| - 1]) * 10 + (last as int - 48)
  }

  /** The longest prefix made of digits. */
  function DigitPrefix(s: seq<byte>): (p: seq<byte>)
    ensures p <= s && (forall d | d in p :: IsDigit(d))
    ensures |p| < |s| ==> !IsDigit(s[|p|])
  {
    if s != [] && IsDigit(s[0]) then [s[0]] + DigitPrefix(s[1..]) else []
  }

  /** A length is the value of an all-digit text; a digit prefix above the body limit is
      refused as too large even when a non-digit follows it. */
  function ContentLengthVerdict(value: seq<byte>): LengthVerdict {
    var digits := DigitPrefix(value);
    if value == [] then LengthBad(LengthNotDecimal)
    else if DecimalValue(digits) > MAX_BODY_BYTES then LengthBad(PayloadTooLarge)
    else if digits != value then LengthBad(LengthNotDecimal)
    else LengthOk(DecimalValue(value))
  }

  lemma {:induction false} DecimalValueMonotone(digits: seq<byte>, i: nat)
    requires (forall d | d in digits :: IsDigit(d)) && i <= |digits|
    ensures DecimalValue(digits[..i]) <= DecimalValue(digits)
  {
    if i == |digits| {
      assert digits[..i] == digits;
    } else {
      var init := digits[..|digits| - 1];
      assert init[..i] == digits[..i];
      DecimalValueMonotone(init, i);
      assert digits[|digits| - 1] in digits;
    }
  }

  /** The digit loop with its division-based overflow guard. */
  method ParseContentLength(value: seq<byte>) returns (r: LengthVerdict)
    ensures r == ContentLengthVerdict(value)
  {
    if value == [] {
      return LengthBad(LengthNotDecimal);
    }
    ghost var digits := DigitPrefix(value);
    var parsedLength: nat := 0;
    var index := 0;
    while index < |value|
      invariant 0 <= index <= |value|
      invariant index <= |digits|
      invariant parsedLength == DecimalValue(digits[..index]) <= MAX_BODY_BYTES
    {
      var character := value[index];
      if !IsDigit(character) {
        assert digits[..index] == digits;
        return LengthBad(LengthNotDecimal);
      }
      assert index < |digits|;
      assert digits[..index + 1][..index] == digits[..index];
      var digit: nat := character as int - 48;
      if parsedLength > (MAX_BODY_BYTES - digit) / 10 {
        DecimalValueMonotone(digits, index + 1);
        return LengthBad(PayloadTooLarge);
      }
      parsedLength := parsedLength * 10 + digit;
      index := index + 1;
    }
    assert digits[..index] == digits == value;
    return LengthOk(parsedLength);
  }

  // ----- Header fields -----

  /** The CR LF separated lines of `text` from position `from` on. */
  function Lines(text: seq<byte>, from: nat): seq<seq<byte>>
    requires from <= |text|
    decreases |text| - from
  {
    if from == |text| then []
    else
      match Find(text, LINE_DELIMITER, from)
      case None => [text[from..]]
      case Some(end) => [text[from..end]] + Lines(text, end + 2)
  }

  lemma LinesStep(text: seq<byte>, cursor: nat)
    requires cursor < |text|
    ensures var lineEnd := Find(text, LINE_DELIMITER, cursor);
            var end := if lineEnd.None? then |text| else lineEnd.value;
            var rest := if lineEnd.None? then [] else Lines(text, end + 2);
            && Lines(text, cursor) != []
            && Lines(text, cursor)[0] == text[cursor..end]
            && Lines(text, cursor)[1..] == rest
  {
    hide Find;
    var lineEnd := Find(text, LINE_DELIMITER, cursor);
    if lineEnd.None? {
      assert text[cursor..] == text[cursor..|text|];
    }
  }

  lemma NoLines(text: seq<byte>)
    ensures Lines(text, |text|) == []
  {
  }

  predicate HasName(headers: seq<Header>, name: seq<byte>) {
    exists h | h in headers :: h.name == name
  }

  function ColonOf(line: seq<byte>): Option<nat> { Find(line, [COLON], 0) }

  /** The header a field line denotes. */
  function FieldOf(line: seq<byte>): Header {
    match ColonOf(line)
    case None => Header([], [])
    case Some(colon) => Header(Lower(line[..colon]), Trim(line[colon + 1..]))
  }

  datatype FieldsVerdict = FieldsOk(headers: seq<Header>, length: nat) | FieldsBad(reason: Reason)

  /** What one field line adds to the headers and the body length read so far. */
  function FieldStep(line: seq<byte>, headers: seq<Header>, length: nat): FieldsVerdict {
    var colon, h := ColonOf(line), FieldOf(line);
    if |headers| >= MAX_HEADER_COUNT then FieldsBad(TooManyFields)
    else if line == [] || IsOptionalWhitespace(line[0]) || CR in line || LF in line then FieldsBad(FieldSyntax)
    else if colon == None || colon == Some(0) then FieldsBad(FieldSyntax)
    else if !IsToken(line[..colon.value]) then FieldsBad(FieldName)
    else if HasName(headers, h.name) then FieldsBad(DuplicateField)
    else if h.name == TRANSFER_ENCODING then FieldsBad(TransferEncoding)
    else if HasDisallowedFieldValueByte(h.value) then FieldsBad(FieldValueControl)
    else if h.name != CONTENT_LENGTH then FieldsOk(headers + [h], length)
    else
      match ContentLengthVerdict(h.value)
      case LengthBad(reason) => FieldsBad(reason)
      case LengthOk(n) => FieldsOk(headers + [h], n)
  }

  function FoldFields(lines: seq<seq<byte>>, headers: seq<Header>, length: nat): FieldsVerdict {
    if lines == [] then FieldsOk(headers, length)
    else
      match FieldStep(lines[0], headers, length)
      case FieldsBad(reason) => FieldsBad(reason)
      case FieldsOk(more, n) => FoldFields(lines[1..], more, n)
  }

  // ----- Complete header -----

  datatype HeaderVerdict =
    | HeaderOk(verb: seq<byte>, target: seq<byte>, headers: seq<Header>, length: nat)
    | HeaderBad(reason: Reason)

  function RequestLineOf(text: seq<byte>): seq<byte> {
    match Find(text, LINE_DELIMITER, 0) case None => text case Some(end) => text[..end]
  }

  function FieldsStart(text: seq<byte>): (start: nat)
    ensures start <= |text|
  {
    match Find(text, LINE_DELIMITER, 0) case None => |text| case Some(end) => end + 2
  }

  /** The verdict on a header section depends on its text alone. */
  function VerdictOnHeader(text: seq<byte>): HeaderVerdict {
    if !WellFormed(text) then HeaderBad(HeaderNotUtf8)
    else
      match RequestLineVerdict(RequestLineOf(text))
      case LineTargetTooLong => HeaderBad(TargetTooLarge)
      case LineInvalid => HeaderBad(RequestLineInvalid)
      case LineAccepted(verb, target) =>
        match FoldFields(Lines(text, FieldsStart(text)), [], 0)
        case FieldsBad(reason) => HeaderBad(reason)
        case FieldsOk(headers, length) => HeaderOk(verb, target, headers, length)
  }

  /** The header text is followed by `available` body bytes. */
  function VerdictOnBody(buffer: seq<byte>, bodyOffset: nat, header: HeaderVerdict, streamComplete: bool): ParseResult
    requires bodyOffset <= |buffer|
  {
    match header
    case HeaderBad(reason) => Rejected(reason)
    case HeaderOk(verb, target, headers, length) =>
      if |buffer| - bodyOffset < length then
        if streamComplete then Rejected(BodyIncomplete) else NeedMoreData
      else if |buffer| - bodyOffset > length then Rejected(BytesAfterBody)
      else Accepted(Request(verb, target, headers, buffer[bodyOffset..]), |buffer|)
  }

  /** The first MAX_HEADER_WIRE bytes: the only place a header delimiter may be. */
  function SearchWindow(wire: seq<byte>): seq<byte> {
    if |wire| <= MAX_HEADER_WIRE then wire else wire[..MAX_HEADER_WIRE]
  }

  function HeaderEnd(wire: seq<byte>): (r: Option<nat>)
    ensures r.Some? ==> r.value <= MAX_HEADER_BYTES && r.value + 4 <= |wire|
  {
    Find(SearchWindow(wire), HEADER_DELIMITER, 0)
  }

  function Verdict(wire: seq<byte>, streamComplete: bool): ParseResult {
    match HeaderEnd(wire)
    case Some(end) => VerdictOnBody(wire, end + 4, VerdictOnHeader(wire[..end]), streamComplete)
    case None =>
      if |wire| >= MAX_HEADER_WIRE || |wire| - PendingDelimiterBytes(wire) > MAX_HEADER_BYTES then Rejected(HeaderTooLong)
      else if streamComplete then Rejected(HeaderIncomplete)
      else NeedMoreData
  }

  // ----- The imperative parser -----

  method ParseRequestLine(line: seq<byte>) returns (r: LineVerdict)
    ensures r == SplitRequestLine(line)
  {
    if CR in line || LF in line {
      return LineInvalid;
    }
    var firstSpace := Find(line, [SPACE], 0);
    if firstSpace.None? || firstSpace.value == 0 {
      return LineInvalid;
    }
    var secondSpace := Find(line, [SPACE], firstSpace.value + 1);
    if secondSpace.None? || secondSpace.value == firstSpace.value + 1 {
      return LineInvalid;
    }
    if line[secondSpace.value + 1..] != HTTP_VERSION {
      return LineInvalid;
    }
    var verb := line[..firstSpace.value];
    if !IsToken(verb) {
      return LineInvalid;
    }
    var target := line[firstSpace.value + 1..secondSpace.value];
    if |target| > MAX_TARGET_BYTES {
      return LineInvalid;
    }
    var valid := CheckTarget(target);
    if !valid {
      return LineInvalid;
    }
    return LineAccepted(Upper(verb), target);
  }

  method ParseBoundedRequestLine(line: seq<byte>) returns (r: LineVerdict)
    ensures r == RequestLineVerdict(line)
  {
    var firstSpace := Find(line, [SPACE], 0);
    if firstSpace.Some? {
      var secondSpace := Find(line, [SPACE], firstSpace.value + 1);
      if secondSpace.Some? && secondSpace.value > firstSpace.value + 1 &&
         secondSpace.value - firstSpace.value - 1 > MAX_TARGET_BYTES {
        return LineTargetTooLong;
      }
    }
    r := ParseRequestLine(line);
  }

  /** One iteration of the field loop. */
  method ParseField(line: seq<byte>, headers: seq<Header>, length: nat) returns (r: FieldsVerdict)
    ensures r == FieldStep(line, headers, length)
  {
    if |headers| >= MAX_HEADER_COUNT {
      return FieldsBad(TooManyFields);
    }
    if line == [] || IsOptionalWhitespace(line[0]) || CR in line || LF in line {
      return FieldsBad(FieldSyntax);
    }
    var colon := Find(line, [COLON], 0);
    if colon == None || colon == Some(0) {
      return FieldsBad(FieldSyntax);
    }
    var rawName := line[..colon.value];
    if !IsToken(rawName) {
      return FieldsBad(FieldName);
    }
    var name := Lower(rawName);
    if HasName(headers, name) {
      return FieldsBad(DuplicateField);
    }
    if name == TRANSFER_ENCODING {
      return FieldsBad(TransferEncoding);
    }
    var rawValue := Trim(line[colon.value + 1..]);
    if HasDisallowedFieldValueByte(rawValue) {
      return FieldsBad(FieldValueControl);
    }
    var contentLength := length;
    if name == CONTENT_LENGTH {
      var parsed := ParseContentLength(rawValue);
      if parsed.LengthBad? {
        return FieldsBad(parsed.reason);
      }
      contentLength := parsed.length;
    }
    return FieldsOk(headers + [Header(name, rawValue)], contentLength);
  }

  /** The field loop: a cursor over the header text, one field per line. */
  method ParseFields(headerText: seq<byte>, start: nat) returns (r: FieldsVerdict)
    requires start <= |headerText|
    ensures r == FoldFields(Lines(headerText, start), [], 0)
  {
    hide Lines, Find, FieldStep;
    NoLines(headerText);
    var headers: seq<Header> := [];
    var contentLength: nat := 0;
    var cursor := start;
    while cursor < |headerText|
      invariant 0 <= cursor <= |headerText|
      invariant FoldFields(Lines(headerText, cursor), headers, contentLength)
                == FoldFields(Lines(headerText, start), [], 0)
      decreases |headerText| - cursor
    {
      var lineEnd := Find(headerText, LINE_DELIMITER, cursor);
      var end := if lineEnd.None? then |headerText| else lineEnd.value;
      var line := headerText[cursor..end];
      LinesStep(headerText, cursor);
      var step := ParseField(line, headers, contentLength);
      if step.FieldsBad? {
        return step;
      }
      headers, contentLength := step.headers, step.length;
      cursor := if lineEnd.None? then |headerText| else end + 2;
    }
    return FieldsOk(headers, contentLength);
  }

  lemma SliceToEnd(s: seq<byte>, i: nat, n: nat)
    requires i + n == |s|
    ensures s[i..i + n] == s[i..]
  {
  }

  method ParseCompleteHeader(buffer: seq<byte>, headerText: seq<byte>, bodyOffset: nat, streamComplete: bool)
    returns (r: ParseResult)
    requires bodyOffset <= |buffer|
    ensures r == VerdictOnBody(buffer, bodyOffset, VerdictOnHeader(headerText), streamComplete)
  {
    var strict := IsStrictUtf8(headerText);
    if !strict {
      return Rejected(HeaderNotUtf8);
    }
    var requestLineEnd := Find(headerText, LINE_DELIMITER, 0);
    var requestLine := if requestLineEnd.None? then headerText else headerText[..requestLineEnd.value];
    assert requestLine == RequestLineOf(headerText);
    var parsedLine := ParseBoundedRequestLine(requestLine);
    if parsedLine.LineTargetTooLong? {
      return Rejected(TargetTooLarge);
    }
    if parsedLine.LineInvalid? {
      return Rejected(RequestLineInvalid);
    }
    var fields := ParseFields(headerText, if requestLineEnd.None? then |headerText| else requestLineEnd.value + 2);
    if fields.FieldsBad? {
      return Rejected(fields.reason);
    }
    var contentLength := fields.length;
    var availableBodyBytes := |buffer| - bodyOffset;
    if availableBodyBytes < contentLength {
      return if streamComplete then Rejected(BodyIncomplete) else NeedMoreData;
    }
    if availableBodyBytes > contentLength {
      return Rejected(BytesAfterBody);
    }
    var body := buffer[bodyOffset..bodyOffset + contentLength];
    SliceToEnd(buffer, bodyOffset, contentLength);
    return Accepted(Request(parsedLine.verb, parsedLine.target, fields.headers, body), bodyOffset + contentLength);
  }

  method Parse(buffer: seq<byte>, streamComplete: bool) returns (r: ParseResult)
    ensures r == Verdict(buffer, streamComplete)
  {
    var searchLength := if |buffer| < MAX_HEADER_WIRE then |buffer| else MAX_HEADER_WIRE;
    assert buffer[..searchLength] == SearchWindow(buffer);
    var headerEnd := Find(buffer[..searchLength], HEADER_DELIMITER, 0);
    if headerEnd.None? {
      if |buffer| > MAX_HEADER_WIRE - 1 {
        return Rejected(HeaderTooLong);
      }
      var possibleDelimiterBytes := DelimiterPrefixAtEnd(buffer);
      LongestIsUnique(buffer, 3, possibleDelimiterBytes, PendingDelimiterBytes(buffer));
      if |buffer| - possibleDelimiterBytes > MAX_HEADER_BYTES {
        return Rejected(HeaderTooLong);
      }
      return if streamComplete then Rejected(HeaderIncomplete) else NeedMoreData;
    }
    // The search window ends four bytes past the header limit, so the parser's second
    // limit check on a found delimiter never fires.
    assert headerEnd.value <= MAX_HEADER_BYTES;
    r := ParseCompleteHeader(buffer, buffer[..headerEnd.value], headerEnd.value + 4, streamComplete);
  }
}
