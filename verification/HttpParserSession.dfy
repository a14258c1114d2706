// The incremental request session: bytes arrive in arbitrary chunks, are framed by a one-byte
// delimiter automaton and a second Content-Length scan, and are judged by the one-shot parser.
// The session's state is shown to be a function of the bytes received, and its final outcome to
// be the one-shot parser's verdict on the whole stream.

module HttpParserSession {
  import opened Options
  import opened Utf8
  import opened HttpText
  import opened HttpParser
  import opened HttpParserProperties
  import opened HttpMessage

  const MAX_OWNED_REQUEST: nat := MAX_HEADER_WIRE + MAX_BODY_BYTES
  const MAX_OWNED_STORAGE: nat := MAX_OWNED_REQUEST + 1
  const SIZE_MAX: nat := 0xFFFF_FFFF_FFFF_FFFF

  datatype SessionState = ReceivingHeader | ReceivingBody | Complete | Refused | Closed

  datatype SessionError =
    | NoError | HttpRejected | TrailingBytes | TerminalState | RequestNotReady | RequestAlreadyTaken | InternalFailure

  datatype SessionResult = SessionResult(state: SessionState, error: SessionError)

  // ----- What a session should look like after a byte sequence -----

  datatype View =
    | AwaitingHeader
    | AwaitingBody(total: nat)
    | Done(request: Request)
    | RefusedWith(reason: Reason)

  function ViewOf(received: seq<byte>): View {
    match HeaderEnd(received)
    case None => if |received| < MAX_HEADER_WIRE then AwaitingHeader else RefusedWith(HeaderTooLong)
    case Some(end) =>
      match VerdictOnHeader(received[..end])
      case HeaderBad(reason) => RefusedWith(reason)
      case HeaderOk(verb, target, headers, length) =>
        if |received| < end + 4 + length then AwaitingBody(end + 4 + length)
        else if |received| > end + 4 + length then RefusedWith(BytesAfterBody)
        else Done(Request(verb, target, headers, received[end + 4..]))
  }

  /** The one-shot verdict on a complete stream, read off the view: the views that still wait
      are the streams the parser calls incomplete or over the header limit. */
  lemma ViewDecidesVerdict(received: seq<byte>)
    ensures ViewOf(received).Done? ==>
              Verdict(received, true) == Verdict(received, false) == Accepted(ViewOf(received).request, |received|)
    ensures ViewOf(received).RefusedWith? ==>
              Verdict(received, true) == Verdict(received, false) == Rejected(ViewOf(received).reason)
    ensures ViewOf(received).AwaitingBody? ==> Verdict(received, false).NeedMoreData?
    ensures ViewOf(received).AwaitingBody? || ViewOf(received).AwaitingHeader? ==> Verdict(received, true).Rejected?
  {
  }

  lemma RefusalIsFinal(p: seq<byte>, more: seq<byte>)
    requires ViewOf(p).RefusedWith?
    ensures ViewOf(p + more) == ViewOf(p)
  {
    if HeaderEnd(p).Some? {
      HeaderEndInExtension(p, more);
    } else {
      WindowOfExtension(p, more);
    }
  }

  /** While the header is open, the delimiter can only be completed by the newest byte. */
  lemma HeaderEndStep(s: seq<byte>, b: byte)
    requires HeaderEnd(s).None? && |s| < MAX_HEADER_WIRE
    ensures HeaderEnd(s + [b]) == if EndsWithDelimiterPrefix(s + [b], 4) then Some(|s| - 3) else None
  {
    var t := s + [b];
    forall i: nat | i + 4 <= |s|
      ensures !OccursAt(t, HEADER_DELIMITER, i)
    {
      NotFoundInPrefix(s, [b], i);
    }
    if |t| >= 4 {
      EndsWithIsSuffix(t, 4);
      assert HEADER_DELIMITER[..4] == HEADER_DELIMITER;
      assert t[|t| - 4..|t|] == t[|t| - 4..];
      assert OccursAt(t, HEADER_DELIMITER, |s| - 3) <==> EndsWithDelimiterPrefix(t, 4);
      if EndsWithDelimiterPrefix(t, 4) {
        FindUnique(t, HEADER_DELIMITER, 0, |s| - 3);
      }
    }
  }

  /** What one more byte does to an open header. */
  lemma HeaderByteStep(s: seq<byte>, b: byte)
    requires ViewOf(s).AwaitingHeader?
    ensures |s| < MAX_HEADER_WIRE
    ensures var t := s + [b];
            if EndsWithDelimiterPrefix(t, 4) then HeaderEnd(t) == Some(|t| - 4)
            else if |t| == MAX_HEADER_WIRE then
              ViewOf(t) == RefusedWith(HeaderTooLong) && Verdict(t, false) == Rejected(HeaderTooLong)
            else ViewOf(t) == AwaitingHeader
  {
    HeaderEndStep(s, b);
  }

  lemma {:induction false} FieldReasons(lines: seq<seq<byte>>, headers: seq<Header>, length: nat)
    requires FoldFields(lines, headers, length).FieldsBad?
    ensures FoldFields(lines, headers, length).reason !in {HeaderTooLong, HeaderIncomplete, BodyIncomplete, BytesAfterBody}
    decreases |lines|
  {
    if FieldStep(lines[0], headers, length).FieldsOk? {
      var step := FieldStep(lines[0], headers, length);
      FieldReasons(lines[1..], step.headers, step.length);
    }
  }

  lemma HeaderReasons(text: seq<byte>)
    requires VerdictOnHeader(text).HeaderBad?
    ensures VerdictOnHeader(text).reason !in {HeaderTooLong, HeaderIncomplete, BodyIncomplete, BytesAfterBody}
  {
    if WellFormed(text) && RequestLineVerdict(RequestLineOf(text)).LineAccepted? {
      FieldReasons(Lines(text, FieldsStart(text)), [], 0);
    }
  }

  lemma LengthBounded(text: seq<byte>)
    requires VerdictOnHeader(text).HeaderOk?
    ensures VerdictOnHeader(text).length <= MAX_BODY_BYTES
  {
    HeaderGrammar(text);
  }

  /** The three ways a header can end. */
  lemma HeaderBoundary(s: seq<byte>)
    requires HeaderEnd(s) == Some(|s| - 4)
    ensures match Verdict(s, false)
            case Rejected(reason) => ViewOf(s) == RefusedWith(reason) && reason != BytesAfterBody
            case Accepted(request, consumed) => ViewOf(s) == Done(request) && consumed == |s|
            case NeedMoreData =>
              && VerdictOnHeader(s[..|s| - 4]).HeaderOk?
              && var length := VerdictOnHeader(s[..|s| - 4]).length;
                 0 < length <= MAX_BODY_BYTES && ViewOf(s) == AwaitingBody(|s| + length)
    ensures 4 <= |s| <= MAX_HEADER_WIRE
  {
    hide VerdictOnHeader, PendingDelimiterBytes;
    var text := s[..|s| - 4];
    assert s[|s|..] == [];
    if VerdictOnHeader(text).HeaderBad? {
      HeaderReasons(text);
    } else {
      LengthBounded(text);
    }
  }

  /** More body bytes move an open body towards its end, onto it, or past it. */
  lemma BodyStep(s: seq<byte>, more: seq<byte>)
    requires ViewOf(s).AwaitingBody?
    ensures |s| < ViewOf(s).total <= MAX_OWNED_REQUEST
    ensures |s + more| < ViewOf(s).total ==> ViewOf(s + more) == ViewOf(s)
    ensures |s + more| == ViewOf(s).total ==> ViewOf(s + more).Done?
    ensures |s + more| > ViewOf(s).total ==> ViewOf(s + more) == RefusedWith(BytesAfterBody)
  {
    HeaderEndInExtension(s, more);
    HeaderGrammar(s[..HeaderEnd(s).value]);
  }

  lemma DoneStep(s: seq<byte>, more: seq<byte>)
    requires ViewOf(s).Done? && more != []
    ensures ViewOf(s + more) == RefusedWith(BytesAfterBody)
  {
    HeaderEndInExtension(s, more);
  }

  // ----- The second Content-Length scan -----

  method AsciiEqualsIgnoreCase(left: seq<byte>, right: seq<byte>) returns (equal: bool)
    ensures equal <==> Lower(left) == Lower(right)
  {
    if |left| != |right| {
      return false;
    }
    var index := 0;
    while index < |left|
      invariant 0 <= index <= |left|
      invariant forall i | 0 <= i < index :: AsciiLower(left[i]) == AsciiLower(right[i])
    {
      if AsciiLower(left[index]) != AsciiLower(right[index]) {
        assert Lower(left)[index] != Lower(right)[index];
        return false;
      }
      index := index + 1;
    }
    return true;
  }

  lemma ContentLengthIsLower()
    ensures Lower(CONTENT_LENGTH) == CONTENT_LENGTH
  {
  }

  /** Once read, the body length is not changed by later fields. */
  lemma {:induction false} LengthIsFixed(lines: seq<seq<byte>>, headers: seq<Header>, length: nat)
    requires HasName(headers, CONTENT_LENGTH)
    requires FoldFields(lines, headers, length).FieldsOk?
    ensures FoldFields(lines, headers, length).length == length
    decreases |lines|
  {
    if lines != [] {
      var line := lines[0];
      StepAccepts(line, headers, length);
      StepAdds(line, headers, length);
      var more := headers + [FieldOf(line)];
      var h :| h in headers && h.name == CONTENT_LENGTH;
      assert h in more;
      LengthIsFixed(lines[1..], more, length);
    }
  }

  /** The digit loop of the scan, whose overflow guard is the width of a size. */
  method ScanDigits(value: seq<byte>) returns (ok: bool, parsed: nat)
    ensures ContentLengthVerdict(value).LengthOk? ==> ok && parsed == ContentLengthVerdict(value).length
  {
    parsed := 0;
    if value == [] {
      return false, 0;
    }
    ghost var digits := DigitPrefix(value);
    var index := 0;
    while index < |value|
      invariant 0 <= index <= |digits|
      invariant parsed == DecimalValue(digits[..index])
    {
      var character := value[index];
      if !IsDigit(character) {
        return false, 0;
      }
      var digit: nat := character as int - 48;
      assert index < |digits| && digits[index] == character;
      assert digits[..index + 1][..index] == digits[..index];
      DecimalValueMonotone(digits, index + 1);
      if parsed > (SIZE_MAX - digit) / 10 {
        return false, 0;
      }
      parsed := parsed * 10 + digit;
      index := index + 1;
    }
    assert digits == value && digits[..index] == digits;
    return true, parsed;
  }

  lemma FieldsOfHeader(text: seq<byte>)
    ensures var fields := FoldFields(Lines(text, FieldsStart(text)), [], 0);
            VerdictOnHeader(text).HeaderOk? ==> fields.FieldsOk? && VerdictOnHeader(text).length == fields.length
  {
    hide FoldFields, Lines, WellFormed;
  }

  /** extractValidatedContentLength: on a header section the parser accepts, the scan recovers
      the parser's bounded body length. */
  method ExtractValidatedContentLength(headerWire: seq<byte>) returns (ok: bool, contentLength: nat)
    requires |headerWire| >= 4
    ensures VerdictOnHeader(headerWire[..|headerWire| - 4]).HeaderOk? ==>
              ok && contentLength == VerdictOnHeader(headerWire[..|headerWire| - 4]).length
  {
    hide Lines, ContentLengthVerdict, VerdictOnHeader, Find, WellFormed, FieldStep, IsToken,
      HasDisallowedFieldValueByte, Trim;
    var headerText := headerWire[..|headerWire| - 4];
    var requestLineEnd := Find(headerText, LINE_DELIMITER, 0);
    var cursor := if requestLineEnd.None? then |headerText| else requestLineEnd.value + 2;
    contentLength := 0;
    FieldsOfHeader(headerText);
    NoLines(headerText);
    ghost var expected := FoldFields(Lines(headerText, cursor), [], 0);
    ghost var headers: seq<Header> := [];
    ContentLengthIsLower();
    while cursor < |headerText|
      invariant 0 <= cursor <= |headerText| && contentLength == 0
      invariant expected.FieldsOk? ==>
                  FoldFields(Lines(headerText, cursor), headers, 0) == expected && !HasName(headers, CONTENT_LENGTH)
      decreases |headerText| - cursor
    {
      var lineEnd := Find(headerText, LINE_DELIMITER, cursor);
      var end := if lineEnd.None? then |headerText| else lineEnd.value;
      var line := headerText[cursor..end];
      LinesStep(headerText, cursor);
      StepAccepts(line, headers, 0);
      if expected.FieldsOk? {
        StepAdds(line, headers, 0);
      }
      var colon := Find(line, [COLON], 0);
      if colon.None? {
        return false, 0;
      }
      var matches := AsciiEqualsIgnoreCase(line[..colon.value], CONTENT_LENGTH);
      if matches {
        if expected.FieldsOk? {
          ghost var rest := Lines(headerText, cursor)[1..];
          ghost var more := headers + [FieldOf(line)];
          assert FieldOf(line) in more;
          LengthIsFixed(rest, more, ContentLengthVerdict(FieldOf(line).value).length);
        }
        ok, contentLength := ScanDigits(Trim(line[colon.value + 1..]));
        return;
      }
      headers := headers + [FieldOf(line)];
      cursor := if lineEnd.None? then |headerText| else end + 2;
    }
    return true, 0;
  }

  // ----- The session -----

  class Session {
    var storage: array?<byte>
    var storageCapacity: nat
    var bufferedBytes: nat
    var delimiterProgress: nat
    var expectedTotalBytes: Option<nat>
    var request: Option<Request>
    var rejection: Option<Reason>
    var state: SessionState
    var terminalError: SessionError
    /** Every byte offered so far, up to the end of the stream. */
    ghost var received: seq<byte>
    /** The stream ended before a request was complete. */
    ghost var cut: bool

    ghost function Buffered(): seq<byte>
      requires storage == null ==> bufferedBytes == 0
      requires storage != null ==> bufferedBytes <= storage.Length
      reads this, storage
    {
      if storage == null then [] else storage[..bufferedBytes]
    }

    ghost predicate StorageValid()
      reads this, storage
    {
      && storageCapacity == (if storage == null then 0 else storage.Length)
      && bufferedBytes <= storageCapacity <= MAX_OWNED_STORAGE
    }

    ghost predicate Valid()
      reads this, storage
    {
      && StorageValid()
      && match state
         case ReceivingHeader =>
           && !cut && Buffered() == received && ViewOf(received).AwaitingHeader?
           && delimiterProgress < 4 && IsLongestDelimiterPrefix(received, 4, delimiterProgress)
           && expectedTotalBytes.None? && request.None? && rejection.None?
         case ReceivingBody =>
           && !cut && Buffered() == received && expectedTotalBytes.Some?
           && ViewOf(received) == AwaitingBody(expectedTotalBytes.value)
           && expectedTotalBytes.value < storageCapacity
           && request.None? && rejection.None?
         case Complete =>
           && !cut && Buffered() == received && bufferedBytes < storageCapacity
           && expectedTotalBytes == Some(bufferedBytes) && rejection.None?
           && request.Some? && ViewOf(received) == Done(request.value)
         case Refused =>
           && storage == null && expectedTotalBytes.None? && request.None? && rejection.Some?
           && terminalError in {HttpRejected, TrailingBytes}
           && (if cut then Verdict(received, true) == Rejected(rejection.value)
               else ViewOf(received) == RefusedWith(rejection.value))
         case Closed =>
           && storage == null && expectedTotalBytes.None? && request.None? && rejection.None?
    }

    /** The view of the bytes received that the concrete state presents. */
    ghost function Presents(): Option<View>
      reads this
    {
      match state
      case ReceivingHeader => Some(AwaitingHeader)
      case ReceivingBody => if expectedTotalBytes.Some? then Some(AwaitingBody(expectedTotalBytes.value)) else None
      case Complete => if request.Some? then Some(Done(request.value)) else None
      case Refused => if rejection.Some? then Some(RefusedWith(rejection.value)) else None
      case Closed => None
    }

    constructor ()
      ensures Valid() && state == ReceivingHeader && received == [] && !cut && storage == null
    {
      storage, storageCapacity, bufferedBytes, delimiterProgress := null, 0, 0, 0;
      expectedTotalBytes, request, rejection := None, None, None;
      state, terminalError := ReceivingHeader, NoError;
      received, cut := [], false;
    }

    method Append(bytes: seq<byte>) returns (r: SessionResult)
      requires Valid()
      modifies this, storage
      ensures Valid() && r.state == state && r.error != InternalFailure
      ensures storage == null || storage == old(storage) || fresh(storage)
      ensures cut == old(cut)
      ensures old(state) in {Refused, Closed} ==>
                r.error == TerminalState && state == old(state) && rejection == old(rejection)
      ensures state == Closed <==> old(state) == Closed
      ensures !cut && state != Closed ==> received == old(received) + bytes
      ensures !cut && state != Closed ==> Presents() == Some(ViewOf(old(received) + bytes))
      ensures old(state) !in {Refused, Closed} ==>
                (r.error == NoError <==> state != Refused)
                && (r.error == TrailingBytes <==> rejection == Some(BytesAfterBody))
                && r.error != TerminalState
    {
      hide ViewOf, Valid, StorageValid;
      if state == Refused || state == Closed {
        NoteIgnored(bytes);
        return Result(TerminalState);
      }
      PresentsView();
      if bytes == [] {
        assert received + bytes == received;
        return Result(NoError);
      }
      if state == Complete {
        CompleteIsBodyComplete();
        r := RejectTrailingBytes(bytes[0], bytes[1..]);
        assert [bytes[0]] + bytes[1..] == bytes;
        return;
      }

      var offset := 0;
      while offset < |bytes|
        invariant 0 <= offset <= |bytes|
        invariant Valid() && !cut && state in {ReceivingHeader, ReceivingBody}
        invariant received == old(received) + bytes[..offset]
        invariant Presents() == Some(ViewOf(received))
        invariant storage == null || storage == old(storage) || fresh(storage)
        decreases |bytes| - offset
      {
        if state == ReceivingHeader {
          assert received + [bytes[offset]] == old(received) + bytes[..offset + 1];
          var update := ReceiveHeaderByte(bytes[offset]);
          offset := offset + 1;
          if update.error != NoError {
            NoteIgnored(bytes[offset..]);
            assert received == old(received) + bytes;
            return update;
          }
          if state == Complete {
            if offset < |bytes| {
              CompleteIsBodyComplete();
              r := RejectTrailingBytes(bytes[offset], bytes[offset + 1..]);
              assert received == old(received) + bytes;
              return;
            }
            return Result(NoError);
          }
        } else {
          r := ReceiveBody(bytes[offset..]);
          assert received == old(received) + bytes;
          return;
        }
      }
      assert bytes[..offset] == bytes;
      PresentsView();
      return Result(NoError);
    }

    lemma PresentsView()
      requires Valid() && state !in {Refused, Closed}
      ensures !cut && rejection.None? && Presents() == Some(ViewOf(received))
    {
    }

    /** Bytes offered after a refusal are never looked at; they cannot change the verdict. */
    ghost method NoteIgnored(bytes: seq<byte>)
      requires Valid() && state in {Refused, Closed}
      modifies this`received
      ensures Valid()
      ensures received == if state == Closed || cut then old(received) else old(received) + bytes
      ensures state == Refused && !cut ==> Presents() == Some(ViewOf(received))
    {
      if state == Refused && !cut {
        RefusalIsFinal(received, bytes);
        received := received + bytes;
      }
    }

    method Finish() returns (r: SessionResult)
      requires Valid()
      modifies this
      ensures Valid() && r.state == state && r.error != InternalFailure
      ensures storage == null || storage == old(storage)
      ensures received == old(received)
      ensures old(state) == Complete ==> r.error == NoError && state == Complete && request == old(request)
      ensures old(state) in {Refused, Closed} ==>
                r.error == TerminalState && state == old(state) && rejection == old(rejection) && cut == old(cut)
      ensures old(state) in {ReceivingHeader, ReceivingBody} ==>
                && r.error == HttpRejected && cut && state == Refused
                && Verdict(received, true) == Rejected(rejection.value)
    {
      if state == Complete {
        return Result(NoError);
      }
      if state == Refused || state == Closed {
        return Result(TerminalState);
      }
      var wire := if storage == null then [] else storage[..bufferedBytes];
      ViewDecidesVerdict(received);
      var parsed := Parse(wire, true);
      // An unfinished request is always rejected here; the internal-failure exit is dead.
      cut := true;
      r := RejectFrom(parsed, HttpRejected);
    }

    method TakeRequest() returns (taken: Option<Request>, error: SessionError)
      requires Valid()
      modifies this
      ensures Valid()
      ensures old(state) == Complete ==>
                && taken.Some? && ViewOf(old(received)) == Done(taken.value) && error == NoError && state == Closed
                && Writes(old(received), taken.value)
      ensures old(state) != Complete ==> taken.None? && state == old(state)
      ensures old(state) == Closed ==> error == RequestAlreadyTaken
      ensures old(state) == Refused ==> error == terminalError
      ensures old(state) in {ReceivingHeader, ReceivingBody} ==> error == RequestNotReady
    {
      hide ViewOf, Verdict, IsLongestDelimiterPrefix, Writes;
      if state == Closed {
        return None, RequestAlreadyTaken;
      }
      if state == Refused {
        return None, terminalError;
      }
      if state != Complete {
        return None, RequestNotReady;
      }
      taken, error := request, NoError;
      DoneIsWritten(received, request.value);
      request, rejection := None, None;
      ReleaseIngressStorage();
      state, terminalError := Closed, NoError;
    }

    /** While a body is open, the bytes still missing from the declared total. */
    method RemainingBytes() returns (n: Option<nat>)
      requires Valid()
      ensures n.Some? <==> state in {ReceivingBody, Complete}
      ensures state == Complete ==> n == Some(0)
      ensures state == ReceivingBody ==> n.Some? && n.value > 0 && |received| + n.value == ViewOf(received).total
    {
      if expectedTotalBytes.None? {
        return None;
      }
      if bufferedBytes >= expectedTotalBytes.value {
        if state == ReceivingBody { BodyStep(received, []); }
        return Some(0);
      }
      return Some(expectedTotalBytes.value - bufferedBytes);
    }

    function Result(error: SessionError): SessionResult
      reads this
    {
      SessionResult(state, error)
    }

    /** Grows the buffer, keeping its contents; refuses only above the owned maximum. */
    method EnsureCapacity(capacity: nat) returns (ok: bool)
      requires StorageValid()
      modifies this`storage, this`storageCapacity
      ensures StorageValid() && Buffered() == old(Buffered())
      ensures storage == old(storage) || fresh(storage)
      ensures ok <==> capacity <= old(storageCapacity) || capacity <= MAX_OWNED_STORAGE
      ensures ok ==> capacity <= storageCapacity
    {
      if capacity <= storageCapacity {
        return true;
      }
      if capacity > MAX_OWNED_STORAGE {
        return false;
      }
      var replacement := new byte[capacity];
      if bufferedBytes != 0 {
        forall i | 0 <= i < bufferedBytes {
          replacement[i] := storage[i];
        }
      }
      storage := replacement;
      storageCapacity := capacity;
      return true;
    }

    /** Copies a span behind the buffered bytes. */
    method CopyIn(span: seq<byte>)
      requires StorageValid() && storage != null && bufferedBytes + |span| <= storageCapacity
      modifies this`bufferedBytes, storage
      ensures StorageValid() && Buffered() == old(Buffered()) + span
    {
      forall i | 0 <= i < |span| {
        storage[bufferedBytes + i] := span[i];
      }
      bufferedBytes := bufferedBytes + |span|;
    }

    /** The body branch of the append loop: it takes every remaining byte of the chunk. */
    method ReceiveBody(span: seq<byte>) returns (r: SessionResult)
      requires Valid() && state == ReceivingBody && span != []
      modifies this, storage
      ensures Valid() && !cut && r.state == state && state in {ReceivingBody, Complete, Refused}
      ensures storage == null || storage == old(storage)
      ensures received == old(received) + span && Presents() == Some(ViewOf(received))
      ensures state == Refused ==> r.error == TrailingBytes && rejection == Some(BytesAfterBody)
      ensures state != Refused ==> r.error == NoError && rejection.None?
    {
      hide ViewOf, Verdict, IsLongestDelimiterPrefix;
      var remaining := expectedTotalBytes.value - bufferedBytes;
      var available := |span|;
      BodyStep(received, span);
      if available > remaining {
        BodyStep(received, span[..remaining]);
        CopyIn(span[..remaining]);
        received := received + span[..remaining];
        r := RejectTrailingBytes(span[remaining], span[remaining + 1..]);
        assert received == old(received) + span;
        return;
      }
      CopyIn(span);
      received := received + span;
      if bufferedBytes == expectedTotalBytes.value {
        r := CompleteRequest();
        return;
      }
      r := Result(NoError);
    }

    method ReceiveHeaderByte(value: byte) returns (r: SessionResult)
      requires Valid() && state == ReceivingHeader
      modifies this, storage
      ensures Valid() && !cut && r.state == state && state != Closed
      ensures storage == null || storage == old(storage) || fresh(storage)
      ensures received == old(received) + [value] && Presents() == Some(ViewOf(received))
      ensures state == Refused ==> r.error == HttpRejected && rejection != Some(BytesAfterBody)
      ensures state != Refused ==> r.error == NoError && rejection.None?
    {
      hide ViewOf, Verdict, HeaderEnd, IsLongestDelimiterPrefix;
      HeaderByteStep(received, value);
      var grown := EnsureCapacity(MAX_HEADER_WIRE);
      // The two internal-failure exits before the store: neither guard can fail.
      assert grown && bufferedBytes < MAX_HEADER_WIRE;
      CopyIn([value]);
      AutomatonStep(received, value, delimiterProgress);
      received := received + [value];
      if value == HEADER_DELIMITER[delimiterProgress] {
        delimiterProgress := delimiterProgress + 1;
      } else {
        delimiterProgress := if value == HEADER_DELIMITER[0] then 1 else 0;
      }

      if delimiterProgress == 4 {
        r := ValidateHeader();
        return;
      }
      if bufferedBytes == MAX_HEADER_WIRE {
        var parsed := Parse(storage[..bufferedBytes], false);
        r := RejectFrom(parsed, HttpRejected);
        return;
      }
      r := Result(NoError);
    }

    method ValidateHeader() returns (r: SessionResult)
      requires StorageValid() && storage != null && state == ReceivingHeader && !cut
      requires Buffered() == received && HeaderEnd(received) == Some(|received| - 4)
      requires expectedTotalBytes.None? && request.None? && rejection.None?
      modifies this
      ensures Valid() && !cut && received == old(received) && r.state == state
      ensures state in {ReceivingBody, Complete, Refused}
      ensures storage == null || storage == old(storage) || fresh(storage)
      ensures state == Refused ==> r.error == HttpRejected && rejection != Some(BytesAfterBody)
      ensures state != Refused ==> r.error == NoError
    {
      var wire := storage[..bufferedBytes];
      hide ViewOf, Verdict, HeaderEnd, VerdictOnHeader, IsLongestDelimiterPrefix;
      HeaderBoundary(received);
      var parsed := Parse(wire, false);
      if parsed.Rejected? {
        r := RejectFrom(parsed, HttpRejected);
        return;
      }
      if parsed.Accepted? {
        assert parsed.consumed == bufferedBytes;
        r := AcceptHeader(parsed.request);
        return;
      }
      r := OpenBody(wire);
    }

    /** A request without a body is complete with its header. */
    method AcceptHeader(accepted: Request) returns (r: SessionResult)
      requires StorageValid() && storage != null && !cut && Buffered() == received
      requires ViewOf(received) == Done(accepted) && rejection.None? && bufferedBytes <= MAX_HEADER_WIRE
      modifies this`storage, this`storageCapacity, this`expectedTotalBytes, this`request, this`state, this`terminalError
      ensures Valid() && state == Complete && r == SessionResult(state, NoError)
      ensures storage == old(storage) || fresh(storage)
    {
      hide ViewOf;
      var grown := EnsureCapacity(bufferedBytes + 1);
      assert grown;
      expectedTotalBytes := Some(bufferedBytes);
      request := Some(accepted);
      state, terminalError := Complete, NoError;
      r := Result(NoError);
    }

    /** Recovers the body length from the validated header and makes room for the body. */
    method OpenBody(wire: seq<byte>) returns (r: SessionResult)
      requires StorageValid() && storage != null && state == ReceivingHeader && !cut
      requires Buffered() == received == wire && HeaderEnd(received) == Some(|received| - 4)
      requires Verdict(received, false).NeedMoreData?
      requires expectedTotalBytes.None? && request.None? && rejection.None?
      modifies this`storage, this`storageCapacity, this`expectedTotalBytes, this`state, this`terminalError
      ensures Valid() && state == ReceivingBody && r == SessionResult(state, NoError)
      ensures storage == old(storage) || fresh(storage)
    {
      hide ViewOf, Verdict, HeaderEnd, VerdictOnHeader, IsLongestDelimiterPrefix;
      HeaderBoundary(received);
      var found, contentLength := ExtractValidatedContentLength(wire);
      // Neither the scan nor the limit arithmetic can fail after the parser's verdict.
      assert found && 0 < contentLength <= MAX_BODY_BYTES && bufferedBytes <= MAX_OWNED_REQUEST - contentLength;
      expectedTotalBytes := Some(bufferedBytes + contentLength);
      var grown := EnsureCapacity(bufferedBytes + contentLength + 1);
      assert grown;
      state, terminalError := ReceivingBody, NoError;
      r := Result(NoError);
    }

    /** The buffer holds exactly one request, with room for one more byte. */
    ghost predicate BodyComplete()
      reads this, storage
    {
      && StorageValid() && !cut && Buffered() == received && ViewOf(received).Done?
      && bufferedBytes < storageCapacity
    }

    lemma CompleteIsBodyComplete()
      requires Valid() && state == Complete
      ensures BodyComplete()
    {
    }

    method CompleteRequest() returns (r: SessionResult)
      requires BodyComplete() && expectedTotalBytes == Some(bufferedBytes) && rejection.None?
      modifies this`request, this`state, this`terminalError
      ensures Valid() && state == Complete && r == SessionResult(Complete, NoError)
    {
      ViewDecidesVerdict(received);
      var parsed := Parse(storage[..bufferedBytes], false);
      assert parsed.Accepted? && parsed.consumed == bufferedBytes;
      request := Some(parsed.request);
      state, terminalError := Complete, NoError;
      r := Result(NoError);
    }

    method RejectFrom(parsed: ParseResult, error: SessionError) returns (r: SessionResult)
      requires parsed.Rejected? && error in {HttpRejected, TrailingBytes}
      requires if cut then Verdict(received, true) == parsed else ViewOf(received) == RefusedWith(parsed.reason)
      modifies this
      ensures Valid() && cut == old(cut) && received == old(received) && storage == null
      ensures state == Refused && rejection == Some(parsed.reason) && terminalError == error
      ensures r == SessionResult(Refused, error)
    {
      rejection := Some(parsed.reason);
      request := None;
      ReleaseIngressStorage();
      state := Refused;
      terminalError := error;
      r := Result(error);
    }

    /** A byte past the declared request: the parser is shown the request and that one byte. */
    method RejectTrailingBytes(first: byte, ghost rest: seq<byte>) returns (r: SessionResult)
      requires BodyComplete()
      modifies this, storage
      ensures Valid() && Presents() == Some(ViewOf(received)) && !cut
      ensures received == old(received) + [first] + rest && storage == null
      ensures state == Refused && rejection == Some(BytesAfterBody) && r == SessionResult(Refused, TrailingBytes)
    {
      hide ViewOf, Verdict, IsLongestDelimiterPrefix;
      storage[bufferedBytes] := first;
      var wire := storage[..bufferedBytes + 1];
      assert wire == received + [first];
      DoneStep(received, [first]);
      ViewDecidesVerdict(received + [first]);
      var parsed := Parse(wire, false);
      RefusalIsFinal(received + [first], rest);
      received := received + [first] + rest;
      r := RejectFrom(parsed, TrailingBytes);
    }

    method ReleaseIngressStorage()
      modifies this`storage, this`storageCapacity, this`bufferedBytes, this`delimiterProgress, this`expectedTotalBytes
      ensures storage == null && storageCapacity == 0 && bufferedBytes == 0 && expectedTotalBytes.None?
    {
      storage, storageCapacity, bufferedBytes, delimiterProgress := null, 0, 0, 0;
      expectedTotalBytes := None;
    }
  }

  // ----- Whole streams -----

  function Concat(chunks: seq<seq<byte>>): seq<byte> {
    if chunks == [] then [] else Concat(chunks[..|chunks| - 1]) + chunks[|chunks| - 1]
  }

  lemma DoneIsWritten(received: seq<byte>, r: Request)
    requires ViewOf(received) == Done(r)
    ensures Writes(received, r) && Verdict(received, true) == Accepted(r, |received|)
  {
    hide Writes, VerdictOnHeader, HeaderEnd;
    ViewDecidesVerdict(received);
    AcceptedIsWritten(received, true);
  }

  /** Appending any chunks and then finishing yields exactly the one-shot verdict on the whole
      stream, so the outcome does not depend on where the stream was cut. A request is handed out exactly
      if the stream is that request written; a rejection has its cause. */
  method RunSession(chunks: seq<seq<byte>>) returns (outcome: ParseResult)
    ensures outcome == Verdict(Concat(chunks), true)
    ensures forall r :: outcome == Accepted(r, |Concat(chunks)|) <==> Writes(Concat(chunks), r)
    ensures match outcome
            case Accepted(r, n) => n == |Concat(chunks)|
            case Rejected(reason) => Cause(Concat(chunks), true, reason)
            case NeedMoreData => false
  {
    hide Verdict, HeaderEnd, VerdictOnHeader, Writes, Cause;
    var session := new Session();
    var index := 0;
    while index < |chunks|
      invariant 0 <= index <= |chunks|
      invariant fresh(session) && (session.storage == null || fresh(session.storage))
      invariant session.Valid() && !session.cut && session.state != Closed
      invariant session.received == Concat(chunks[..index])
    {
      var result := session.Append(chunks[index]);
      assert chunks[..index + 1][..index] == chunks[..index];
      index := index + 1;
    }
    assert chunks[..index] == chunks;
    ViewDecidesVerdict(session.received);
    var result := session.Finish();
    if session.state == Complete {
      var size := session.bufferedBytes;
      var taken, _ := session.TakeRequest();
      DoneIsWritten(Concat(chunks), taken.value);
      outcome := Accepted(taken.value, size);
    } else {
      outcome := Rejected(session.rejection.value);
      RejectedForCause(Concat(chunks), true);
    }
    forall r
      ensures outcome == Accepted(r, |Concat(chunks)|) <==> Writes(Concat(chunks), r)
    {
      AcceptedExactly(Concat(chunks), r, true);
    }
  }
}
