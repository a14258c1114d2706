// What the parser's verdicts mean: the grammar of accepted headers, and how a verdict on a
// buffer constrains the verdicts on its extensions.

module HttpParserProperties {
  import opened Options
  import opened Utf8
  import opened HttpText
  import opened HttpParser

  // ----- Accepted request lines -----

  ghost predicate IsRequestLine(line: seq<byte>, verb: seq<byte>, target: seq<byte>) {
    && line == verb + [SPACE] + target + [SPACE] + HTTP_VERSION
    && verb != [] && IsToken(verb)
    && |target| <= MAX_TARGET_BYTES && IsValidTarget(target)
  }

  lemma TokenHasNoBlank(s: seq<byte>)
    requires IsToken(s)
    ensures forall b | b in s :: b != SPACE && b != CR && b != LF && b != COLON
  {
    forall b | b in s
      ensures b != SPACE && b != CR && b != LF && b != COLON
    {
      assert IsTokenCharacter(b);
    }
  }

  lemma TargetHasNoBlank(t: seq<byte>)
    requires IsValidTarget(t)
    ensures forall b | b in t :: b != SPACE && b != CR && b != LF
  {
    forall b | b in t
      ensures b != SPACE && b != CR && b != LF
    {
      var i :| 0 <= i < |t| && t[i] == b;
      assert IsTargetByte(t[i]);
    }
  }

  lemma FindSingle(s: seq<byte>, b: byte, from: nat, at: nat)
    requires from <= at < |s| && s[at] == b
    requires forall i | from <= i < at :: s[i] != b
    ensures Find(s, [b], from) == Some(at)
  {
    assert s[at..at + 1] == [b];
    forall j | from <= j < at
      ensures !OccursAt(s, [b], j)
    {
      assert s[j..j + 1] == [s[j]];
    }
    FindUnique(s, [b], from, at);
  }

  /** The request-line parser accepts exactly the lines of the grammar
      method SP request-target SP HTTP-version, and upper-cases the method. */
  lemma RequestLineGrammar(line: seq<byte>, verb: seq<byte>, target: seq<byte>)
    ensures IsRequestLine(line, verb, target) ==> RequestLineVerdict(line) == LineAccepted(Upper(verb), target)
    ensures RequestLineVerdict(line).LineAccepted? ==>
              exists v :: IsRequestLine(line, v, RequestLineVerdict(line).target)
                          && RequestLineVerdict(line).verb == Upper(v)
  {
    if IsRequestLine(line, verb, target) {
      RequestLineAccepts(line, verb, target);
    }
    if RequestLineVerdict(line).LineAccepted? {
      RequestLineAccepted(line);
    }
  }

  lemma SpacesOf(line: seq<byte>, verb: seq<byte>, target: seq<byte>)
    requires IsRequestLine(line, verb, target)
    ensures Spaces(line) == Some((|verb|, |verb| + 1 + |target|))
  {
    var first, second := |verb|, |verb| + 1 + |target|;
    TokenHasNoBlank(verb);
    TargetHasNoBlank(target);
    forall i | 0 <= i < first
      ensures line[i] != SPACE
    {
      assert line[i] == verb[i] && verb[i] in verb;
    }
    FindSingle(line, SPACE, 0, first);
    forall i | first < i < second
      ensures line[i] != SPACE
    {
      assert line[i] == target[i - first - 1] && target[i - first - 1] in target;
    }
    FindSingle(line, SPACE, first + 1, second);
  }

  lemma NoLineBreaks(line: seq<byte>, verb: seq<byte>, target: seq<byte>)
    requires IsRequestLine(line, verb, target)
    ensures CR !in line && LF !in line
  {
    TokenHasNoBlank(verb);
    TargetHasNoBlank(target);
    var start := verb + [SPACE] + target;
    assert forall b | b in start :: b in verb || b == SPACE || b in target;
    assert forall b | b in line :: b in start || b == SPACE || b in HTTP_VERSION;
  }

  lemma PartsOf(line: seq<byte>, verb: seq<byte>, target: seq<byte>)
    requires IsRequestLine(line, verb, target)
    ensures line[..|verb|] == verb && line[|verb| + 1..|verb| + 1 + |target|] == target
    ensures line[|verb| + 1 + |target| + 1..] == HTTP_VERSION
  {
  }

  lemma RequestLineAccepts(line: seq<byte>, verb: seq<byte>, target: seq<byte>)
    requires IsRequestLine(line, verb, target)
    ensures RequestLineVerdict(line) == LineAccepted(Upper(verb), target)
  {
    SpacesOf(line, verb, target);
    NoLineBreaks(line, verb, target);
    PartsOf(line, verb, target);
  }

  lemma RequestLineAccepted(line: seq<byte>)
    requires RequestLineVerdict(line).LineAccepted?
    ensures exists v :: IsRequestLine(line, v, RequestLineVerdict(line).target)
                        && RequestLineVerdict(line).verb == Upper(v)
  {
    var (first, second) := Spaces(line).value;
    var verb, target := line[..first], line[first + 1..second];
    assert line[first..first + 1] == [SPACE] && line[second..second + 1] == [SPACE];
    assert line[first] == SPACE && line[second] == SPACE;
    assert line == verb + [SPACE] + target + [SPACE] + HTTP_VERSION;
  }

  // ----- Accepted header fields -----

  function FieldsOf(lines: seq<seq<byte>>): (hs: seq<Header>)
    ensures |hs| == |lines|
    ensures forall i | 0 <= i < |lines| :: hs[i] == FieldOf(lines[i])
  {
    if lines == [] then [] else [FieldOf(lines[0])] + FieldsOf(lines[1..])
  }

  /** A line acceptable on its own: a nonempty token, a colon, a value without control bytes,
      no transfer coding, and a usable number where the name is Content-Length. */
  predicate IsFieldLine(line: seq<byte>) {
    && line != [] && !IsOptionalWhitespace(line[0]) && CR !in line && LF !in line
    && ColonOf(line).Some? && ColonOf(line).value > 0
    && IsToken(line[..ColonOf(line).value])
    && var h := FieldOf(line);
       && h.name != TRANSFER_ENCODING
       && !HasDisallowedFieldValueByte(h.value)
       && (h.name == CONTENT_LENGTH ==> ContentLengthVerdict(h.value).LengthOk?)
  }

  predicate AllFieldLines(lines: seq<seq<byte>>) {
    forall line | line in lines :: IsFieldLine(line)
  }

  lemma AllFieldLinesSplit(line: seq<byte>, rest: seq<seq<byte>>)
    ensures AllFieldLines([line] + rest) <==> IsFieldLine(line) && AllFieldLines(rest)
  {
    assert forall l | l in [line] + rest :: l == line || l in rest;
    if AllFieldLines([line] + rest) {
      assert line in [line] + rest;
      assert forall l | l in rest :: l in [line] + rest;
    }
  }

  predicate DistinctNames(hs: seq<Header>) {
    forall i, j | 0 <= i < j < |hs| :: hs[i].name != hs[j].name
  }

  /** The body length the fields declare: that of the Content-Length field, or zero. */
  function DeclaredLength(hs: seq<Header>): nat {
    if hs == [] then 0
    else
      var last := hs[|hs| - 1];
      match ContentLengthVerdict(last.value)
      case LengthOk(n) => if last.name == CONTENT_LENGTH then n else DeclaredLength(hs[..|hs| - 1])
      case LengthBad(_) => DeclaredLength(hs[..|hs| - 1])
  }

  lemma StepAccepts(line: seq<byte>, headers: seq<Header>, length: nat)
    ensures FieldStep(line, headers, length).FieldsOk? <==>
            |headers| < MAX_HEADER_COUNT && IsFieldLine(line) && !HasName(headers, FieldOf(line).name)
  {
  }

  lemma StepAdds(line: seq<byte>, headers: seq<Header>, length: nat)
    requires FieldStep(line, headers, length).FieldsOk?
    ensures var h := FieldOf(line);
            FieldStep(line, headers, length) ==
            FieldsOk(headers + [h], if h.name == CONTENT_LENGTH then ContentLengthVerdict(h.value).length else length)
  {
  }

  lemma LengthAdds(headers: seq<Header>, h: Header)
    requires h.name == CONTENT_LENGTH ==> ContentLengthVerdict(h.value).LengthOk?
    ensures DeclaredLength(headers + [h]) ==
            if h.name == CONTENT_LENGTH then ContentLengthVerdict(h.value).length else DeclaredLength(headers)
  {
    var hs := headers + [h];
    assert hs[..|hs| - 1] == headers;
  }

  lemma DistinctAdds(headers: seq<Header>, h: Header)
    requires DistinctNames(headers)
    ensures DistinctNames(headers + [h]) <==> !HasName(headers, h.name)
  {
    var hs := headers + [h];
    if HasName(headers, h.name) {
      var i :| 0 <= i < |headers| && headers[i].name == h.name;
      assert hs[i].name == hs[|headers|].name;
    }
  }

  lemma DistinctPrefix(a: seq<Header>, b: seq<Header>)
    requires DistinctNames(a + b)
    ensures DistinctNames(a)
  {
    forall i, j | 0 <= i < j < |a|
      ensures a[i].name != a[j].name
    {
      assert (a + b)[i] == a[i] && (a + b)[j] == a[j];
    }
  }

  lemma StepLaw(line: seq<byte>, headers: seq<Header>)
    requires DistinctNames(headers)
    ensures FieldStep(line, headers, DeclaredLength(headers)).FieldsOk? <==>
            |headers| < MAX_HEADER_COUNT && IsFieldLine(line) && DistinctNames(headers + [FieldOf(line)])
    ensures FieldStep(line, headers, DeclaredLength(headers)).FieldsOk? ==>
              FieldStep(line, headers, DeclaredLength(headers))
              == FieldsOk(headers + [FieldOf(line)], DeclaredLength(headers + [FieldOf(line)]))
  {
    var length := DeclaredLength(headers);
    StepAccepts(line, headers, length);
    DistinctAdds(headers, FieldOf(line));
    if FieldStep(line, headers, length).FieldsOk? {
      StepAdds(line, headers, length);
      LengthAdds(headers, FieldOf(line));
    }
  }

  /** The field loop accepts exactly the lists of at most 64 acceptable lines with pairwise
      distinct names, and then returns every field in order and the declared length. */
  lemma {:induction false} FieldsAccepted(lines: seq<seq<byte>>, headers: seq<Header>)
    requires DistinctNames(headers) && |headers| <= MAX_HEADER_COUNT
    ensures FoldFields(lines, headers, DeclaredLength(headers)).FieldsOk? <==>
            && |headers| + |lines| <= MAX_HEADER_COUNT
            && AllFieldLines(lines)
            && DistinctNames(headers + FieldsOf(lines))
    ensures FoldFields(lines, headers, DeclaredLength(headers)).FieldsOk? ==>
              FoldFields(lines, headers, DeclaredLength(headers))
              == FieldsOk(headers + FieldsOf(lines), DeclaredLength(headers + FieldsOf(lines)))
    decreases |lines|
  {
    var all := headers + FieldsOf(lines);
    if lines == [] {
      assert all == headers;
    } else {
      var line, rest := lines[0], lines[1..];
      var more := headers + [FieldOf(line)];
      StepLaw(line, headers);
      assert all == more + FieldsOf(rest);
      assert lines == [line] + rest;
      AllFieldLinesSplit(line, rest);
      if DistinctNames(more) {
        if |headers| < MAX_HEADER_COUNT {
          FieldsAccepted(rest, more);
        }
      } else if DistinctNames(all) {
        DistinctPrefix(more, FieldsOf(rest));
      }
    }
  }

  /** The fields of a whole header section. */
  lemma FieldsFromNone(lines: seq<seq<byte>>)
    ensures FoldFields(lines, [], 0).FieldsOk? <==>
            |lines| <= MAX_HEADER_COUNT && AllFieldLines(lines) && DistinctNames(FieldsOf(lines))
    ensures FoldFields(lines, [], 0).FieldsOk? ==>
              FoldFields(lines, [], 0) == FieldsOk(FieldsOf(lines), DeclaredLength(FieldsOf(lines)))
  {
    hide FoldFields, AllFieldLines, FieldsOf;
    FieldsAccepted(lines, []);
    assert [] + FieldsOf(lines) == FieldsOf(lines);
  }

  /** Which header sections the parser accepts, and what it makes of them. */
  lemma HeaderGrammar(text: seq<byte>)
    ensures VerdictOnHeader(text).HeaderOk? <==>
            var lines := Lines(text, FieldsStart(text));
            && WellFormed(text)
            && RequestLineVerdict(RequestLineOf(text)).LineAccepted?
            && |lines| <= MAX_HEADER_COUNT
            && AllFieldLines(lines)
            && DistinctNames(FieldsOf(lines))
    ensures VerdictOnHeader(text).HeaderOk? ==>
              var v := VerdictOnHeader(text);
              && v.headers == FieldsOf(Lines(text, FieldsStart(text)))
              && v.length == DeclaredLength(v.headers) <= MAX_BODY_BYTES
              && exists sent :: IsRequestLine(RequestLineOf(text), sent, v.target) && v.verb == Upper(sent)
  {
    RequestLineGrammar(RequestLineOf(text), [], []);
    hide IsRequestLine, Upper, WellFormed, RequestLineVerdict, RequestLineOf, Lines, FieldsStart, FoldFields,
      AllFieldLines, DistinctNames, FieldsOf, DeclaredLength;
    var lines := Lines(text, FieldsStart(text));
    FieldsFromNone(lines);
    DeclaredLengthBounded(FieldsOf(lines));
  }

  lemma {:induction false} DeclaredLengthBounded(hs: seq<Header>)
    ensures DeclaredLength(hs) <= MAX_BODY_BYTES
  {
    if hs != [] {
      DeclaredLengthBounded(hs[..|hs| - 1]);
    }
  }

  // ----- Verdicts and extensions -----

  lemma WindowOfExtension(p: seq<byte>, more: seq<byte>)
    ensures SearchWindow(p) <= SearchWindow(p + more)
    ensures |p| >= MAX_HEADER_WIRE ==> SearchWindow(p + more) == SearchWindow(p)
  {
  }

  /** Once found, the end of the header stays where it is. */
  lemma HeaderEndInExtension(p: seq<byte>, more: seq<byte>)
    requires HeaderEnd(p).Some?
    ensures HeaderEnd(p + more) == HeaderEnd(p)
    ensures (p + more)[..HeaderEnd(p).value] == p[..HeaderEnd(p).value]
  {
    WindowOfExtension(p, more);
    var w, x := SearchWindow(p), SearchWindow(p + more);
    assert x == w + x[|w|..];
    FindInExtension(w, x[|w|..], HEADER_DELIMITER, 0);
  }

  lemma DelimiterBytes(s: seq<byte>, i: nat)
    requires OccursAt(s, HEADER_DELIMITER, i)
    ensures s[i] == CR && s[i + 1] == LF && s[i + 2] == CR && s[i + 3] == LF
  {
    var d := s[i..i + 4];
    assert d[0] == s[i] && d[1] == s[i + 1] && d[2] == s[i + 2] && d[3] == s[i + 3];
  }

  lemma NotFoundInPrefix(p: seq<byte>, more: seq<byte>, i: nat)
    requires HeaderEnd(p).None? && |p| <= MAX_HEADER_WIRE && i + 4 <= |p|
    ensures !OccursAt(SearchWindow(p + more), HEADER_DELIMITER, i)
  {
    WindowOfExtension(p, more);
    assert !OccursAt(SearchWindow(p), HEADER_DELIMITER, i);
    assert SearchWindow(p)[i..i + 4] == SearchWindow(p + more)[i..i + 4];
  }

  /** A buffer too long for the bytes that could still become a delimiter never finds one. */
  lemma TooLongStaysTooLong(p: seq<byte>, more: seq<byte>)
    requires HeaderEnd(p).None? && |p| < MAX_HEADER_WIRE
    requires |p| - PendingDelimiterBytes(p) > MAX_HEADER_BYTES
    ensures HeaderEnd(p + more).None?
    ensures |p + more| < MAX_HEADER_WIRE ==>
              |p + more| - PendingDelimiterBytes(p + more) > MAX_HEADER_BYTES
  {
    var q := p + more;
    if HeaderEnd(q).Some? {
      var i := HeaderEnd(q).value;
      DelimiterBytes(SearchWindow(q), i);
      if i + 4 <= |p| {
        NotFoundInPrefix(p, more, i);
      } else {
        var m: nat := |p| - i;
        assert EndsWithDelimiterPrefix(p, m);
      }
    }
    if |q| < MAX_HEADER_WIRE {
      var n := PendingDelimiterBytes(q);
      if |q| - n <= MAX_HEADER_BYTES {
        var m: nat := n - |more|;
        assert |q| - n == |p| - m;
        assert EndsWithDelimiterPrefix(p, m);
      }
    }
  }

  /** A rejection of an unfinished buffer is final: every extension, finished or not, is
      rejected for the same reason. */
  lemma RejectionIsFinal(p: seq<byte>, more: seq<byte>, streamComplete: bool)
    requires Verdict(p, false).Rejected?
    ensures Verdict(p + more, streamComplete) == Verdict(p, false)
  {
    if HeaderEnd(p).Some? {
      HeaderEndInExtension(p, more);
    } else if |p| >= MAX_HEADER_WIRE {
      WindowOfExtension(p, more);
    } else {
      TooLongStaysTooLong(p, more);
    }
  }

  /** An accepted buffer is consumed whole and has no accepted strict extension. */
  lemma AcceptanceIsExact(p: seq<byte>, more: seq<byte>, streamComplete: bool)
    requires Verdict(p, false).Accepted?
    ensures Verdict(p, false).consumed == |p|
    ensures more == [] ==> Verdict(p + more, streamComplete) == Verdict(p, false)
    ensures more != [] ==> Verdict(p + more, streamComplete) == Rejected(BytesAfterBody)
  {
    hide VerdictOnHeader, PendingDelimiterBytes, Find;
    HeaderEndInExtension(p, more);
    if more == [] {
      assert p + more == p;
    }
  }

  /** Declaring the stream complete settles pending buffers as incomplete and changes no
      other verdict. */
  lemma CompletionSettles(p: seq<byte>)
    ensures !Verdict(p, false).NeedMoreData? ==> Verdict(p, true) == Verdict(p, false)
    ensures Verdict(p, false).NeedMoreData? ==>
              Verdict(p, true) == Rejected(if HeaderEnd(p).Some? then BodyIncomplete else HeaderIncomplete)
  {
  }
}
