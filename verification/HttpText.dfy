// Text searching and the byte classes of the HTTP request grammar.

module HttpText {
  import opened Options
  import opened Utf8

  const CR: byte := 13
  const LF: byte := 10
  const SPACE: byte := 32
  const TAB: byte := 9
  const COLON: byte := 58
  const PERCENT: byte := 37

  const LINE_DELIMITER: seq<byte> := [CR, LF]
  const HEADER_DELIMITER: seq<byte> := [CR, LF, CR, LF]
  // HTTP/1.1
  const HTTP_VERSION: seq<byte> := [72, 84, 84, 80, 47, 49, 46, 49]
  // content-length
  const CONTENT_LENGTH: seq<byte> := [99, 111, 110, 116, 101, 110, 116, 45, 108, 101, 110, 103, 116, 104]
  // transfer-encoding
  const TRANSFER_ENCODING: seq<byte> :=
    [116, 114, 97, 110, 115, 102, 101, 114, 45, 101, 110, 99, 111, 100, 105, 110, 103]
  // !#$%&'*+-.^_`|~
  const TOKEN_PUNCTUATION: seq<byte> := [33, 35, 36, 37, 38, 39, 42, 43, 45, 46, 94, 95, 96, 124, 126]

  // ----- Searching -----

  predicate OccursAt(s: seq<byte>, pattern: seq<byte>, i: int) {
    0 <= i && i + |pattern| <= |s| && s[i..i + |pattern|] == pattern
  }

  /** Position of the first occurrence at or after `from`. */
  function Find(s: seq<byte>, pattern: seq<byte>, from: nat): (r: Option<nat>)
    ensures r.Some? ==> from <= r.value && OccursAt(s, pattern, r.value)
                        && forall j | from <= j < r.value :: !OccursAt(s, pattern, j)
    ensures r.None? ==> forall j | from <= j :: !OccursAt(s, pattern, j)
    decreases |s| - from
  {
    if from + |pattern| > |s| then None
    else if OccursAt(s, pattern, from) then Some(from)
    else Find(s, pattern, from + 1)
  }

  lemma FindUnique(s: seq<byte>, pattern: seq<byte>, from: nat, at: nat)
    requires from <= at && OccursAt(s, pattern, at)
    requires forall j | from <= j < at :: !OccursAt(s, pattern, j)
    ensures Find(s, pattern, from) == Some(at)
  {
  }

  /** A match found in a prefix is the match found in every extension. */
  lemma FindInExtension(s: seq<byte>, more: seq<byte>, pattern: seq<byte>, from: nat)
    requires Find(s, pattern, from).Some?
    ensures Find(s + more, pattern, from) == Find(s, pattern, from)
  {
    var at := Find(s, pattern, from).value;
    assert (s + more)[at..at + |pattern|] == s[at..at + |pattern|];
    forall j | from <= j < at
      ensures !OccursAt(s + more, pattern, j)
    {
      assert !OccursAt(s, pattern, j);
      assert (s + more)[j..j + |pattern|] == s[j..j + |pattern|];
    }
    FindUnique(s + more, pattern, from, at);
  }

  // ----- Byte classes -----

  predicate IsDigit(b: byte) { 48 <= b <= 57 }

  predicate IsTokenCharacter(b: byte) {
    IsDigit(b) || 65 <= b <= 90 || 97 <= b <= 122 || b in TOKEN_PUNCTUATION
  }

  predicate IsToken(s: seq<byte>) {
    forall b | b in s :: IsTokenCharacter(b)
  }

  predicate IsHexDigit(b: byte) {
    IsDigit(b) || 65 <= b <= 70 || 97 <= b <= 102
  }

  function AsciiLower(b: byte): byte {
    if 65 <= b <= 90 then b + 32 else b
  }

  function AsciiUpper(b: byte): byte {
    if 97 <= b <= 122 then b - 32 else b
  }

  function Lower(s: seq<byte>): (r: seq<byte>)
    ensures |r| == |s|
  {
    seq(|s|, i requires 0 <= i < |s| => AsciiLower(s[i]))
  }

  function Upper(s: seq<byte>): (r: seq<byte>)
    ensures |r| == |s|
  {
    seq(|s|, i requires 0 <= i < |s| => AsciiUpper(s[i]))
  }

  predicate IsOptionalWhitespace(b: byte) { b == SPACE || b == TAB }

  function TrimLeft(s: seq<byte>): seq<byte> {
    if s != [] && IsOptionalWhitespace(s[0]) then TrimLeft(s[1..]) else s
  }

  function TrimRight(s: seq<byte>): seq<byte> {
    if s != [] && IsOptionalWhitespace(s[|s| - 1]) then TrimRight(s[..|s| - 1]) else s
  }

  /** trimOptionalWhitespace: what is left after removing blanks from both ends. */
  function Trim(s: seq<byte>): seq<byte> { TrimRight(TrimLeft(s)) }

  predicate AllBlank(s: seq<byte>) {
    forall b | b in s :: IsOptionalWhitespace(b)
  }

  lemma {:induction false} TrimLeftMeaning(s: seq<byte>)
    ensures var r := TrimLeft(s);
            |r| <= |s| && r == s[|s| - |r|..] && AllBlank(s[..|s| - |r|])
            && (r == [] || !IsOptionalWhitespace(r[0]))
  {
    if s != [] && IsOptionalWhitespace(s[0]) {
      TrimLeftMeaning(s[1..]);
      var r := TrimLeft(s);
      assert s[..|s| - |r|] == [s[0]] + s[1..][..|s| - 1 - |r|];
    }
  }

  lemma {:induction false} TrimRightMeaning(s: seq<byte>)
    ensures var r := TrimRight(s);
            |r| <= |s| && r == s[..|r|] && AllBlank(s[|r|..])
            && (r == [] || !IsOptionalWhitespace(r[|r| - 1]))
  {
    if s != [] && IsOptionalWhitespace(s[|s| - 1]) {
      TrimRightMeaning(s[..|s| - 1]);
      var r := TrimRight(s);
      assert s[|r|..] == s[..|s| - 1][|r|..] + [s[|s| - 1]];
    }
  }

  /** Trimming removes blanks, and only blanks, from the two ends, and leaves none there. */
  lemma TrimMeaning(s: seq<byte>)
    ensures exists left, right :: s == left + Trim(s) + right && AllBlank(left) && AllBlank(right)
    ensures Trim(s) != [] ==> !IsOptionalWhitespace(Trim(s)[0]) && !IsOptionalWhitespace(Trim(s)[|Trim(s)| - 1])
  {
    hide TrimLeft, TrimRight, AllBlank;
    TrimLeftMeaning(s);
    var t := TrimLeft(s);
    TrimRightMeaning(t);
    var r := TrimRight(t);
    var left, right := s[..|s| - |t|], t[|r|..];
    assert s == left + t && t == r + right;
    assert s == left + Trim(s) + right;
  }

  predicate HasDisallowedFieldValueByte(s: seq<byte>) {
    exists b | b in s :: (b < 0x20 && b != TAB) || b == 0x7F
  }

  // ----- Request targets -----

  predicate IsTargetByte(b: byte) {
    0x21 <= b <= 0x7E && b != 35 && b != 92   // neither '#' nor '\'
  }

  /** An origin-form target: visible ASCII, every percent sign opening a two-digit escape. */
  predicate IsValidTarget(target: seq<byte>) {
    && target != [] && target[0] == 47
    && (forall i | 0 <= i < |target| :: IsTargetByte(target[i]))
    && (forall i | 0 <= i < |target| && target[i] == PERCENT ::
          i + 2 < |target| && IsHexDigit(target[i + 1]) && IsHexDigit(target[i + 2]))
  }

  /** isValidTarget skips both digits of an escape; it still accepts exactly the valid targets. */
  method CheckTarget(target: seq<byte>) returns (ok: bool)
    ensures ok <==> IsValidTarget(target)
  {
    if target == [] || target[0] != 47 {
      return false;
    }
    var index := 0;
    while index < |target|
      invariant 0 <= index <= |target|
      invariant forall i | 0 <= i < index :: IsTargetByte(target[i])
      invariant forall i | 0 <= i < index && target[i] == PERCENT ::
                  i + 2 < |target| && IsHexDigit(target[i + 1]) && IsHexDigit(target[i + 2])
    {
      var value := target[index];
      if value < 0x21 || value > 0x7E || value == 35 || value == 92 {
        return false;
      }
      if value == PERCENT {
        if index + 2 >= |target| || !IsHexDigit(target[index + 1]) || !IsHexDigit(target[index + 2]) {
          return false;
        }
        index := index + 2;
      }
      index := index + 1;
    }
    return true;
  }

  // ----- Header delimiter prefixes -----

  /** `s` ends with the first `n` bytes of CR LF CR LF. */
  predicate EndsWithDelimiterPrefix(s: seq<byte>, n: nat) {
    && n <= 4 && n <= |s|
    && (n >= 1 ==> s[|s| - n] == CR)
    && (n >= 2 ==> s[|s| - n + 1] == LF)
    && (n >= 3 ==> s[|s| - n + 2] == CR)
    && (n >= 4 ==> s[|s| - n + 3] == LF)
  }

  lemma EndsWithIsSuffix(s: seq<byte>, n: nat)
    requires n <= 4 && n <= |s|
    ensures EndsWithDelimiterPrefix(s, n) <==> s[|s| - n..] == HEADER_DELIMITER[..n]
  {
    var tail, prefix := s[|s| - n..], HEADER_DELIMITER[..n];
    assert |tail| == |prefix| == n;
    assert forall i | 0 <= i < n :: tail[i] == s[|s| - n + i] && prefix[i] == HEADER_DELIMITER[i];
    if tail == prefix {
      assert forall i | 0 <= i < n :: s[|s| - n + i] == HEADER_DELIMITER[i];
    }
  }

  /** `n` is the longest prefix of the delimiter, up to `limit` bytes, that ends `s`. */
  predicate IsLongestDelimiterPrefix(s: seq<byte>, limit: nat, n: nat) {
    && n <= limit && EndsWithDelimiterPrefix(s, n)
    && forall m: nat | n < m <= limit :: !EndsWithDelimiterPrefix(s, m)
  }

  /** The longest proper prefix of the delimiter that ends `s`. */
  function PendingDelimiterBytes(s: seq<byte>): (n: nat)
    ensures IsLongestDelimiterPrefix(s, 3, n)
  {
    if EndsWithDelimiterPrefix(s, 3) then 3
    else if EndsWithDelimiterPrefix(s, 2) then 2
    else if EndsWithDelimiterPrefix(s, 1) then 1
    else 0
  }

  lemma LongestIsUnique(s: seq<byte>, limit: nat, n: nat, m: nat)
    requires IsLongestDelimiterPrefix(s, limit, n) && IsLongestDelimiterPrefix(s, limit, m)
    ensures n == m
  {
  }

  method DelimiterPrefixAtEnd(value: seq<byte>) returns (n: nat)
    ensures IsLongestDelimiterPrefix(value, 3, n)
  {
    var maximum := if |value| < 3 then |value| else 3;
    var length := maximum;
    while length > 0
      invariant 0 <= length <= maximum
      invariant forall m: nat | length < m <= 3 :: !EndsWithDelimiterPrefix(value, m)
    {
      EndsWithIsSuffix(value, length);
      if value[|value| - length..] == HEADER_DELIMITER[..length] {
        return length;
      }
      length := length - 1;
    }
    return 0;
  }

  /** The one-byte automaton keeps the longest prefix: on a mismatch the only shorter prefix
      that can survive is a lone CR. */
  lemma AutomatonStep(s: seq<byte>, b: byte, n: nat)
    requires IsLongestDelimiterPrefix(s, 4, n) && n < 4
    ensures IsLongestDelimiterPrefix(s + [b], 4,
              if b == HEADER_DELIMITER[n] then n + 1 else if b == CR then 1 else 0)
  {
    var t := s + [b];
    forall m: nat | 1 <= m <= 4
      ensures EndsWithDelimiterPrefix(t, m) <==>
              EndsWithDelimiterPrefix(s, m - 1) && b == HEADER_DELIMITER[m - 1]
    {
    }
    assert EndsWithDelimiterPrefix(s, 0);
  }
}
