// UTF-8 as the service validates it: the octet grammar of section 4 of RFC 3629,
// the scalar values it encodes, and the two validators the code base implements
// (a lead-byte table and a scalar decoder with minimum and surrogate checks).

module Utf8 {
  type byte = x: int | 0 <= x < 256

  function Code(c: char): byte { if c < 128 as char then c as int else 63 }

  /** The bytes of an ASCII literal. */
  function Ascii(s: string): (b: seq<byte>)
    ensures |b| == |s| && forall i | 0 <= i < |s| :: b[i] == Code(s[i])
  {
    seq(|s|, i requires 0 <= i < |s| => Code(s[i]))
  }

  // ----- Specification: scalar values and their encodings -----

  predicate IsScalar(c: int) {
    0 <= c <= 0xD7FF || 0xE000 <= c <= 0x10FFFF
  }

  /** The UTF-8 encoding of one scalar value (table of section 3 of RFC 3629): six payload
      bits per continuation octet, the remaining high bits in the lead octet. */
  function Encode(c: int): (b: seq<byte>)
    requires IsScalar(c)
    ensures 1 <= |b| <= 4
  {
    if c < 0x80 then [c]
    else
      var c1 := c / 64;
      if c < 0x800 then [0xC0 + c1, 0x80 + c % 64]
      else
        var c2 := c1 / 64;
        if c < 0x10000 then [0xE0 + c2, 0x80 + c1 % 64, 0x80 + c % 64]
        else [0xF0 + c2 / 64, 0x80 + c2 % 64, 0x80 + c1 % 64, 0x80 + c % 64]
  }

  function EncodeAll(cs: seq<int>): seq<byte>
    requires forall c | c in cs :: IsScalar(c)
  {
    if cs == [] then [] else Encode(cs[0]) + EncodeAll(cs[1..])
  }

  // ----- Specification: the octet grammar -----

  /** A continuation octet: the mask test `(b & 0xC0) == 0x80`. */
  predicate IsTail(b: byte) { 0x80 <= b <= 0xBF }

  /** One character of the grammar UTF8-char. */
  predicate IsChar(s: seq<byte>) {
    || (|s| == 1 && s[0] <= 0x7F)
    || (|s| == 2 && 0xC2 <= s[0] <= 0xDF && IsTail(s[1]))
    || (|s| == 3 && IsTail(s[2]) &&
        (|| (s[0] == 0xE0 && 0xA0 <= s[1] <= 0xBF)
         || ((0xE1 <= s[0] <= 0xEC || 0xEE <= s[0] <= 0xEF) && IsTail(s[1]))
         || (s[0] == 0xED && 0x80 <= s[1] <= 0x9F)))
    || (|s| == 4 && IsTail(s[2]) && IsTail(s[3]) &&
        (|| (s[0] == 0xF0 && 0x90 <= s[1] <= 0xBF)
         || (0xF1 <= s[0] <= 0xF3 && IsTail(s[1]))
         || (s[0] == 0xF4 && 0x80 <= s[1] <= 0x8F)))
  }

  /** How many octets the lead octet announces; 0 when it leads nothing. */
  function LeadLength(b: byte): nat {
    if b <= 0x7F then 1
    else if 0xC2 <= b <= 0xDF then 2
    else if 0xE0 <= b <= 0xEF then 3
    else if 0xF0 <= b <= 0xF4 then 4
    else 0
  }

  predicate StartsWithChar(s: seq<byte>) {
    s != [] && var k := LeadLength(s[0]); 1 <= k <= |s| && IsChar(s[..k])
  }

  /** UTF8-octets: a sequence of UTF8-char. */
  predicate WellFormed(s: seq<byte>)
    decreases |s|
  {
    s == [] || (StartsWithChar(s) && WellFormed(s[LeadLength(s[0])..]))
  }

  /** The scalar value of one character. */
  function CharScalar(s: seq<byte>): (c: int)
    requires IsChar(s)
    ensures IsScalar(c)
  {
    if |s| == 1 then s[0]
    else if |s| == 2 then (s[0] as int - 0xC0) * 64 + (s[1] as int - 0x80)
    else if |s| == 3 then ((s[0] as int - 0xE0) * 64 + (s[1] as int - 0x80)) * 64 + (s[2] as int - 0x80)
    else (((s[0] as int - 0xF0) * 64 + (s[1] as int - 0x80)) * 64 + (s[2] as int - 0x80)) * 64 + (s[3] as int - 0x80)
  }

  /** The scalar values of a well-formed octet sequence. */
  function Scalars(s: seq<byte>): (cs: seq<int>)
    requires WellFormed(s)
    ensures forall c | c in cs :: IsScalar(c)
    decreases |s|
  {
    if s == [] then []
    else var k := LeadLength(s[0]); [CharScalar(s[..k])] + Scalars(s[k..])
  }

  // ----- The grammar is exactly the image of the encoder -----

  lemma Digit64(q: int, r: int)
    requires 0 <= r < 64
    ensures (q * 64 + r) / 64 == q && (q * 64 + r) % 64 == r
  {
  }

  lemma EncodeIsChar(c: int)
    requires IsScalar(c)
    ensures IsChar(Encode(c)) && LeadLength(Encode(c)[0]) == |Encode(c)|
    ensures CharScalar(Encode(c)) == c
  {
    var c1 := c / 64;
    var c2 := c1 / 64;
    var c3 := c2 / 64;
    assert c == c1 * 64 + c % 64 && c1 == c2 * 64 + c1 % 64 && c2 == c3 * 64 + c2 % 64;
  }

  lemma LongCharScalarEncodes(s: seq<byte>)
    requires IsChar(s) && |s| == 4
    ensures Encode(CharScalar(s)) == s
  {
    var h := (s[0] as int - 0xF0) * 64 + (s[1] as int - 0x80);
    var h2 := h * 64 + (s[2] as int - 0x80);
    Digit64(s[0] as int - 0xF0, s[1] as int - 0x80);
    Digit64(h, s[2] as int - 0x80);
    Digit64(h2, s[3] as int - 0x80);
  }

  lemma CharScalarEncodes(s: seq<byte>)
    requires IsChar(s)
    ensures Encode(CharScalar(s)) == s
  {
    if |s| == 2 {
      Digit64(s[0] as int - 0xC0, s[1] as int - 0x80);
    } else if |s| == 3 {
      var h := (s[0] as int - 0xE0) * 64 + (s[1] as int - 0x80);
      Digit64(s[0] as int - 0xE0, s[1] as int - 0x80);
      Digit64(h, s[2] as int - 0x80);
    } else if |s| == 4 {
      LongCharScalarEncodes(s);
    }
  }

  lemma {:induction false} EncodeAllWellFormed(cs: seq<int>)
    requires forall c | c in cs :: IsScalar(c)
    ensures WellFormed(EncodeAll(cs)) && Scalars(EncodeAll(cs)) == cs
  {
    if cs != [] {
      var head, rest := Encode(cs[0]), EncodeAll(cs[1..]);
      EncodeIsChar(cs[0]);
      EncodeAllWellFormed(cs[1..]);
      assert (head + rest)[..|head|] == head && (head + rest)[|head|..] == rest;
    }
  }

  lemma {:induction false} EncodeScalars(s: seq<byte>)
    requires WellFormed(s)
    ensures EncodeAll(Scalars(s)) == s
    decreases |s|
  {
    if s != [] {
      var k := LeadLength(s[0]);
      EncodeScalars(s[k..]);
      CharScalarEncodes(s[..k]);
      assert s[..k] + s[k..] == s;
      assert Scalars(s)[1..] == Scalars(s[k..]);
    }
  }

  /** The grammar of RFC 3629 accepts exactly the encodings of scalar-value sequences. */
  lemma WellFormedIffEncoded(s: seq<byte>)
    ensures WellFormed(s) <==>
            exists cs: seq<int> :: (forall c | c in cs :: IsScalar(c)) && EncodeAll(cs) == s
  {
    if WellFormed(s) {
      EncodeScalars(s);
    }
    if cs: seq<int> :| (forall c | c in cs :: IsScalar(c)) && EncodeAll(cs) == s {
      EncodeAllWellFormed(cs);
    }
  }

  lemma CharShape(s: seq<byte>)
    requires StartsWithChar(s)
    ensures !IsTail(s[0])
    ensures forall j | 1 <= j < LeadLength(s[0]) :: IsTail(s[j])
  {
    var c := s[..LeadLength(s[0])];
    assert forall j | 0 <= j < |c| :: c[j] == s[j];
  }

  lemma FirstChar(s: seq<byte>)
    requires WellFormed(s) && s != []
    ensures var k := LeadLength(s[0]);
            1 <= k <= |s| && IsChar(s[..k]) && WellFormed(s[k..])
    ensures !IsTail(s[0]) && forall j | 1 <= j < LeadLength(s[0]) :: IsTail(s[j])
  {
    CharShape(s);
  }

  lemma CharBefore(s: seq<byte>, k: nat)
    requires 1 <= k <= |s| && k == LeadLength(s[0]) && IsChar(s[..k]) && WellFormed(s[k..])
    ensures WellFormed(s)
  {
  }

  /** A cut of a well-formed text at an octet that is not a continuation octet leaves
      two well-formed halves. */
  lemma {:induction false} CutAtBoundary(s: seq<byte>, i: nat)
    requires WellFormed(s) && i <= |s| && (i < |s| ==> !IsTail(s[i]))
    ensures WellFormed(s[..i]) && WellFormed(s[i..])
    decreases |s|
  {
    if i == |s| {
      assert s[..i] == s;
    } else if i > 0 {
      FirstChar(s);
      hide WellFormed, IsChar, LeadLength, IsTail;
      var k := LeadLength(s[0]);
      var rest := s[k..];
      CutSlices(s, k, i);
      CutAtBoundary(rest, i - k);
      CharBefore(s[..i], k);
    }
  }

  lemma CutSlices(s: seq<byte>, k: nat, i: nat)
    requires 1 <= k <= i <= |s|
    ensures s[k..][i - k..] == s[i..]
    ensures s[..i][0] == s[0] && s[..i][..k] == s[..k]
    ensures s[..i][k..] == s[k..][..i - k]
  {
  }

  /** A well-formed text starts a new character within any window of four octets. */
  lemma {:induction false} BoundaryWithinFour(s: seq<byte>, i: nat)
    requires WellFormed(s) && i <= |s| && (i < |s| ==> !IsTail(s[i]))
    requires i < |s|
    ensures exists j :: i < j <= i + 4 && j <= |s| && (j < |s| ==> !IsTail(s[j]))
  {
    CutAtBoundary(s, i);
    var t := s[i..];
    var k := LeadLength(t[0]);
    assert WellFormed(t[k..]);
    var j := i + k;
    if j < |s| {
      assert t[k..][0] == s[j];
      assert t[k..][..LeadLength(s[j])][0] == s[j];
    }
    assert j < |s| ==> !IsTail(s[j]);
  }

  // ----- The lead-byte table validator -----

  /** Stepping over one character keeps the verdict on the rest. */
  lemma SkipChar(s: seq<byte>, i: nat, k: nat)
    requires i < |s| && 1 <= k && i + k <= |s| && IsChar(s[i..i + k])
    ensures WellFormed(s[i..]) <==> WellFormed(s[i + k..])
    ensures WellFormed(s[i..]) ==> Scalars(s[i..]) == [CharScalar(s[i..i + k])] + Scalars(s[i + k..])
  {
    var t := s[i..];
    assert t[..k] == s[i..i + k];
    assert t[k..] == s[i + k..];
  }

  /** The windows the table inspects, spelled out octet by octet. */
  lemma Windows(s: seq<byte>, i: nat)
    requires i < |s|
    ensures s[i..][0] == s[i] && s[i..][..1] == s[i..i + 1] == [s[i]]
    ensures i + 2 <= |s| ==> s[i..][..2] == s[i..i + 2] == [s[i], s[i + 1]]
    ensures i + 3 <= |s| ==> s[i..][..3] == s[i..i + 3] == [s[i], s[i + 1], s[i + 2]]
    ensures i + 4 <= |s| ==> s[i..][..4] == s[i..i + 4] == [s[i], s[i + 1], s[i + 2], s[i + 3]]
  {
  }

  /** The lead-byte table; the same loop guards HTTP header text and manager JSON text. */
  method IsStrictUtf8(value: seq<byte>) returns (ok: bool)
    ensures ok <==> WellFormed(value)
  {
    var index: nat := 0;
    assert value[0..] == value;
    while index < |value|
      invariant index <= |value|
      invariant WellFormed(value) <==> WellFormed(value[index..])
      decreases |value| - index
    {
      var first := value[index];
      var step: nat := 0;
      if first <= 0x7F {
        step := 1;
      } else if 0xC2 <= first <= 0xDF {
        if index + 1 < |value| && IsTail(value[index + 1]) {
          step := 2;
        }
      } else if first == 0xE0 {
        if index + 2 < |value| && 0xA0 <= value[index + 1] <= 0xBF && IsTail(value[index + 2]) {
          step := 3;
        }
      } else if 0xE1 <= first <= 0xEC || 0xEE <= first <= 0xEF {
        if index + 2 < |value| && IsTail(value[index + 1]) && IsTail(value[index + 2]) {
          step := 3;
        }
      } else if first == 0xED {
        if index + 2 < |value| && 0x80 <= value[index + 1] <= 0x9F && IsTail(value[index + 2]) {
          step := 3;
        }
      } else if first == 0xF0 {
        if index + 3 < |value| && 0x90 <= value[index + 1] <= 0xBF &&
           IsTail(value[index + 2]) && IsTail(value[index + 3]) {
          step := 4;
        }
      } else if 0xF1 <= first <= 0xF3 {
        if index + 3 < |value| && IsTail(value[index + 1]) &&
           IsTail(value[index + 2]) && IsTail(value[index + 3]) {
          step := 4;
        }
      } else if first == 0xF4 {
        if index + 3 < |value| && 0x80 <= value[index + 1] <= 0x8F &&
           IsTail(value[index + 2]) && IsTail(value[index + 3]) {
          step := 4;
        }
      }
      Windows(value, index);
      if step == 0 {
        assert !StartsWithChar(value[index..]);
        return false;
      }
      SkipChar(value, index, step);
      index := index + step;
    }
    return true;
  }

  // ----- The scalar decoder -----

  /** The value decoded from the first `index` octets of a character. */
  ghost function Partial(piece: seq<byte>, index: nat): int
    requires 1 <= index <= |piece|
  {
    if index == 1 then piece[0] as int - (if |piece| == 2 then 0xC0 else if |piece| == 3 then 0xE0 else 0xF0)
    else Partial(piece, index - 1) * 64 + (piece[index - 1] as int - 0x80)
  }

  /** The minimum and surrogate checks on the decoded value are the second-octet rows of the grammar. */
  lemma ValueChecksAreGrammar(s: seq<byte>)
    requires 2 <= |s| <= 4 && LeadLength(s[0]) == |s|
    requires forall k | 1 <= k < |s| :: IsTail(s[k])
    ensures var c := Partial(s, |s|);
            var minimum := if |s| == 2 then 0x80 else if |s| == 3 then 0x800 else 0x10000;
            && (IsChar(s) <==> minimum <= c <= 0x10FFFF && !(0xD800 <= c <= 0xDFFF))
            && (IsChar(s) ==> CharScalar(s) == c)
  {
    assert Partial(s, 2) == Partial(s, 1) * 64 + (s[1] as int - 0x80);
    if |s| >= 3 {
      assert Partial(s, 3) == Partial(s, 2) * 64 + (s[2] as int - 0x80);
    }
  }

  lemma FirstPart(piece: seq<byte>)
    requires 2 <= |piece| <= 4 && LeadLength(piece[0]) == |piece|
    ensures Partial(piece, 1) ==
            if |piece| == 2 then piece[0] as int % 32
            else if |piece| == 3 then piece[0] as int % 16
            else piece[0] as int % 8
  {
  }

  lemma NextPart(piece: seq<byte>, index: nat)
    requires 1 <= index < |piece| && IsTail(piece[index])
    ensures Partial(piece, index + 1) == Partial(piece, index) * 64 + piece[index] as int % 64
  {
  }

  lemma AsciiIsChar(b: byte)
    requires b <= 0x7F
    ensures IsChar([b]) && CharScalar([b]) == b && LeadLength(b) == 1
  {
  }

  /** decodeUtf8Scalar: reads one scalar value at `offset` and advances past it. */
  method DecodeScalar(value: seq<byte>, offset: nat) returns (ok: bool, next: nat, scalar: int)
    ensures ok <==> offset < |value| && StartsWithChar(value[offset..])
    ensures ok ==> offset < next <= |value| && IsChar(value[offset..next])
                   && scalar == CharScalar(value[offset..next])
  {
    hide Partial, IsChar, CharScalar, WellFormed, Scalars;
    next, scalar := offset, 0;
    if offset >= |value| {
      return false, next, scalar;
    }
    var first := value[offset];
    ghost var rest := value[offset..];
    if first <= 0x7F {
      assert rest[..1] == value[offset..offset + 1] == [first];
      AsciiIsChar(first);
      return true, offset + 1, first;
    }
    var length: nat, minimum := 0, 0;
    if 0xC2 <= first <= 0xDF {
      length, scalar, minimum := 2, first as int % 32, 0x80;
    } else if 0xE0 <= first <= 0xEF {
      length, scalar, minimum := 3, first as int % 16, 0x800;
    } else if 0xF0 <= first <= 0xF4 {
      length, scalar, minimum := 4, first as int % 8, 0x10000;
    } else {
      return false, next, scalar;
    }
    assert LeadLength(rest[0]) == length;
    if length > |value| - offset {
      return false, next, scalar;
    }
    ghost var piece := value[offset..offset + length];
    assert rest[..length] == piece;
    FirstPart(piece);
    var index := 1;
    while index < length
      invariant 1 <= index <= length
      invariant forall k | 1 <= k < index :: IsTail(piece[k])
      invariant scalar == Partial(piece, index)
    {
      var continuation := value[offset + index];
      assert continuation == piece[index];
      if !IsTail(continuation) {
        if StartsWithChar(rest) {
          CharShape(rest);
        }
        return false, next, scalar;
      }
      scalar := scalar * 64 + continuation as int % 64;
      NextPart(piece, index);
      index := index + 1;
    }
    ValueChecksAreGrammar(piece);
    if scalar < minimum || scalar > 0x10FFFF || 0xD800 <= scalar <= 0xDFFF {
      return false, next, scalar;
    }
    return true, offset + length, scalar;
  }

  /** The scalars a text field may hold: no C0/C1 controls, except layout whitespace on request. */
  predicate IsTextScalar(c: int, allowLayoutWhitespace: bool) {
    && c != 0 && !(0x7F <= c <= 0x9F)
    && (c < 0x20 ==> allowLayoutWhitespace && (c == 0x09 || c == 0x0A || c == 0x0D))
  }

  predicate AllText(cs: seq<int>, allowLayoutWhitespace: bool) {
    forall c | c in cs :: IsTextScalar(c, allowLayoutWhitespace)
  }

  /** A well-formed text of permitted scalars. */
  predicate IsText(s: seq<byte>, allowLayoutWhitespace: bool) {
    WellFormed(s) && AllText(Scalars(s), allowLayoutWhitespace)
  }

  /** Consuming one permitted character keeps the verdict on the rest. */
  lemma TextStep(s: seq<byte>, i: nat, k: nat, allow: bool)
    requires i < |s| && 1 <= k && i + k <= |s| && IsChar(s[i..i + k])
    ensures IsText(s[i..], allow) <==> IsTextScalar(CharScalar(s[i..i + k]), allow) && IsText(s[i + k..], allow)
  {
    SkipChar(s, i, k);
    if WellFormed(s[i..]) {
      var c, rest := CharScalar(s[i..i + k]), Scalars(s[i + k..]);
      assert c in [c] + rest;
      assert forall d | d in rest :: d in [c] + rest;
    }
  }

  lemma TextEdges(s: seq<byte>, allow: bool)
    ensures IsText([], allow)
    ensures s != [] && !StartsWithChar(s) ==> !IsText(s, allow)
  {
  }

  /** isValidText accepts exactly the well-formed texts made of permitted scalars, so on
      control-free text it agrees with the lead-byte table. */
  method IsValidText(value: seq<byte>, allowLayoutWhitespace: bool) returns (ok: bool)
    ensures ok <==> IsText(value, allowLayoutWhitespace)
  {
    hide IsText, StartsWithChar, IsChar, CharScalar;
    var offset: nat := 0;
    assert value[0..] == value;
    while offset < |value|
      invariant offset <= |value|
      invariant IsText(value, allowLayoutWhitespace) <==> IsText(value[offset..], allowLayoutWhitespace)
      decreases |value| - offset
    {
      TextEdges(value[offset..], allowLayoutWhitespace);
      var good, next, scalar := DecodeScalar(value, offset);
      if !good {
        return false;
      }
      TextStep(value, offset, next - offset, allowLayoutWhitespace);
      if scalar == 0 || scalar == 0x7F || 0x80 <= scalar <= 0x9F {
        return false;
      }
      if scalar < 0x20 && !(allowLayoutWhitespace && (scalar == 0x09 || scalar == 0x0A || scalar == 0x0D)) {
        return false;
      }
      offset := next;
    }
    assert value[offset..] == [];
    TextEdges([], allowLayoutWhitespace);
    return true;
  }
}
