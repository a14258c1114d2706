// Cutting the encoded record into pages at character boundaries.

module SchedulePaging {
  import opened Utf8

  predicate IsBoundary(s: seq<byte>, i: nat) {
    i <= |s| && (i < |s| ==> !IsTail(s[i]))
  }

  function Min(a: nat, b: nat): nat {
    if a <= b then a else b
  }

  /** The page that starts a text: up to the last character boundary within the maximum. */
  predicate IsPage(value: seq<byte>, maximum: nat, part: seq<byte>) {
    && part <= value && |part| <= maximum
    && (part == [] || IsBoundary(value, |part|))
    && (forall j | |part| < j <= Min(|value|, maximum) :: !IsBoundary(value, j))
  }

  method Page(value: seq<byte>, maximum: nat) returns (part: seq<byte>)
    ensures IsPage(value, maximum, part)
  {
    var end: nat := Min(|value|, maximum);
    while end < |value| && end > 0 && IsTail(value[end])
      invariant end <= Min(|value|, maximum)
      invariant forall j | end < j <= Min(|value|, maximum) :: !IsBoundary(value, j)
      decreases end
    {
      end := end - 1;
    }
    return value[..end];
  }

  lemma TextStartsAtBoundary(s: seq<byte>)
    requires WellFormed(s)
    ensures IsBoundary(s, 0)
  {
    if s != [] {
      assert s[..LeadLength(s[0])][0] == s[0];
    }
  }

  /** The page is determined, is text, leaves text, and is empty only if a character does not fit;
      no character is longer than four bytes. */
  lemma PageOfText(value: seq<byte>, maximum: nat, part: seq<byte>)
    requires WellFormed(value) && IsPage(value, maximum, part)
    ensures WellFormed(part) && WellFormed(value[|part|..]) && IsBoundary(value, |part|)
    ensures value != [] && maximum >= 4 ==> part != []
    ensures |value| <= maximum ==> part == value
    ensures |value| > maximum ==> |part| + 4 > maximum
  {
    hide WellFormed, IsTail;
    TextStartsAtBoundary(value);
    CutAtBoundary(value, |part|);
    assert value[..|part|] == part;
    if |value| <= maximum {
      assert IsBoundary(value, |value|);
    } else {
      BoundaryWithinFour(value, |part|);
      var j :| |part| < j <= |part| + 4 && j <= |value| && (j < |value| ==> !IsTail(value[j]));
      assert IsBoundary(value, j);
    }
  }

  lemma OnlyOnePage(value: seq<byte>, maximum: nat, a: seq<byte>, b: seq<byte>)
    requires IsPage(value, maximum, a) && IsPage(value, maximum, b)
    ensures a == b
  {
    assert |a| == |b|;
  }
}
