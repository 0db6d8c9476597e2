/**
 * JavaScript's relational operators on strings: both strings are read as
 * sequences of UTF-16 code units and compared lexicographically by unit
 * value. A character above U+FFFF is two units, a high surrogate
 * (0xD800-0xDBFF) then a low one (0xDC00-0xDFFF), so it sorts below every
 * character from U+E000 to U+FFFF, unlike in code-point order.
 */
module JsStrings {
  import Ordering

  const SurrogateBase: int := 0x10000
  const HighSurrogateStart: int := 0xD800
  const LowSurrogateStart: int := 0xDC00

  /** The UTF-16 encoding of one character. */
  function CodeUnits(c: char): (r: seq<int>)
    ensures 1 <= |r| <= 2
    ensures forall i :: 0 <= i < |r| ==> 0 <= r[i] < SurrogateBase
    ensures |r| == 1 <==> (c as int) < SurrogateBase
    ensures |r| == 2 ==> HighSurrogateStart <= r[0] < LowSurrogateStart
                         && LowSurrogateStart <= r[1] < LowSurrogateStart + 0x400
  {
    var n := c as int;
    if n < SurrogateBase then [n]
    else [HighSurrogateStart + (n - SurrogateBase) / 0x400, LowSurrogateStart + (n - SurrogateBase) % 0x400]
  }

  /** A pair of code units decodes back to the character they encode. */
  lemma CodeUnitsDecode(c: char)
    requires (c as int) >= SurrogateBase
    ensures var r := CodeUnits(c);
            SurrogateBase + (r[0] - HighSurrogateStart) * 0x400 + (r[1] - LowSurrogateStart) == c as int
  {
  }

  /** The UTF-16 code units of a string, character by character. */
  function Utf16(s: string): seq<int> {
    if |s| == 0 then [] else CodeUnits(s[0]) + Utf16(s[1..])
  }

  /** Lexicographic strict order on code-unit sequences: a proper prefix sorts first. */
  predicate UnitsLt(a: seq<int>, b: seq<int>) {
    |b| > 0 && (|a| == 0 || a[0] < b[0] || (a[0] == b[0] && UnitsLt(a[1..], b[1..])))
  }

  /** JavaScript's `a < b` on two strings. */
  predicate Less(a: string, b: string) {
    UnitsLt(Utf16(a), Utf16(b))
  }

  /** No sequence sorts strictly before itself or both ways round. */
  lemma {:induction false} UnitsLtAsymmetric(a: seq<int>, b: seq<int>)
    ensures !(UnitsLt(a, b) && UnitsLt(b, a))
  {
    if |a| > 0 && |b| > 0 && a[0] == b[0] {
      UnitsLtAsymmetric(a[1..], b[1..]);
    }
  }

  /** `a < b` and `b < a` never both hold. */
  lemma LessAsymmetric(a: string, b: string)
    ensures !(Less(a, b) && Less(b, a))
  {
    UnitsLtAsymmetric(Utf16(a), Utf16(b));
  }

  predicate BelowSurrogates(s: string) {
    forall i :: 0 <= i < |s| ==> (s[i] as int) < SurrogateBase
  }

  /**
   * On strings of characters up to U+FFFF, each character is one code unit,
   * so JavaScript's order is the character order.
   */
  lemma {:induction false} LessAgreesBelowSurrogates(a: string, b: string)
    requires BelowSurrogates(a) && BelowSurrogates(b)
    ensures Less(a, b) <==> Ordering.StrLt(a, b)
  {
    if |a| > 0 && |b| > 0 {
      assert Utf16(a) == [a[0] as int] + Utf16(a[1..]);
      assert Utf16(b) == [b[0] as int] + Utf16(b[1..]);
      if a[0] == b[0] {
        LessAgreesBelowSurrogates(a[1..], b[1..]);
        assert a == [a[0]] + a[1..] && b == [b[0]] + b[1..];
      }
    } else if |a| == 0 && |b| > 0 {
      assert Utf16(b) == CodeUnits(b[0]) + Utf16(b[1..]);
    }
  }

  /**
   * U+1F600 sorts before U+FF21 in JavaScript (its first unit is 0xD83D)
   * although its code point is larger.
   */
  lemma SupplementaryBeforeFullwidth()
    ensures Less("\U{1F600}", "\U{FF21}")
    ensures Ordering.StrLt("\U{FF21}", "\U{1F600}")
  {
    assert Utf16("\U{1F600}") == [0xD83D, 0xDE00];
    assert Utf16("\U{FF21}") == [0xFF21];
  }
}
