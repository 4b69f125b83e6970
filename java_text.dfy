/** The parts of java.lang.String and java.lang.Character that the User entity relies on:
    `String.isBlank`, `Character.isWhitespace`, `String.hashCode` and the 32-bit
    wrap-around of Java `int` arithmetic. */
module JavaText {

  import opened Wrappers

  /** `Character.isWhitespace`: the Unicode space, line and paragraph separators except the
      non-breaking spaces U+00A0, U+2007 and U+202F, plus U+0009..U+000D and U+001C..U+001F. */
  predicate IsWhitespace(c: char) {
    || ('\t' <= c <= '\r')
    || ('\U{1C}' <= c <= ' ')
    || c == '\U{1680}'
    || ('\U{2000}' <= c <= '\U{2006}')
    || ('\U{2008}' <= c <= '\U{200A}')
    || c == '\U{2028}'
    || c == '\U{2029}'
    || c == '\U{205F}'
    || c == '\U{3000}'
  }

  /** `String.isBlank`: true of the empty string and of strings made only of white space. */
  function IsBlank(s: string): (blank: bool)
    ensures blank <==> forall i :: 0 <= i < |s| ==> IsWhitespace(s[i])
  {
    |s| == 0 || (IsWhitespace(s[0]) && IsBlank(s[1..]))
  }

  /** A string with one non-white-space character is not blank. */
  lemma NotBlankAt(s: string, i: nat)
    requires i < |s| && !IsWhitespace(s[i])
    ensures !IsBlank(s)
  {
  }

  /** The guard `s == null || s.isBlank()` that every string check of the entity uses. */
  predicate NullOrBlank(s: Option<string>) {
    s.None? || IsBlank(s.value)
  }

  const TwoToThe32: int := 0x1_0000_0000

  /** Java's narrowing of an integer to a 32-bit two's-complement `int`. */
  function ToInt32(x: int): (r: int)
    ensures -0x8000_0000 <= r < 0x8000_0000
    ensures (x - r) % TwoToThe32 == 0
  {
    var m := x % TwoToThe32;
    if m < 0x8000_0000 then m else m - TwoToThe32
  }

  /** The UTF-16 code units of one character, as Java strings store it. */
  function Utf16Units(c: char): (units: seq<int>)
    ensures 1 <= |units| <= 2
    ensures forall k :: 0 <= k < |units| ==> 0 <= units[k] < 0x1_0000
    ensures |units| == 1 <==> (c as int) < 0x1_0000
  {
    var v := c as int;
    if v < 0x1_0000 then [v]
    else [0xD800 + (v - 0x1_0000) / 0x400, 0xDC00 + (v - 0x1_0000) % 0x400]
  }

  function Utf16(s: string): seq<int> {
    if |s| == 0 then [] else Utf16(s[..|s| - 1]) + Utf16Units(s[|s| - 1])
  }

  /** `h = 31 * h + unit` over the code units, taken modulo 2^32. */
  function PolynomialHash(units: seq<int>): (h: int)
    ensures 0 <= h < TwoToThe32
  {
    if |units| == 0 then 0
    else (31 * PolynomialHash(units[..|units| - 1]) + units[|units| - 1]) % TwoToThe32
  }

  /** `String.hashCode`. */
  function StringHashCode(s: string): int {
    ToInt32(PolynomialHash(Utf16(s)))
  }
}
