/** The handful of Java string operations the parser relies on:
    commons-lang3 `StringUtils.isEmpty` / `isBlank` / `isNotBlank`,
    `String.equalsIgnoreCase`, and the way `+` renders a null reference. */
module JavaStrings {
  import opened Wrappers

  /** A Java `String` reference, which may be null. */
  type NStr = Option<string>

  /** `Character.isWhitespace`: the Unicode space, line and paragraph
      separators other than the three non-breaking spaces, plus the
      ASCII controls U+0009..U+000D and U+001C..U+001F. */
  predicate IsWhitespace(c: char): (w: bool)
    ensures c == ' ' || c == '\t' || c == '\n' ==> w
    ensures c as int == 0xA0 || c as int == 0x2007 || c as int == 0x202F ==> !w
  {
    var u := c as int;
    || 0x09 <= u <= 0x0D
    || 0x1C <= u <= 0x20
    || u == 0x1680
    || 0x2000 <= u <= 0x2006
    || 0x2008 <= u <= 0x200A
    || u == 0x2028 || u == 0x2029
    || u == 0x205F || u == 0x3000
  }

  /** `StringUtils.isEmpty`: null or of length zero. */
  predicate IsEmpty(s: NStr) {
    s.None? || |s.value| == 0
  }

  /** `StringUtils.isBlank`: null, empty, or whitespace only. */
  predicate IsBlank(s: NStr): (b: bool)
    ensures IsEmpty(s) ==> b
    ensures s.Some? && |s.value| > 0 && !IsWhitespace(s.value[0]) ==> !b
  {
    s.None? || forall i :: 0 <= i < |s.value| ==> IsWhitespace(s.value[i])
  }

  predicate IsNotBlank(s: NStr) {
    !IsBlank(s)
  }

  /** Case folding used for `equalsIgnoreCase`: ASCII letters only. */
  function Fold(c: char): (d: char)
    ensures 'A' <= c <= 'Z' ==> 'a' <= d <= 'z'
    ensures !('A' <= c <= 'Z') ==> d == c
  {
    if 'A' <= c <= 'Z' then (c as int + 32) as char else c
  }

  /** `a.equalsIgnoreCase(b)`: false for a null argument, otherwise equal
      lengths and equal characters after case folding. */
  predicate EqualsIgnoreCase(a: string, b: NStr): (e: bool)
    ensures b.None? ==> !e
    ensures b == Some(a) ==> e
    ensures e ==> |b.value| == |a|
  {
    b.Some? && |a| == |b.value| &&
    forall i :: 0 <= i < |a| ==> Fold(a[i]) == Fold(b.value[i])
  }

  /** The text Java's string concatenation produces for a reference. */
  function Text(s: NStr): (t: string)
    ensures s.Some? ==> t == s.value
    ensures s.None? ==> t == "null"
  {
    match s
    case None => "null"
    case Some(v) => v
  }
}
