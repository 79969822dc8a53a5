/** Whitespace and `String.prototype.trim` as the contact-form validator uses
    them. JavaScript's `trim()` and the regular-expression class `\s` both
    stand for the same ECMAScript code points: WhiteSpace and LineTerminator. */
module Text {

  /** The ECMAScript WhiteSpace and LineTerminator code points. */
  predicate IsWhitespace(c: char) {
    var n := c as int;
    n == 0x09 || n == 0x0A || n == 0x0B || n == 0x0C || n == 0x0D ||
    n == 0x20 || n == 0xA0 || n == 0x1680 || (0x2000 <= n <= 0x200A) ||
    n == 0x2028 || n == 0x2029 || n == 0x202F || n == 0x205F ||
    n == 0x3000 || n == 0xFEFF
  }

  /** Every character of `s` is whitespace (the empty string included). */
  predicate Blank(s: string) {
    forall k | 0 <= k < |s| :: IsWhitespace(s[k])
  }

  /** No character of `s` is whitespace. */
  predicate NoWhitespace(s: string) {
    forall k | 0 <= k < |s| :: !IsWhitespace(s[k])
  }

  /** The first index at or after `lo` that does not hold whitespace, or
      `|s|`: everything skipped is whitespace. */
  function FirstNonBlank(s: string, lo: nat): (k: nat)
    requires lo <= |s|
    ensures lo <= k <= |s|
    ensures forall i | lo <= i < k :: IsWhitespace(s[i])
    ensures k == |s| || !IsWhitespace(s[k])
    decreases |s| - lo
  {
    if lo < |s| && IsWhitespace(s[lo]) then FirstNonBlank(s, lo + 1) else lo
  }

  /** The end of `s[lo..hi]` once its trailing whitespace is dropped:
      everything skipped is whitespace. */
  function LastNonBlank(s: string, lo: nat, hi: nat): (k: nat)
    requires lo <= hi <= |s|
    ensures lo <= k <= hi
    ensures forall i | k <= i < hi :: IsWhitespace(s[i])
    ensures k == lo || !IsWhitespace(s[k - 1])
    decreases hi
  {
    if lo < hi && IsWhitespace(s[hi - 1]) then LastNonBlank(s, lo, hi - 1) else hi
  }

  /** `r` occurs in `s` starting at index `i`, and everything of `s` before
      and after that occurrence is whitespace. */
  predicate PaddedAt(r: string, s: string, i: int) {
    0 <= i <= |s| - |r| && s[i..i + |r|] == r &&
    (forall k | 0 <= k < i :: IsWhitespace(s[k])) &&
    (forall k | i + |r| <= k < |s| :: IsWhitespace(s[k]))
  }

  /** `s.trim()`: a contiguous slice of `s` with whitespace on neither end,
      everything outside it whitespace, and empty exactly when `s` is blank.
      In JavaScript, `!s.trim()` holds exactly when this is the empty string. */
  function Trim(s: string): (r: string)
    ensures exists i :: PaddedAt(r, s, i)
    ensures r != [] ==> !IsWhitespace(r[0]) && !IsWhitespace(r[|r| - 1])
    ensures r == [] <==> Blank(s)
  {
    var a := FirstNonBlank(s, 0);
    var b := LastNonBlank(s, a, |s|);
    assert PaddedAt(s[a..b], s, a);
    s[a..b]
  }
}
