/** The e-mail check `isValidEmail` (script.js:101-104). Its regular expression
    `^[^\s@]+@[^\s@]+\.[^\s@]+$` is written out as a predicate on positions:
    three non-empty runs of characters that are neither whitespace nor `@`,
    separated by an `@` and then a `.`, covering the whole string. */
module Email {
  import opened Text

  /** A non-empty run of the regex class `[^\s@]`. */
  predicate PlainRun(s: string) {
    |s| > 0 && NoWhitespace(s) && '@' !in s
  }

  /** The regex matches `e` with its `@` at index `at` and the `.` it needs
      at index `dot`. */
  predicate MatchesAt(e: string, at: int, dot: int)
    requires 0 <= at < dot < |e|
  {
    e[at] == '@' && e[dot] == '.' &&
    PlainRun(e[..at]) && PlainRun(e[at + 1..dot]) && PlainRun(e[dot + 1..])
  }

  /** `isValidEmail(e)`: the regex `^[^\s@]+@[^\s@]+\.[^\s@]+$` tests
      true on `e` (no flags, so `^` and `$` anchor the whole string). It does
      exactly when `e` obeys the four address rules. */
  function IsValidEmail(e: string): (valid: bool)
    ensures valid <==> AddressRules(e)
  {
    PatternIffRules(e);
    exists at, dot | 0 <= at < dot < |e| :: MatchesAt(e, at, dot)
  }

  /** The number of `c` in `s`. */
  function Occurrences(s: string, c: char): nat {
    multiset(s)[c]
  }

  /** `d` has a `.` that is neither its first nor its last character. */
  predicate HasInnerDot(d: string) {
    exists k | 0 < k < |d| - 1 :: d[k] == '.'
  }

  /** The same language described by rules instead of a pattern: no
      whitespace, exactly one `@`, something before it, and after it a `.`
      that is neither the first nor the last character of the domain. */
  predicate AddressRules(e: string) {
    NoWhitespace(e) && Occurrences(e, '@') == 1 &&
    exists at | 0 <= at < |e| :: e[at] == '@' && at > 0 && HasInnerDot(e[at + 1..])
  }

  /** `c` occurs in `s` exactly when its count is positive. */
  lemma OccursIff(s: string, c: char)
    ensures Occurrences(s, c) == 0 <==> c !in s
  {
  }

  /** The count of `c` splits around position `k` of `s`. */
  lemma OccurrencesSplit(s: string, k: int, c: char)
    requires 0 <= k < |s|
    ensures Occurrences(s, c) ==
      Occurrences(s[..k], c) + (if s[k] == c then 1 else 0) + Occurrences(s[k + 1..], c)
  {
    assert s == s[..k] + [s[k]] + s[k + 1..];
  }

  /** The pattern and the rules accept exactly the same strings. */
  lemma PatternIffRules(e: string)
    ensures (exists at, dot | 0 <= at < dot < |e| :: MatchesAt(e, at, dot)) <==> AddressRules(e)
  {
    if exists at, dot | 0 <= at < dot < |e| :: MatchesAt(e, at, dot) {
      var at, dot :| 0 <= at < dot < |e| && MatchesAt(e, at, dot);
      MatchImpliesRules(e, at, dot);
    }
    if AddressRules(e) {
      var at :| 0 <= at < |e| && e[at] == '@' && at > 0 && HasInnerDot(e[at + 1..]);
      var k :| 0 < k < |e[at + 1..]| - 1 && e[at + 1..][k] == '.';
      RulesImplyMatch(e, at, at + 1 + k);
    }
  }

  /** A match puts the only `@` at `at` and gives the domain an inner dot. */
  lemma MatchImpliesRules(e: string, at: int, dot: int)
    requires 0 <= at < dot < |e| && MatchesAt(e, at, dot)
    ensures AddressRules(e)
  {
    var local, host, tld := e[..at], e[at + 1..dot], e[dot + 1..];
    assert e == local + ['@'] + host + ['.'] + tld;
    forall k | 0 <= k < |e|
      ensures !IsWhitespace(e[k])
    {
      if k < at {
        assert e[k] == local[k];
      } else if at < k < dot {
        assert e[k] == host[k - at - 1];
      } else if dot < k {
        assert e[k] == tld[k - dot - 1];
      }
    }
    OccursIff(local, '@');
    OccursIff(host, '@');
    OccursIff(tld, '@');
    assert e[at + 1..] == host + ['.'] + tld;
    assert e[at + 1..][dot - at - 1] == '.';
    assert HasInnerDot(e[at + 1..]);
  }

  /** With a single `@` and no whitespace, the three runs around `at` and
      `dot` are plain. */
  lemma RulesImplyMatch(e: string, at: int, dot: int)
    requires 0 < at && at + 1 < dot < |e| - 1
    requires NoWhitespace(e) && Occurrences(e, '@') == 1
    requires e[at] == '@' && e[dot] == '.'
    ensures MatchesAt(e, at, dot)
  {
    OccurrencesSplit(e, at, '@');
    OccursIff(e[..at], '@');
    OccursIff(e[at + 1..], '@');
    assert e[at + 1..] == e[at + 1..dot] + e[dot..];
    assert e[dot + 1..] == e[at + 1..][dot - at..];
    var local, host, tld := e[..at], e[at + 1..dot], e[dot + 1..];
    assert NoWhitespace(local) && NoWhitespace(host) && NoWhitespace(tld) by {
      forall k | 0 <= k < |local| ensures !IsWhitespace(local[k]) { assert local[k] == e[k]; }
      forall k | 0 <= k < |host| ensures !IsWhitespace(host[k]) { assert host[k] == e[at + 1 + k]; }
      forall k | 0 <= k < |tld| ensures !IsWhitespace(tld[k]) { assert tld[k] == e[dot + 1 + k]; }
    }
  }

  /** The `!data.email.trim()` guard at script.js:86 is subsumed by the regex:
      an address that trims to nothing never matches. */
  lemma BlankEmailInvalid(e: string)
    ensures Trim(e) == [] ==> !IsValidEmail(e)
  {
  }

  /** The regex sees the untrimmed string: a valid address is its own trim, so
      one with leading or trailing whitespace is rejected. */
  lemma ValidEmailIsTrimmed(e: string)
    ensures IsValidEmail(e) ==> Trim(e) == e
  {
  }

  /** Addresses the pattern accepts; the domain part may itself hold dots. */
  lemma ValidExample()
    ensures IsValidEmail("olena@example.com")
    ensures IsValidEmail("a@b..c")
  {
    assert MatchesAt("olena@example.com", 5, 13);
    assert MatchesAt("a@b..c", 1, 4);
  }

  /** Addresses the pattern rejects: no `@`, two of them, nothing between
      `@` and `.`, a leading space. */
  lemma InvalidWithoutAt()
    ensures !IsValidEmail("x")
  {
  }

  /** An address with a second `@` never matches. */
  lemma TwoAtsInvalid(e: string, i: int, j: int)
    requires 0 <= i < j < |e| && e[i] == '@' && e[j] == '@'
    ensures !IsValidEmail(e)
  {
  }

  lemma InvalidWithTwoAts()
    ensures !IsValidEmail("a@b@c.d")
  {
    TwoAtsInvalid("a@b@c.d", 1, 3);
  }

  lemma InvalidWithEmptyHost()
    ensures !IsValidEmail("a@.com")
  {
  }

  lemma InvalidWithLeadingSpace()
    ensures !IsValidEmail(" a@b.c")
  {
    ValidEmailIsTrimmed(" a@b.c");
  }
}
