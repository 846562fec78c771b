/**
 * The Python `str` operations the plugin relies on, stated over `seq<char>`:
 * `startswith`, `endswith`, `in`, `replace(pattern, '')` and `strip(chars)`.
 */
module Text {

  /** `s.startswith(prefix)` */
  predicate StartsWith(s: string, prefix: string) {
    |prefix| <= |s| && s[..|prefix|] == prefix
  }

  /** `s.endswith(suffix)` */
  predicate EndsWith(s: string, suffix: string) {
    |suffix| <= |s| && s[|s| - |suffix|..] == suffix
  }

  /** `sub in s`: `sub` occurs at some position of `s`. */
  predicate Contains(s: string, sub: string)
    decreases |s|
  {
    StartsWith(s, sub) || (|s| > 0 && Contains(s[1..], sub))
  }

  /**
   * `s.replace(pattern, '')`: scanning left to right, every non-overlapping
   * occurrence of `pattern` is deleted.
   */
  function RemoveAll(s: string, pattern: string): (r: string)
    requires |pattern| > 0
    ensures |r| <= |s|
    ensures !Contains(s, pattern) ==> r == s
    decreases |s|
  {
    if |s| == 0 then s
    else if StartsWith(s, pattern) then RemoveAll(s[|pattern|..], pattern)
    else [s[0]] + RemoveAll(s[1..], pattern)
  }

  /** `s.lstrip(chars)` */
  function StripLeft(s: string, chars: set<char>): (r: string)
    ensures |r| <= |s| && r == s[|s| - |r|..]
    ensures |r| == 0 || r[0] !in chars
    ensures |s| > 0 && s[0] !in chars ==> r == s
    decreases |s|
  {
    if |s| > 0 && s[0] in chars then StripLeft(s[1..], chars) else s
  }

  /** `s.rstrip(chars)` */
  function StripRight(s: string, chars: set<char>): (r: string)
    ensures |r| <= |s| && r == s[..|r|]
    ensures |r| == 0 || r[|r| - 1] !in chars
    ensures |s| > 0 && s[|s| - 1] !in chars ==> r == s
    decreases |s|
  {
    if |s| > 0 && s[|s| - 1] in chars then StripRight(s[..|s| - 1], chars) else s
  }

  /** `s.strip(chars)`: the longest middle slice that neither starts nor ends with one of `chars`. */
  function Strip(s: string, chars: set<char>): (r: string)
    ensures |r| <= |s|
    ensures |r| == 0 || (r[0] !in chars && r[|r| - 1] !in chars)
    ensures |s| > 0 && s[0] !in chars && s[|s| - 1] !in chars ==> r == s
  {
    StripRight(StripLeft(s, chars), chars)
  }

  /** A string without the first character of `pattern` cannot contain `pattern`. */
  lemma {:induction false} NotContainsWithoutFirstChar(s: string, pattern: string)
    requires |pattern| > 0
    requires forall i | 0 <= i < |s| :: s[i] != pattern[0]
    ensures !Contains(s, pattern)
    decreases |s|
  {
    if |s| > 0 {
      assert !StartsWith(s, pattern) by {
        if |pattern| <= |s| {
          assert s[..|pattern|][0] == s[0];
        }
      }
      NotContainsWithoutFirstChar(s[1..], pattern);
    }
  }

  /** Deleting a single character distributes over concatenation. */
  lemma {:induction false} RemoveCharConcat(a: string, b: string, c: char)
    ensures RemoveAll(a + b, [c]) == RemoveAll(a, [c]) + RemoveAll(b, [c])
    decreases |a|
  {
    if |a| > 0 {
      assert (a + b)[1..] == a[1..] + b;
      RemoveCharConcat(a[1..], b, c);
    } else {
      assert a + b == b;
    }
  }

  /** Deleting a character from itself leaves nothing. */
  lemma RemoveOwnChar(c: char)
    ensures RemoveAll([c], [c]) == []
  {
    assert StartsWith([c], [c]);
  }

  /** Deleting a pattern the string contains removes at least one copy of it. */
  lemma {:induction false} RemoveAllShrinks(s: string, pattern: string)
    requires |pattern| > 0 && Contains(s, pattern)
    ensures |RemoveAll(s, pattern)| + |pattern| <= |s|
    decreases |s|
  {
    if !StartsWith(s, pattern) {
      RemoveAllShrinks(s[1..], pattern);
    }
  }

  /** When `pattern` occurs only at the very end, deleting it leaves what precedes it. */
  lemma {:induction false} RemoveOnlyTrailing(p: string, pattern: string)
    requires |pattern| > 0
    requires !Contains((p + pattern)[..|p| + |pattern| - 1], pattern)
    ensures RemoveAll(p + pattern, pattern) == p
    decreases |p|
  {
    var s := p + pattern;
    if |p| == 0 {
      assert s == pattern && s[|pattern|..] == [];
    } else {
      var t := s[..|s| - 1];
      assert t[..|pattern|] == s[..|pattern|];
      assert !StartsWith(s, pattern);
      assert s[1..] == p[1..] + pattern;
      assert (p[1..] + pattern)[..|p| - 1 + |pattern| - 1] == t[1..];
      RemoveOnlyTrailing(p[1..], pattern);
      assert [p[0]] + p[1..] == p;
    }
  }

  /** A string shorter than `sub` does not contain it. */
  lemma {:induction false} ShorterNotContains(s: string, sub: string)
    requires |s| < |sub|
    ensures !Contains(s, sub)
    decreases |s|
  {
    if |s| > 0 {
      ShorterNotContains(s[1..], sub);
    }
  }

  /** Prefixing a string with characters that cannot start `sub` does not make it contain `sub`. */
  lemma {:induction false} PrefixKeepsAbsent(a: string, b: string, sub: string)
    requires |sub| > 0 && forall i | 0 <= i < |a| :: a[i] != sub[0]
    requires !Contains(b, sub)
    ensures !Contains(a + b, sub)
    decreases |a|
  {
    if |a| == 0 {
      assert a + b == b;
    } else {
      assert !StartsWith(a + b, sub) by {
        if |sub| <= |a + b| {
          assert (a + b)[..|sub|][0] == a[0];
        }
      }
      assert (a + b)[1..] == a[1..] + b;
      PrefixKeepsAbsent(a[1..], b, sub);
    }
  }
}
