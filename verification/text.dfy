/** String helpers: ASCII case folding as a regular expression with the `i` flag
    (and no `u` flag) applies it to the ASCII letters of `.js` and `/index`, suffix
    removal anchored at the end of the input, and the code-unit order in which
    `Array.prototype.sort` compares strings. */
module Text {

  /** Lower-cases an ASCII letter and leaves every other character alone. */
  function Lower(c: char): char {
    if 'A' <= c <= 'Z' then (c as int + 32) as char else c
  }

  /** `s` matches `pattern` ignoring ASCII case; `pattern` is written in lower case. */
  predicate SameIgnoringCase(s: string, pattern: string) {
    |s| == |pattern| && forall i :: 0 <= i < |s| ==> Lower(s[i]) == pattern[i]
  }

  /** The regular expression `pattern$` with the `i` flag matches `s`. */
  predicate EndsWithIgnoringCase(s: string, pattern: string) {
    |s| >= |pattern| && SameIgnoringCase(s[|s| - |pattern|..], pattern)
  }

  /** `s.replace(/pattern$/i, '')`: removes one case-insensitive occurrence of
      `pattern` at the very end of `s`, if there is one. */
  function StripSuffixIgnoringCase(s: string, pattern: string): (r: string)
    ensures |r| <= |s| && r == s[..|r|]
    ensures r == s || (|r| == |s| - |pattern| && SameIgnoringCase(s[|r|..], pattern))
    ensures EndsWithIgnoringCase(s, pattern) <==> |r| + |pattern| == |s|
  {
    if EndsWithIgnoringCase(s, pattern) then s[..|s| - |pattern|] else s
  }

  /** Removing a suffix that matches the pattern in any letter case gives back what
      preceded it, and only one suffix is removed. */
  lemma StripSuffixRoundTrip(x: string, suffix: string, pattern: string)
    requires SameIgnoringCase(suffix, pattern)
    ensures StripSuffixIgnoringCase(x + suffix, pattern) == x
  {
    var s := x + suffix;
    assert s[|s| - |pattern|..] == suffix;
    assert s[..|s| - |pattern|] == x;
  }

  /** A string whose last character is not a folding of the pattern's last
      character is left unchanged. */
  lemma StripSuffixKeepsOtherEndings(s: string, pattern: string)
    requires |s| > 0 && |pattern| > 0
    requires Lower(s[|s| - 1]) != pattern[|pattern| - 1]
    ensures StripSuffixIgnoringCase(s, pattern) == s
  {
    if |s| >= |pattern| {
      var t := s[|s| - |pattern|..];
      assert Lower(t[|t| - 1]) != pattern[|pattern| - 1];
    }
  }

  /** `a <= b` in the order `Array.prototype.sort` uses for strings: character by
      character, a proper prefix before any extension of it. */
  predicate LexLe(a: string, b: string)
    decreases |a|
  {
    |a| == 0 || (|b| > 0 && (a[0] < b[0] || (a[0] == b[0] && LexLe(a[1..], b[1..]))))
  }

  lemma {:induction false} LexLeReflexive(a: string)
    ensures LexLe(a, a)
    decreases |a|
  {
    if |a| > 0 {
      LexLeReflexive(a[1..]);
    }
  }

  lemma {:induction false} LexLeTotal(a: string, b: string)
    ensures LexLe(a, b) || LexLe(b, a)
    decreases |a|
  {
    if |a| > 0 && |b| > 0 && a[0] == b[0] {
      LexLeTotal(a[1..], b[1..]);
    }
  }

  lemma {:induction false} LexLeAntisymmetric(a: string, b: string)
    requires LexLe(a, b) && LexLe(b, a)
    ensures a == b
    decreases |a|
  {
    if |a| > 0 {
      LexLeAntisymmetric(a[1..], b[1..]);
      assert a == [a[0]] + a[1..];
      assert b == [b[0]] + b[1..];
    }
  }

  lemma {:induction false} LexLeTransitive(a: string, b: string, c: string)
    requires LexLe(a, b) && LexLe(b, c)
    ensures LexLe(a, c)
    decreases |a|
  {
    if |a| > 0 && a[0] == b[0] && b[0] == c[0] {
      LexLeTransitive(a[1..], b[1..], c[1..]);
    }
  }
}
