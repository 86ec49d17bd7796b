/** Prefix search with LIKE: escaping a term so that the pattern matches exactly what starts with it. */
module LikePattern {
  import opened Text

  const ESCAPE := '\\'

  /** `Replace` of one character by a text, over the whole string. */
  function Replace(s: string, c: char, into: string): string {
    if s == [] then [] else (if s[0] == c then into else [s[0]]) + Replace(s[1..], c, into)
  }

  function EscapeSqlLikePattern(value: string): string {
    Replace(Replace(Replace(Replace(value, '\\', "\\\\"), '%', "\\%"), '_', "\\_"), '[', "\\[")
  }

  function ToUpper(s: string, upper: char -> char): string {
    seq(|s|, i requires 0 <= i < |s| => upper(s[i]))
  }

  function BuildPrefixPattern(rawValue: string, upper: char -> char): string {
    EscapeSqlLikePattern(ToUpper(Trim(rawValue), upper)) + "%"
  }

  predicate IsSpecial(c: char) {
    c == '\\' || c == '%' || c == '_' || c == '['
  }

  /** The escape that is meant: a backslash before each special character. */
  function EscapeEach(s: string): string {
    if s == [] then [] else (if IsSpecial(s[0]) then [ESCAPE, s[0]] else [s[0]]) + EscapeEach(s[1..])
  }

  lemma {:induction false} ReplaceAppend(a: string, b: string, c: char, into: string)
    ensures Replace(a + b, c, into) == Replace(a, c, into) + Replace(b, c, into)
  {
    if a == [] {
      assert a + b == b;
    } else {
      assert (a + b)[1..] == a[1..] + b;
      ReplaceAppend(a[1..], b, c, into);
    }
  }

  lemma ReplaceOne(x: char, c: char, into: string)
    ensures Replace([x], c, into) == if x == c then into else [x]
  {
    assert [x][1..] == [];
  }

  lemma ReplaceTwo(x: char, y: char, c: char, into: string)
    ensures Replace([x, y], c, into) == (if x == c then into else [x]) + (if y == c then into else [y])
  {
    assert [x, y][1..] == [y];
    ReplaceOne(y, c, into);
  }

  /** The four ordered passes put exactly one backslash before each special character. */
  lemma {:induction false} PassesAreOneEscape(s: string)
    ensures EscapeSqlLikePattern(s) == EscapeEach(s)
  {
    if s != [] {
      PassesAreOneEscape(s[1..]);
      var x, rest := s[0], s[1..];
      assert s == [x] + rest;
      var r1 := Replace(rest, '\\', "\\\\");
      var r2 := Replace(r1, '%', "\\%");
      var r3 := Replace(r2, '_', "\\_");
      var e1 := if x == '\\' then "\\\\" else [x];
      var e2 := if x == '%' then "\\%" else e1;
      var e3 := if x == '_' then "\\_" else e2;
      var e4 := if x == '[' then "\\[" else e3;
      ReplaceOne(x, '\\', "\\\\");
      ReplaceAppend([x], rest, '\\', "\\\\");
      PassOnEscape(x, e1, '%');
      ReplaceAppend(e1, r1, '%', "\\%");
      PassOnEscape(x, e2, '_');
      ReplaceAppend(e2, r2, '_', "\\_");
      PassOnEscape(x, e3, '[');
      ReplaceAppend(e3, r3, '[', "\\[");
    }
  }

  /** A later pass leaves an escaped character alone, and escapes its own. */
  lemma PassOnEscape(x: char, escaped: string, c: char)
    requires escaped == [x] || (x != c && escaped == [ESCAPE, x])
    requires c != ESCAPE
    ensures Replace(escaped, c, [ESCAPE, c]) == if x == c then [ESCAPE, c] else escaped
  {
    if escaped == [x] { ReplaceOne(x, c, [ESCAPE, c]); } else { ReplaceTwo(ESCAPE, x, c, [ESCAPE, c]); }
  }

  // ---- what LIKE means (section 8.5 of ISO/IEC 9075-2, with the bracket classes of Transact-SQL) ----

  predicate InClass(c: char, body: string) {
    if |body| >= 3 && body[1] == '-' then body[0] <= c <= body[2] || InClass(c, body[3..])
    else if body == [] then false
    else body[0] == c || InClass(c, body[1..])
  }

  predicate ClassMatches(c: char, body: string) {
    if body != [] && body[0] == '^' then !InClass(c, body[1..]) else InClass(c, body)
  }

  predicate Like(s: string, pattern: string)
    decreases |pattern|, |s|
  {
    if pattern == [] then s == []
    else if pattern[0] == ESCAPE then
      |pattern| > 1 && s != [] && s[0] == pattern[1] && Like(s[1..], pattern[2..])
    else if pattern[0] == '%' then Like(s, pattern[1..]) || (s != [] && Like(s[1..], pattern))
    else if pattern[0] == '_' then s != [] && Like(s[1..], pattern[1..])
    else if pattern[0] == '[' then
      && ']' in pattern[1..] && s != []
      && ClassMatches(s[0], pattern[1..][..IndexOf(pattern[1..], ']')])
      && Like(s[1..], pattern[1..][IndexOf(pattern[1..], ']') + 1..])
    else s != [] && s[0] == pattern[0] && Like(s[1..], pattern[1..])
  }

  lemma {:induction false} PercentMatchesAll(s: string)
    ensures Like(s, "%")
  {
    assert "%"[1..] == [];
    if s != [] { PercentMatchesAll(s[1..]); }
  }

  lemma {:induction false} EscapedPrefixMatch(s: string, term: string)
    ensures Like(s, EscapeEach(term) + "%") <==> term <= s
  {
    var pattern := EscapeEach(term) + "%";
    if term == [] {
      assert pattern == "%";
      PercentMatchesAll(s);
    } else {
      var rest := EscapeEach(term[1..]) + "%";
      assert pattern == (if IsSpecial(term[0]) then [ESCAPE, term[0]] else [term[0]]) + rest;
      assert pattern[if IsSpecial(term[0]) then 2 else 1..] == rest;
      assert Like(s, pattern) <==> s != [] && s[0] == term[0] && Like(s[1..], rest);
      if s != [] {
        EscapedPrefixMatch(s[1..], term[1..]);
        assert s[0] == term[0] && term[1..] <= s[1..] <==> term <= s by {
          if s[0] == term[0] && term[1..] <= s[1..] {
            assert term == [term[0]] + term[1..] && s == [s[0]] + s[1..];
          }
        }
      }
    }
  }

  /** For every term and every upper-casing, the built pattern matches exactly the strings that start with
      the trimmed, upper-cased term; wildcards in the term stand for themselves. */
  lemma PrefixPatternIsExact(rawValue: string, upper: char -> char, s: string)
    ensures Like(s, BuildPrefixPattern(rawValue, upper)) <==> ToUpper(Trim(rawValue), upper) <= s
  {
    PassesAreOneEscape(ToUpper(Trim(rawValue), upper));
    EscapedPrefixMatch(s, ToUpper(Trim(rawValue), upper));
  }
}
