/** Strings as the source's library treats them: trimming, blank tests and upper-casing. */
module Text {

  /** White space in the sense of `Char.IsWhiteSpace`; U+001F, the image separator, is one of the characters
      that are not. */
  predicate IsWhiteSpace(c: char) {
    c == ' ' || '\t' <= c <= '\r' || c == '\U{0085}' || c == '\U{00A0}' || c == '\U{1680}'
    || '\U{2000}' <= c <= '\U{200A}' || c == '\U{2028}' || c == '\U{2029}' || c == '\U{202F}' || c == '\U{205F}'
    || c == '\U{3000}'
  }

  /** Case folding, on the letters A to Z. */
  function FoldCase(c: char): char {
    if 'A' <= c <= 'Z' then (c as int + 32) as char else c
  }

  function ToLower(s: string): (r: string)
    ensures |r| == |s| && forall i :: 0 <= i < |s| ==> r[i] == FoldCase(s[i])
  {
    seq(|s|, i requires 0 <= i < |s| => FoldCase(s[i]))
  }

  predicate SameIgnoringCase(a: string, b: string) {
    |a| == |b| && forall i :: 0 <= i < |a| ==> FoldCase(a[i]) == FoldCase(b[i])
  }

  /** `StartsWith` ignoring case, for a lower-case prefix. */
  predicate StartsWith(s: string, prefix: string) {
    |prefix| <= |s| && forall i :: 0 <= i < |prefix| ==> FoldCase(s[i]) == prefix[i]
  }

  predicate IsBlank(s: string) {
    forall i :: 0 <= i < |s| ==> IsWhiteSpace(s[i])
  }

  function TrimStart(s: string): string {
    if s != [] && IsWhiteSpace(s[0]) then TrimStart(s[1..]) else s
  }

  function TrimEnd(s: string): string {
    if s != [] && IsWhiteSpace(s[|s| - 1]) then TrimEnd(s[..|s| - 1]) else s
  }

  function Trim(s: string): string {
    TrimEnd(TrimStart(s))
  }

  /** `Trim` leaves alone what has no white space at either end. */
  predicate Trimmed(s: string) {
    s != [] ==> !IsWhiteSpace(s[0]) && !IsWhiteSpace(s[|s| - 1])
  }

  lemma {:induction false} TrimIsTrimmed(s: string)
    ensures Trimmed(Trim(s)) && (Trimmed(s) ==> Trim(s) == s)
    ensures Trim(s) == [] <==> IsBlank(s)
  {
    TrimStartFacts(s);
    TrimEndFacts(TrimStart(s));
  }

  lemma {:induction false} TrimStartFacts(s: string)
    ensures TrimStart(s) != [] ==> !IsWhiteSpace(TrimStart(s)[0])
    ensures TrimStart(s) == [] <==> IsBlank(s)
  {
    if s != [] && IsWhiteSpace(s[0]) {
      TrimStartFacts(s[1..]);
      if IsBlank(s[1..]) {
        forall i | 0 <= i < |s| ensures IsWhiteSpace(s[i]) {
          if i > 0 { assert s[i] == s[1..][i - 1]; }
        }
      } else {
        var i :| 0 <= i < |s[1..]| && !IsWhiteSpace(s[1..][i]);
        assert !IsWhiteSpace(s[i + 1]);
      }
    }
  }

  lemma {:induction false} TrimEndFacts(s: string)
    ensures TrimEnd(s) <= s
    ensures TrimEnd(s) != [] ==> !IsWhiteSpace(TrimEnd(s)[|TrimEnd(s)| - 1])
    ensures s != [] && !IsWhiteSpace(s[0]) ==> TrimEnd(s) != []
  {
    if s != [] && IsWhiteSpace(s[|s| - 1]) { TrimEndFacts(s[..|s| - 1]); }
  }

  /** What trimming takes away is white space at the two ends, and nothing else. */
  lemma {:induction false} TrimTakesBlanks(s: string) returns (i: nat, j: nat)
    ensures i + |Trim(s)| + j == |s| && Trim(s) == s[i..|s| - j]
    ensures IsBlank(s[..i]) && IsBlank(s[|s| - j..])
  {
    i := LeadingBlanks(s);
    var t := TrimStart(s);
    TrailingBlanks(t);
    j := |t| - |Trim(s)|;
    assert s[|s| - j..] == t[|Trim(s)|..] && s[i..|s| - j] == t[..|Trim(s)|];
  }

  lemma {:induction false} LeadingBlanks(s: string) returns (i: nat)
    ensures i <= |s| && TrimStart(s) == s[i..] && IsBlank(s[..i])
  {
    i := 0;
    if s != [] && IsWhiteSpace(s[0]) {
      var rest := LeadingBlanks(s[1..]);
      i := rest + 1;
      assert s[..i] == [s[0]] + s[1..][..rest] && s[i..] == s[1..][rest..];
    } else {
      assert s[0..] == s;
    }
  }

  lemma {:induction false} TrailingBlanks(s: string)
    ensures TrimEnd(s) <= s && forall k :: |TrimEnd(s)| <= k < |s| ==> IsWhiteSpace(s[k])
  {
    if s != [] && IsWhiteSpace(s[|s| - 1]) { TrailingBlanks(s[..|s| - 1]); }
  }

  const CAPITALS := "ABCDEFGHIJKLMNOPQRSTUVWXYZ"
  const SMALL := "abcdefghijklmnopqrstuvwxyz"

  /** The twenty-six capitals become their small letters, and nothing else changes; texts are the same but for case exactly
      if they are the same in lower case. */
  lemma FoldsCapitals(c: char, a: string, b: string)
    ensures |CAPITALS| == |SMALL| == 26
    ensures c in CAPITALS ==> exists k :: 0 <= k < 26 && CAPITALS[k] == c && FoldCase(c) == SMALL[k]
    ensures c !in CAPITALS ==> FoldCase(c) == c
    ensures SameIgnoringCase(a, b) <==> ToLower(a) == ToLower(b)
  {
    if c in CAPITALS {
      var k :| 0 <= k < 26 && CAPITALS[k] == c;
      CapitalAt(k);
    } else if 'A' <= c <= 'Z' {
      CapitalAt(c as int - 'A' as int);
    }
    if ToLower(a) == ToLower(b) {
      forall i | 0 <= i < |a| ensures FoldCase(a[i]) == FoldCase(b[i]) { assert ToLower(a)[i] == ToLower(b)[i]; }
    }
  }

  lemma CapitalAt(k: int)
    requires 0 <= k < 26
    ensures CAPITALS[k] as int == 'A' as int + k && SMALL[k] as int == 'a' as int + k
  {}

  // ---- separated lists ----

  function IndexOf(s: string, c: char): (i: nat)
    requires c in s
    ensures i < |s| && s[i] == c && c !in s[..i]
  {
    if s[0] == c then 0
    else
      assert s == [s[0]] + s[1..];
      var i := IndexOf(s[1..], c) + 1;
      assert s[..i] == [s[0]] + s[1..][..i - 1];
      i
  }

  function Split(s: string, sep: char): (parts: seq<string>)
    ensures parts != []
  {
    if sep !in s then [s] else [s[..IndexOf(s, sep)]] + Split(s[IndexOf(s, sep) + 1..], sep)
  }

  function Join(parts: seq<string>, sep: char): string {
    if parts == [] then "" else if |parts| == 1 then parts[0] else parts[0] + [sep] + Join(parts[1..], sep)
  }

  function NonEmpty(parts: seq<string>): seq<string> {
    if parts == [] then [] else (if parts[0] == "" then [] else [parts[0]]) + NonEmpty(parts[1..])
  }

  /** `Split` with empty entries removed. */
  function SplitNonEmpty(s: string, sep: char): seq<string> {
    NonEmpty(Split(s, sep))
  }

  lemma {:induction false} FirstSeparator(first: string, sep: char, rest: string)
    requires sep !in first
    ensures sep in first + [sep] + rest && IndexOf(first + [sep] + rest, sep) == |first|
  {
    var s := first + [sep] + rest;
    assert s[|first|] == sep;
    if first != [] {
      assert s[0] == first[0] && first[0] in first;
      assert s[1..] == first[1..] + [sep] + rest;
      FirstSeparator(first[1..], sep, rest);
    }
  }

  lemma SplitAt(first: string, sep: char, rest: string)
    requires sep !in first
    ensures Split(first + [sep] + rest, sep) == [first] + Split(rest, sep)
  {
    var s := first + [sep] + rest;
    FirstSeparator(first, sep, rest);
    assert s[..|first|] == first && s[|first| + 1..] == rest;
  }

  lemma {:induction false} SplitJoin(parts: seq<string>, sep: char)
    requires parts != [] && forall p <- parts :: sep !in p
    ensures Split(Join(parts, sep), sep) == parts
  {
    if |parts| > 1 {
      var s := Join(parts, sep);
      var first, rest := parts[0], Join(parts[1..], sep);
      FirstSeparator(first, sep, rest);
      var i := |first|;
      assert s[..i] == first && s[i + 1..] == rest;
      SplitJoin(parts[1..], sep);
    }
  }

  lemma {:induction false} NonEmptyKeepsAll(parts: seq<string>)
    requires "" !in parts
    ensures NonEmpty(parts) == parts
  {
    if parts != [] { NonEmptyKeepsAll(parts[1..]); }
  }

  lemma {:induction false} JoinAppend(a: seq<string>, b: seq<string>, sep: char)
    requires a != [] && b != []
    ensures Join(a + b, sep) == Join(a, sep) + [sep] + Join(b, sep)
  {
    if |a| == 1 {
      assert (a + b)[1..] == b;
    } else {
      assert (a + b)[1..] == a[1..] + b;
      JoinAppend(a[1..], b, sep);
    }
  }

  lemma {:induction false} InJoin(parts: seq<string>, sep: char, c: char)
    ensures c in Join(parts, sep) <==> (c == sep && |parts| > 1) || exists p <- parts :: c in p
  {
    if |parts| == 1 {
      assert parts[0] in parts;
    } else if |parts| > 1 {
      InJoin(parts[1..], sep, c);
      assert parts == [parts[0]] + parts[1..];
      assert parts[0] in parts;
    }
  }

  /** Later duplicates dropped, and nothing else. */
  function DropLater(texts: seq<string>): seq<string> {
    if texts == [] then []
    else
      var before := DropLater(texts[..|texts| - 1]);
      if texts[|texts| - 1] in texts[..|texts| - 1] then before else before + [texts[|texts| - 1]]
  }

  function First(texts: seq<string>, u: string): (i: nat)
    requires u in texts
    ensures i < |texts| && texts[i] == u && u !in texts[..i]
  {
    if texts[0] == u then 0
    else
      assert texts == [texts[0]] + texts[1..];
      var i := First(texts[1..], u) + 1;
      assert texts[..i] == [texts[0]] + texts[1..][..i - 1];
      i
  }

  /** What dropping duplicates means: the same texts, each once, in the order they first appear. */
  lemma {:induction false} DropLaterMeaning(texts: seq<string>)
    ensures forall u :: u in DropLater(texts) <==> u in texts
    ensures forall i, j :: 0 <= i < j < |DropLater(texts)| ==>
                             First(texts, DropLater(texts)[i]) < First(texts, DropLater(texts)[j])
  {
    if texts != [] {
      var pre, last := texts[..|texts| - 1], texts[|texts| - 1];
      assert texts == pre + [last];
      DropLaterMeaning(pre);
      var d := DropLater(texts);
      forall i, j | 0 <= i < j < |d| ensures First(texts, d[i]) < First(texts, d[j]) {
        FirstInPrefix(pre, last, d[i]);
        FirstInPrefix(pre, last, d[j]);
      }
    }
  }

  lemma {:induction false} FirstIs(texts: seq<string>, u: string, i: nat)
    requires i < |texts| && texts[i] == u && u !in texts[..i]
    ensures First(texts, u) == i
  {
    if i > 0 {
      assert texts[..i] == [texts[0]] + texts[1..][..i - 1];
      FirstIs(texts[1..], u, i - 1);
    }
  }

  lemma FirstInPrefix(pre: seq<string>, last: string, u: string)
    ensures u in pre ==> First(pre + [last], u) == First(pre, u)
    ensures u !in pre && u == last ==> First(pre + [last], u) == |pre|
  {
    var texts := pre + [last];
    if u in pre {
      assert texts[..First(pre, u)] == pre[..First(pre, u)];
      FirstIs(texts, u, First(pre, u));
    } else if u == last {
      assert texts[..|pre|] == pre;
      FirstIs(texts, u, |pre|);
    }
  }

  lemma {:induction false} DropLaterGrows(texts: seq<string>, n: nat)
    requires n <= |texts|
    ensures DropLater(texts[..n]) <= DropLater(texts)
  {
    if n == |texts| {
      assert texts[..n] == texts;
    } else {
      var pre := texts[..|texts| - 1];
      assert pre[..n] == texts[..n];
      DropLaterGrows(pre, n);
    }
  }

  function Occurrences(s: string, c: char): nat {
    if s == "" then 0 else (if s[0] == c then 1 else 0) + Occurrences(s[1..], c)
  }

  lemma {:induction false} OccurrencesAppend(a: string, b: string, c: char)
    ensures Occurrences(a + b, c) == Occurrences(a, c) + Occurrences(b, c)
  {
    if a == "" {
      assert a + b == b;
    } else {
      assert (a + b)[1..] == a[1..] + b;
      OccurrencesAppend(a[1..], b, c);
    }
  }

  lemma {:induction false} OccurrencesOf(s: string, c: char)
    ensures Occurrences(s, c) == 0 <==> c !in s
  {
    if s != "" {
      assert s == [s[0]] + s[1..];
      OccurrencesOf(s[1..], c);
    }
  }

  lemma {:induction false} SeparatorsOfJoin(parts: seq<string>, sep: char)
    requires parts != []
    ensures Occurrences(Join(parts, sep), sep) >= |parts| - 1
    ensures Occurrences(Join(parts, sep), sep) == |parts| - 1 <==> forall p <- parts :: sep !in p
  {
    OccurrencesOf(parts[0], sep);
    if |parts| == 1 {
      assert parts[0] in parts;
    } else {
      SeparatorsOfJoin(parts[1..], sep);
      OccurrencesAppend(parts[0] + [sep], Join(parts[1..], sep), sep);
      OccurrencesAppend(parts[0], [sep], sep);
      assert Occurrences([sep], sep) == 1 by { assert [sep][1..] == ""; }
      assert parts == [parts[0]] + parts[1..];
    }
  }

  /** A joined text without separators in its parts comes from one list of that length only, even when the other
      list may have separators in its parts. */
  lemma JoinDetermines(parts: seq<string>, others: seq<string>, sep: char)
    requires |parts| == |others| > 0 && (forall p <- parts :: sep !in p) && Join(parts, sep) == Join(others, sep)
    ensures parts == others
  {
    SeparatorsOfJoin(parts, sep);
    SeparatorsOfJoin(others, sep);
    SplitJoin(parts, sep);
    SplitJoin(others, sep);
  }

  lemma SplitsAtFirst(a: string, x: string, b: string, y: string, sep: char)
    requires a + [sep] + x == b + [sep] + y && sep !in a && sep !in b
    ensures a == b && x == y
  {
    var s := a + [sep] + x;
    assert s[|a|] == sep && s[|b|] == sep;
    assert forall i :: 0 <= i < |a| ==> s[i] == a[i];
    assert forall i :: 0 <= i < |b| ==> s[i] == b[i];
    assert |a| == |b|;
    assert a == s[..|a|] && b == s[..|b|];
    assert x == s[|a| + 1..] && y == s[|b| + 1..];
  }

  lemma SplitsAtLast(a: string, x: string, b: string, y: string, sep: char)
    requires a + [sep] + x == b + [sep] + y && sep !in x && sep !in y
    ensures a == b && x == y
  {
    var s := a + [sep] + x;
    assert s[|a|] == sep && s[|b|] == sep;
    assert forall i :: |a| < i < |s| ==> s[i] == x[i - |a| - 1];
    assert forall i :: |b| < i < |s| ==> s[i] == y[i - |b| - 1];
    assert |a| == |b|;
    assert a == s[..|a|] && b == s[..|b|];
    assert x == s[|a| + 1..] && y == s[|b| + 1..];
  }

  lemma JoinFirst(parts: seq<string>, sep: char)
    requires |parts| >= 2
    ensures Join(parts, sep) == parts[0] + [sep] + Join(parts[1..], sep)
  {}

  lemma JoinLast(parts: seq<string>, sep: char)
    requires |parts| >= 2
    ensures Join(parts, sep) == Join(parts[..|parts| - 1], sep) + [sep] + parts[|parts| - 1]
  {
    var last := |parts| - 1;
    assert parts == parts[..last] + [parts[last]];
    JoinAppend(parts[..last], [parts[last]], sep);
  }

  lemma SameFirst(parts: seq<string>, others: seq<string>, sep: char)
    requires |parts| >= 2 && |others| >= 2 && Join(parts, sep) == Join(others, sep)
    requires sep !in parts[0] && sep !in others[0]
    ensures parts[0] == others[0] && Join(parts[1..], sep) == Join(others[1..], sep)
  {
    JoinFirst(parts, sep);
    JoinFirst(others, sep);
    SplitsAtFirst(parts[0], Join(parts[1..], sep), others[0], Join(others[1..], sep), sep);
  }

  lemma SameLast(parts: seq<string>, others: seq<string>, sep: char)
    requires |parts| == |others| >= 2 && Join(parts, sep) == Join(others, sep)
    requires sep !in parts[|parts| - 1] && sep !in others[|parts| - 1]
    ensures parts[|parts| - 1] == others[|parts| - 1]
    ensures Join(parts[..|parts| - 1], sep) == Join(others[..|parts| - 1], sep)
  {
    var last := |parts| - 1;
    JoinLast(parts, sep);
    JoinLast(others, sep);
    SplitsAtLast(Join(parts[..last], sep), parts[last], Join(others[..last], sep), others[last], sep);
  }

  lemma TailOfFront<T>(parts: seq<T>, n: nat)
    requires 0 < n <= |parts|
    ensures parts[..n] == [parts[0]] + parts[1..][..n - 1] && parts[n..] == parts[1..][n - 1..]
  {}

  lemma FrontOfBack<T>(parts: seq<T>, n: nat)
    requires n < |parts|
    ensures parts[..n] == parts[..|parts| - 1][..n]
    ensures parts[n..] == parts[..|parts| - 1][n..] + [parts[|parts| - 1]]
  {}

  /** From the front, a joined text determines the parts that hold no separator, and the rest. */
  lemma {:induction false} JoinDeterminesFront(parts: seq<string>, others: seq<string>, n: nat, sep: char)
    requires n < |parts| && n < |others| && Join(parts, sep) == Join(others, sep)
    requires forall i :: 0 <= i < n ==> sep !in parts[i] && sep !in others[i]
    ensures parts[..n] == others[..n] && Join(parts[n..], sep) == Join(others[n..], sep)
  {
    if n == 0 {
      assert parts[0..] == parts && others[0..] == others;
    } else {
      SameFirst(parts, others, sep);
      JoinDeterminesFront(parts[1..], others[1..], n - 1, sep);
      TailOfFront(parts, n);
      TailOfFront(others, n);
    }
  }

  /** And from the back. */
  lemma {:induction false} JoinDeterminesBack(parts: seq<string>, others: seq<string>, n: nat, sep: char)
    requires 0 < n <= |parts| == |others| && Join(parts, sep) == Join(others, sep)
    requires forall i :: n <= i < |parts| ==> sep !in parts[i] && sep !in others[i]
    ensures parts[n..] == others[n..] && Join(parts[..n], sep) == Join(others[..n], sep)
  {
    var last := |parts| - 1;
    if n == |parts| {
      assert parts[..n] == parts && others[..n] == others;
    } else {
      SameLast(parts, others, sep);
      JoinDeterminesBack(parts[..last], others[..last], n, sep);
      FrontOfBack(parts, n);
      FrontOfBack(others, n);
    }
  }

  /** So two joins that are equal agree outside the parts m to n, if only those hold separators, and in their join. */
  lemma JoinDeterminesMiddle(parts: seq<string>, others: seq<string>, m: nat, n: nat, sep: char)
    requires m < n < |parts| == |others| && Join(parts, sep) == Join(others, sep)
    requires forall i :: 0 <= i < m || n <= i < |parts| ==> sep !in parts[i] && sep !in others[i]
    ensures parts[..m] == others[..m] && parts[n..] == others[n..]
    ensures Join(parts[m..n], sep) == Join(others[m..n], sep)
  {
    JoinDeterminesFront(parts, others, m, sep);
    JoinDeterminesBack(parts[m..], others[m..], n - m, sep);
    assert parts[m..][n - m..] == parts[n..] && others[m..][n - m..] == others[n..];
    assert parts[m..][..n - m] == parts[m..n] && others[m..][..n - m] == others[m..n];
  }

  // ---- numbers ----

  predicate IsDigit(c: char) {
    '0' <= c <= '9'
  }

  function Digits(n: nat): (s: string)
    ensures s != "" && forall i :: 0 <= i < |s| ==> IsDigit(s[i])
  {
    (if n < 10 then "" else Digits(n / 10)) + [('0' as int + n % 10) as char]
  }

  function Value(s: string): int {
    if s == "" then 0 else 10 * Value(s[..|s| - 1]) + (s[|s| - 1] as int - '0' as int)
  }

  lemma {:induction false} ValueOfDigits(n: nat)
    ensures Value(Digits(n)) == n
  {
    var s := Digits(n);
    if n < 10 {
      assert s[..|s| - 1] == "";
    } else {
      assert s[..|s| - 1] == Digits(n / 10);
      ValueOfDigits(n / 10);
    }
  }
}
