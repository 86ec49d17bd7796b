/** The full-text condition of the listing query, and why the listing only depends on the trimmed texts. */
module FullText {
  import opened Wrappers
  import opened Text
  import opened LikePattern
  import opened SearchKeys

  const MAX_TOKENS := 8

  /** What the platform says about characters: letters and digits, and upper case. */
  datatype Characters = Characters(isLetterOrDigit: char -> bool, upper: char -> char)

  ghost predicate NoWhiteSpaceInWords(chars: Characters) {
    forall c :: IsWhiteSpace(c) ==> !chars.isLetterOrDigit(c)
  }

  function SanitizeFullTextToken(value: string, chars: Characters): string {
    if value == "" then ""
    else (if chars.isLetterOrDigit(value[0]) then [chars.upper(value[0])] else [])
         + SanitizeFullTextToken(value[1..], chars)
  }

  /** The text split at blanks, its entries trimmed, empty ones removed. */
  function Entries(rawValue: string): seq<string> {
    NonEmpty(TrimEach(Split(rawValue, ' ')))
  }

  function TrimEach(parts: seq<string>): seq<string> {
    if parts == [] then [] else [Trim(parts[0])] + TrimEach(parts[1..])
  }

  /** The sanitized words of two letters or more. */
  function Words(parts: seq<string>, chars: Characters): seq<string> {
    if parts == [] then []
    else
      var word := SanitizeFullTextToken(parts[0], chars);
      (if |word| >= 2 then [word] else []) + Words(parts[1..], chars)
  }

  function Quote(word: string): string {
    "\"" + word + "*\""
  }

  function QuoteEach(words: seq<string>): seq<string> {
    if words == [] then [] else QuoteEach(words[..|words| - 1]) + [Quote(words[|words| - 1])]
  }

  function JoinWith(separator: string, parts: seq<string>): string {
    if parts == [] then "" else if |parts| == 1 then parts[0] else parts[0] + separator + JoinWith(separator, parts[1..])
  }

  /** The first eight different words of the text, in their order. */
  function Tokens(rawValue: string, chars: Characters): seq<string> {
    var words := DropLater(Words(Entries(rawValue), chars));
    if |words| <= MAX_TOKENS then words else words[..MAX_TOKENS]
  }

  /** A row must have a word that starts with each of them; none when there are none. */
  function Condition(rawValue: string, chars: Characters): Option<string> {
    var tokens := Tokens(rawValue, chars);
    if tokens == [] then None else Some(JoinWith(" AND ", QuoteEach(tokens)))
  }

  method BuildFullTextSearchCondition(rawValue: string, chars: Characters) returns (condition: Option<string>)
    ensures condition == Condition(rawValue, chars)
  {
    var parts := Entries(rawValue);
    var seen: set<string>, tokens: seq<string> := {}, [];
    ghost var words := [];
    var i := 0;
    while i < |parts| && |tokens| < MAX_TOKENS
      invariant 0 <= i <= |parts| && |tokens| == |words| <= MAX_TOKENS
      invariant words == DropLater(Words(parts[..i], chars)) && tokens == QuoteEach(words)
      invariant forall w :: w in seen <==> w in Words(parts[..i], chars)
    {
      var sanitized := SanitizeFullTextToken(parts[i], chars);
      NextWord(parts, i, chars);
      if |sanitized| >= 2 && sanitized !in seen {
        seen := seen + {sanitized};
        tokens := tokens + [Quote(sanitized)];
        QuoteNext(words, sanitized);
        words := words + [sanitized];
      }
      i := i + 1;
    }
    TokensSoFar(rawValue, i, chars);
    if tokens == [] {
      return None;
    }
    return Some(JoinWith(" AND ", tokens));
  }

  lemma QuoteNext(words: seq<string>, word: string)
    ensures QuoteEach(words + [word]) == QuoteEach(words) + [Quote(word)]
  {
    assert (words + [word])[..|words|] == words;
  }

  /** One turn of the loop. */
  lemma NextWord(parts: seq<string>, i: nat, chars: Characters)
    requires i < |parts|
    ensures var before, word := Words(parts[..i], chars), SanitizeFullTextToken(parts[i], chars);
            && Words(parts[..i + 1], chars) == before + (if |word| >= 2 then [word] else [])
            && DropLater(Words(parts[..i + 1], chars)) ==
               DropLater(before) + (if |word| >= 2 && word !in before then [word] else [])
  {
    var before, word := Words(parts[..i], chars), SanitizeFullTextToken(parts[i], chars);
    assert parts[..i + 1] == parts[..i] + [parts[i]];
    WordsAppend(parts[..i], [parts[i]], chars);
    WordsOfOne(parts[i], chars);
    assert (before + [word])[..|before|] == before && before + [] == before;
  }

  lemma TokensSoFar(rawValue: string, i: nat, chars: Characters)
    requires i <= |Entries(rawValue)|
    requires var words := DropLater(Words(Entries(rawValue)[..i], chars));
             |words| <= MAX_TOKENS && (i == |Entries(rawValue)| || |words| == MAX_TOKENS)
    ensures Tokens(rawValue, chars) == DropLater(Words(Entries(rawValue)[..i], chars))
  {
    var parts := Entries(rawValue);
    var some, all := Words(parts[..i], chars), Words(parts, chars);
    assert parts == parts[..i] + parts[i..];
    WordsAppend(parts[..i], parts[i..], chars);
    assert all[..|some|] == some;
    DropLaterGrows(all, |some|);
    if i == |parts| { assert parts[..i] == parts; }
  }

  lemma WordsOfOne(part: string, chars: Characters)
    ensures var word := SanitizeFullTextToken(part, chars);
            Words([part], chars) == if |word| >= 2 then [word] else []
  {
    assert [part][1..] == [];
  }

  lemma {:induction false} WordsAppend(a: seq<string>, b: seq<string>, chars: Characters)
    ensures Words(a + b, chars) == Words(a, chars) + Words(b, chars)
  {
    if a == [] {
      assert a + b == b;
    } else {
      assert (a + b)[1..] == a[1..] + b;
      WordsAppend(a[1..], b, chars);
    }
  }

  // ---- blanks around a text do not matter ----

  lemma {:induction false} SanitizeAppend(a: string, b: string, chars: Characters)
    ensures SanitizeFullTextToken(a + b, chars) == SanitizeFullTextToken(a, chars) + SanitizeFullTextToken(b, chars)
  {
    if a == "" {
      assert a + b == b;
    } else {
      assert (a + b)[1..] == a[1..] + b;
      SanitizeAppend(a[1..], b, chars);
    }
  }

  lemma SanitizeBlank(c: char, chars: Characters)
    requires NoWhiteSpaceInWords(chars) && IsWhiteSpace(c)
    ensures SanitizeFullTextToken([c], chars) == ""
  {
    assert [c][1..] == "";
  }

  lemma {:induction false} SanitizeTrimmed(s: string, chars: Characters)
    requires NoWhiteSpaceInWords(chars)
    ensures SanitizeFullTextToken(Trim(s), chars) == SanitizeFullTextToken(s, chars)
  {
    SanitizeTrimStart(s, chars);
    SanitizeTrimEnd(TrimStart(s), chars);
  }

  lemma {:induction false} SanitizeTrimStart(s: string, chars: Characters)
    requires NoWhiteSpaceInWords(chars)
    ensures SanitizeFullTextToken(TrimStart(s), chars) == SanitizeFullTextToken(s, chars)
  {
    if s != [] && IsWhiteSpace(s[0]) { SanitizeTrimStart(s[1..], chars); }
  }

  lemma {:induction false} SanitizeTrimEnd(s: string, chars: Characters)
    requires NoWhiteSpaceInWords(chars)
    ensures SanitizeFullTextToken(TrimEnd(s), chars) == SanitizeFullTextToken(s, chars)
  {
    if s != [] && IsWhiteSpace(s[|s| - 1]) {
      var rest, last := s[..|s| - 1], s[|s| - 1];
      assert s == rest + [last];
      SanitizeAppend(rest, [last], chars);
      SanitizeBlank(last, chars);
      SanitizeTrimEnd(rest, chars);
    }
  }

  /** Neither trimming the entries nor removing empty ones changes the words. */
  lemma {:induction false} WordsOfEntries(parts: seq<string>, chars: Characters)
    requires NoWhiteSpaceInWords(chars)
    ensures Words(NonEmpty(TrimEach(parts)), chars) == Words(parts, chars)
  {
    if parts != [] {
      var head, rest := if Trim(parts[0]) == "" then [] else [Trim(parts[0])], NonEmpty(TrimEach(parts[1..]));
      assert ([Trim(parts[0])] + TrimEach(parts[1..]))[1..] == TrimEach(parts[1..]);
      assert NonEmpty(TrimEach(parts)) == head + rest;
      WordsAppend(head, rest, chars);
      WordsOfEntries(parts[1..], chars);
      SanitizeTrimmed(parts[0], chars);
      WordsOfOne(Trim(parts[0]), chars);
    }
  }

  function WordsIn(s: string, chars: Characters): seq<string> {
    Words(Split(s, ' '), chars)
  }

  lemma BlankFirst(c: char, s: string, chars: Characters)
    requires NoWhiteSpaceInWords(chars) && IsWhiteSpace(c)
    ensures WordsIn([c] + s, chars) == WordsIn(s, chars)
  {
    var t := [c] + s;
    assert t[1..] == s;
    if c == ' ' {
      assert t == "" + [' '] + s;
      SplitAt("", ' ', s);
      WordsAppend([""], Split(s, ' '), chars);
      WordsOfOne("", chars);
    } else if ' ' in s {
      var first, rest := s[..IndexOf(s, ' ')], s[IndexOf(s, ' ') + 1..];
      assert s == first + [' '] + rest && t == [c] + first + [' '] + rest;
      SplitAt(first, ' ', rest);
      SplitAt([c] + first, ' ', rest);
      WordsAppend([first], Split(rest, ' '), chars);
      WordsAppend([[c] + first], Split(rest, ' '), chars);
      BlankInWord(c, first, chars);
    } else {
      BlankInWord(c, s, chars);
    }
  }

  lemma BlankInWord(c: char, word: string, chars: Characters)
    requires NoWhiteSpaceInWords(chars) && IsWhiteSpace(c)
    ensures Words([[c] + word], chars) == Words([word], chars) == Words([word + [c]], chars)
  {
    SanitizeBlank(c, chars);
    SanitizeAppend([c], word, chars);
    SanitizeAppend(word, [c], chars);
    var sanitized := SanitizeFullTextToken(word, chars);
    assert "" + sanitized == sanitized && sanitized + "" == sanitized;
    WordsOfOne([c] + word, chars);
    WordsOfOne(word, chars);
    WordsOfOne(word + [c], chars);
  }

  lemma {:induction false} BlankLast(s: string, c: char, chars: Characters)
    requires NoWhiteSpaceInWords(chars) && IsWhiteSpace(c)
    ensures WordsIn(s + [c], chars) == WordsIn(s, chars)
    decreases |s|
  {
    var t := s + [c];
    if ' ' in s {
      var first, rest := s[..IndexOf(s, ' ')], s[IndexOf(s, ' ') + 1..];
      assert s == first + [' '] + rest && t == first + [' '] + (rest + [c]);
      SplitAt(first, ' ', rest);
      SplitAt(first, ' ', rest + [c]);
      BlankLast(rest, c, chars);
      WordsAppend([first], Split(rest, ' '), chars);
      WordsAppend([first], Split(rest + [c], ' '), chars);
    } else if c == ' ' {
      assert t == s + [' '] + "";
      SplitAt(s, ' ', "");
      WordsAppend([s], [""], chars);
      WordsOfOne("", chars);
    } else {
      assert ' ' !in t && Split(t, ' ') == [t] && Split(s, ' ') == [s];
      BlankInWord(c, s, chars);
    }
  }

  lemma {:induction false} WordsInTrimStart(s: string, chars: Characters)
    requires NoWhiteSpaceInWords(chars)
    ensures WordsIn(TrimStart(s), chars) == WordsIn(s, chars)
  {
    if s != [] && IsWhiteSpace(s[0]) {
      assert s == [s[0]] + s[1..];
      BlankFirst(s[0], s[1..], chars);
      WordsInTrimStart(s[1..], chars);
    }
  }

  lemma {:induction false} WordsInTrimEnd(s: string, chars: Characters)
    requires NoWhiteSpaceInWords(chars)
    ensures WordsIn(TrimEnd(s), chars) == WordsIn(s, chars)
  {
    if s != [] && IsWhiteSpace(s[|s| - 1]) {
      assert s == s[..|s| - 1] + [s[|s| - 1]];
      BlankLast(s[..|s| - 1], s[|s| - 1], chars);
      WordsInTrimEnd(s[..|s| - 1], chars);
    }
  }

  /** A term and the trimmed term have the same condition. */
  lemma TrimIsInvisible(rawValue: string, chars: Characters)
    requires NoWhiteSpaceInWords(chars)
    ensures Condition(rawValue, chars) == Condition(Trim(rawValue), chars)
  {
    WordsOfEntries(Split(rawValue, ' '), chars);
    WordsOfEntries(Split(Trim(rawValue), ' '), chars);
    WordsInTrimStart(rawValue, chars);
    WordsInTrimEnd(TrimStart(rawValue), chars);
  }

  // ---- what the listing query makes of its texts ----

  /** The texts that reach the database: the prefix patterns, and the full-text condition if the index is there. */
  datatype Arguments = Arguments(searchPrefix: Option<string>, condition: Option<string>, categoryId: Option<nat>,
                                 categoryPrefix: Option<string>, cityPrefix: Option<string>)

  function PrefixOf(text: Option<string>, chars: Characters): Option<string> {
    if text.None? || IsBlank(text.value) then None else Some(BuildPrefixPattern(text.value, chars.upper))
  }

  function ConditionOf(term: Option<string>, available: bool, chars: Characters): Option<string> {
    if term.None? || IsBlank(term.value) || !available then None else Condition(term.value, chars)
  }

  /** As the search hands them over: the term and the city as they came, the category read and trimmed. */
  function QueryArguments(q: SearchQuery, available: bool, chars: Characters): Arguments {
    var category := CategoryOf(q);
    Arguments(PrefixOf(q.term, chars), ConditionOf(q.term, available, chars), CategoryId(category),
              if category.ById? then None else PrefixOf(CategoryName(category), chars), PrefixOf(q.city, chars))
  }

  /** The same from the listing, whose texts are trimmed. */
  function ListingArguments(l: Listing, available: bool, chars: Characters): Arguments {
    Arguments(PrefixOf(l.term, chars), ConditionOf(l.term, available, chars), l.categoryId,
              if l.categoryId.Some? then None else PrefixOf(l.categoryName, chars), PrefixOf(l.city, chars))
  }

  lemma PrefixOfTrimmed(text: Option<string>, chars: Characters)
    ensures PrefixOf(text, chars) == PrefixOf(Filter(text), chars)
  {
    if text.Some? && !IsBlank(text.value) {
      TrimIsTrimmed(text.value);
      TrimIsTrimmed(Trim(text.value));
    }
  }

  /** What the listing query asks of the database depends on nothing but the listing: texts that differ in blanks around
      them ask the same. */
  lemma ArgumentsComeFromListing(q: SearchQuery, available: bool, chars: Characters)
    requires VisibilityOf(q).Some? && NoWhiteSpaceInWords(chars)
    ensures QueryArguments(q, available, chars) == ListingArguments(ListingOf(q), available, chars)
  {
    PrefixOfTrimmed(q.term, chars);
    PrefixOfTrimmed(q.city, chars);
    PrefixOfTrimmed(CategoryName(CategoryOf(q)), chars);
    if q.term.Some? && !IsBlank(q.term.value) {
      TrimIsTrimmed(q.term.value);
      TrimIsTrimmed(Trim(q.term.value));
      TrimIsInvisible(q.term.value, chars);
    }
  }
}
