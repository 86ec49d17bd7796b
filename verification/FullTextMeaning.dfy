/** What a full-text condition asks of a row, read back from its text, and which words of the search it asks for. */
module FullTextMeaning {
  import opened Wrappers
  import opened Text
  import opened FullText

  const QUOTE := '"'

  /** Every second piece, from the second on. */
  function EverySecond(pieces: seq<string>): seq<string> {
    if |pieces| < 2 then [] else [pieces[1]] + EverySecond(pieces[2..])
  }

  /** The prefixes that a condition names: its quoted terms, each without the star it ends in. */
  function Prefixes(condition: string): seq<string> {
    Unstarred(EverySecond(Split(condition, QUOTE)))
  }

  function Unstarred(terms: seq<string>): seq<string> {
    if terms == [] then []
    else [if terms[0] == "" then "" else terms[0][..|terms[0]| - 1]] + Unstarred(terms[1..])
  }

  /** The words of a row meet a condition if each of its prefixes begins one of them. */
  predicate Meets(row: seq<string>, condition: string) {
    forall prefix <- Prefixes(condition) :: exists word <- row :: prefix <= word
  }

  predicate Unquoted(words: seq<string>) {
    forall i :: 0 <= i < |words| ==> QUOTE !in words[i]
  }

  lemma {:induction false} QuoteAppend(a: seq<string>, b: seq<string>)
    ensures QuoteEach(a + b) == QuoteEach(a) + QuoteEach(b)
  {
    if b == [] {
      assert a + b == a;
    } else {
      var front := b[..|b| - 1];
      assert (a + b)[..|a + b| - 1] == a + front;
      QuoteAppend(a, front);
    }
  }

  lemma QuoteFirst(words: seq<string>)
    requires words != []
    ensures QuoteEach(words) == [Quote(words[0])] + QuoteEach(words[1..])
  {
    assert words == [words[0]] + words[1..];
    QuoteAppend([words[0]], words[1..]);
    assert [words[0]][..0] == [];
    assert QuoteEach([words[0]]) == [Quote(words[0])];
  }

  lemma SplitTwice(a: string, b: string, sep: char, rest: string)
    requires sep !in a && sep !in b
    ensures Split(a + [sep] + (b + [sep] + rest), sep) == [a, b] + Split(rest, sep)
  {
    SplitAt(a, sep, b + [sep] + rest);
    SplitAt(b, sep, rest);
  }

  /** The text of a condition splits at its quotes into nothing, a term, the word between, a term, and so on. */
  lemma SplitQuoted(word: string, rest: string)
    requires QUOTE !in word
    ensures Split(Quote(word) + rest, QUOTE) == ["", word + "*"] + Split(rest, QUOTE)
  {
    SplitTwice("", word + "*", QUOTE, rest);
    assert Quote(word) + rest == "" + [QUOTE] + (word + "*" + [QUOTE] + rest);
  }

  /** What stands before the first quote does not matter. */
  lemma StartIsNoTerm(a: string, b: string, sep: char, inner: string)
    requires sep !in a && sep !in b
    ensures EverySecond(Split(a + [sep] + inner, sep)) == EverySecond(Split(b + [sep] + inner, sep))
  {
    SplitAt(a, sep, inner);
    SplitAt(b, sep, inner);
    var x, y := [a] + Split(inner, sep), [b] + Split(inner, sep);
    assert x[1] == y[1] && x[2..] == y[2..];
  }

  lemma {:induction false} ReadsBack(words: seq<string>, between: string)
    requires words != [] && Unquoted(words) && QUOTE !in between
    ensures Prefixes(JoinWith(between, QuoteEach(words))) == words
    decreases |words|
  {
    var quoted, rest := QuoteEach(words), words[1..];
    QuoteFirst(words);
    if rest == [] {
      assert quoted == [Quote(words[0])] && Quote(words[0]) == Quote(words[0]) + "";
      SplitQuoted(words[0], "");
      OneTerm(words[0], [""]);
    } else {
      assert quoted[1..] == QuoteEach(rest);
      QuoteFirst(rest);
      var tail := JoinWith(between, QuoteEach(rest));
      assert JoinWith(between, quoted) == Quote(words[0]) + (between + tail);
      SplitQuoted(words[0], between + tail);
      assert tail[0] == QUOTE;
      SpliceBetween(between, tail, QUOTE);
      OneTerm(words[0], Split(between + tail, QUOTE));
      ReadsBack(rest, between);
      assert words == [words[0]] + rest;
    }
  }

  lemma OneTerm(word: string, more: seq<string>)
    ensures Unstarred(EverySecond(["", word + "*"] + more)) == [word] + Unstarred(EverySecond(more))
  {
    var pieces := ["", word + "*"] + more;
    assert pieces[2..] == more;
    assert ([word + "*"] + EverySecond(more))[1..] == EverySecond(more);
    assert (word + "*")[..|word|] == word;
  }

  /** The word between two terms stands where nothing stands before the first. */
  lemma SpliceBetween(between: string, tail: string, sep: char)
    requires tail != "" && tail[0] == sep && sep !in between
    ensures EverySecond(Split(between + tail, sep)) == EverySecond(Split(tail, sep))
  {
    StartIsNoTerm(between, "", sep, tail[1..]);
    assert tail == "" + [sep] + tail[1..] && between + tail == between + [sep] + tail[1..];
  }

  // ---- which words ----

  /** The letters and digits of a text, in upper case: a word, if they are two or more. */
  lemma {:induction false} SanitizedExactly(value: string, chars: Characters)
    ensures (forall c <- value :: chars.isLetterOrDigit(c)) ==>
              && |SanitizeFullTextToken(value, chars)| == |value|
              && forall i :: 0 <= i < |value| ==> SanitizeFullTextToken(value, chars)[i] == chars.upper(value[i])
    ensures (forall c <- value :: !chars.isLetterOrDigit(c)) ==> SanitizeFullTextToken(value, chars) == ""
    ensures forall d <- SanitizeFullTextToken(value, chars) ::
              exists c <- value :: chars.isLetterOrDigit(c) && d == chars.upper(c)
  {
    if value != "" {
      SanitizedExactly(value[1..], chars);
      assert value == [value[0]] + value[1..];
    }
  }

  /** A word of the search: two letters or digits or more between two blanks. */
  ghost predicate IsWord(word: string, rawValue: string, chars: Characters) {
    |word| >= 2 && exists piece <- Split(rawValue, ' ') :: SanitizeFullTextToken(piece, chars) == word
  }

  lemma {:induction false} WordsExactly(parts: seq<string>, chars: Characters, word: string)
    ensures word in Words(parts, chars) <==>
            |word| >= 2 && exists part <- parts :: SanitizeFullTextToken(part, chars) == word
  {
    if parts != [] {
      var first := SanitizeFullTextToken(parts[0], chars);
      WordsExactly(parts[1..], chars, word);
      assert word in Words(parts, chars) <==> (|first| >= 2 && word == first) || word in Words(parts[1..], chars);
      if exists part <- parts[1..] :: SanitizeFullTextToken(part, chars) == word {
        var part :| part in parts[1..] && SanitizeFullTextToken(part, chars) == word;
        assert part in parts;
      }
      if exists part <- parts :: SanitizeFullTextToken(part, chars) == word {
        var part :| part in parts && SanitizeFullTextToken(part, chars) == word;
        assert part == parts[0] || part in parts[1..];
      }
      assert parts[0] in parts;
    }
  }

  /** The first word comes before the other one in the search. */
  predicate ComesBefore(word: string, other: string, rawValue: string, chars: Characters) {
    var words := Words(Split(rawValue, ' '), chars);
    word in words && other in words && First(words, word) < First(words, other)
  }

  lemma EarlierInPrefix(texts: seq<string>, n: nat, word: string, other: string)
    requires n <= |DropLater(texts)| && word in DropLater(texts)[..n] && other in texts && other !in DropLater(texts)[..n]
    ensures word in texts && First(texts, word) < First(texts, other)
  {
    DropLaterMeaning(texts);
    var d := DropLater(texts);
    var i :| 0 <= i < n && d[..n][i] == word;
    forall k | 0 <= k < n ensures d[k] in d[..n] { assert d[..n][k] == d[k]; }
    var j :| 0 <= j < |d| && d[j] == other;
    assert d[i] == word && i < n <= j;
  }

  /** The condition asks for words of the search, each once: for all of them if they are less than eight, and else for the
      first eight. */
  lemma TokensExactly(rawValue: string, chars: Characters)
    requires NoWhiteSpaceInWords(chars)
    ensures var tokens := Tokens(rawValue, chars);
            && |tokens| <= 8 && (forall i, j :: 0 <= i < j < |tokens| ==> tokens[i] != tokens[j])
            && (forall word <- tokens :: IsWord(word, rawValue, chars))
            && (|tokens| < 8 ==> forall word :: IsWord(word, rawValue, chars) ==> word in tokens)
            && (forall word, other :: word in tokens && IsWord(other, rawValue, chars) && other !in tokens ==>
                  ComesBefore(word, other, rawValue, chars))
  {
    var words := Words(Split(rawValue, ' '), chars);
    WordsOfEntries(Split(rawValue, ' '), chars);
    DropLaterMeaning(words);
    forall word: string ensures word in words <==> IsWord(word, rawValue, chars) {
      WordsExactly(Split(rawValue, ' '), chars, word);
    }
    var tokens := Tokens(rawValue, chars);
    forall word | word in tokens ensures IsWord(word, rawValue, chars) { assert word in DropLater(words); }
    forall word, other | word in tokens && IsWord(other, rawValue, chars) && other !in tokens
      ensures ComesBefore(word, other, rawValue, chars)
    {
      EarlierInPrefix(words, |tokens|, word, other);
    }
  }

  /** A row meets the condition of a search exactly if, for each of these words, one of its own begins with it; and there is
      no condition exactly if the search has no word. */
  lemma MeetsExactly(rawValue: string, chars: Characters, row: seq<string>)
    requires NoWhiteSpaceInWords(chars) && forall c :: chars.isLetterOrDigit(c) ==> chars.upper(c) != QUOTE
    ensures var condition := Condition(rawValue, chars);
            && (condition.None? <==> forall word :: !IsWord(word, rawValue, chars))
            && (condition.Some? ==>
                  (Meets(row, condition.value) <==>
                     forall token <- Tokens(rawValue, chars) :: exists word <- row :: token <= word))
  {
    var tokens := Tokens(rawValue, chars);
    TokensExactly(rawValue, chars);
    if tokens != [] {
      forall i | 0 <= i < |tokens| ensures QUOTE !in tokens[i] {
        assert tokens[i] in tokens;
        var piece :| piece in Split(rawValue, ' ') && SanitizeFullTextToken(piece, chars) == tokens[i];
        SanitizedExactly(piece, chars);
      }
      ReadsBack(tokens, " AND ");
      assert IsWord(tokens[0], rawValue, chars);
    }
  }
}
