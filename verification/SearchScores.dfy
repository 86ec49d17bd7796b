/** What a post's score is made of, text by text, and that matching better never scores less. */
module SearchScores {
  import opened Wrappers
  import opened Text
  import opened SearchRanking

  // ---- what a query stands for ----

  /** The token, or a singular that has the token as its plural. */
  predicate IsVariant(word: string, token: string) {
    || word == token
    || (|token| > 2 && word + "s" == token)
    || (|token| > 3 && word + "es" == token)
    || (|token| > 3 && word != "" && word[|word| - 1] == 'y' && word[..|word| - 1] + "ies" == token)
  }

  lemma VariantsOfOne(token: string, word: string)
    ensures word in EnglishWordVariants(token) <==> IsVariant(word, token)
  {
    EndsExactly(token, "s", word);
    EndsExactly(token, "es", word);
    if word != "" && word[|word| - 1] == 'y' {
      EndsExactly(token, "ies", word[..|word| - 1]);
      assert word == word[..|word| - 1] + "y";
    }
  }

  lemma EndsExactly(s: string, end: string, front: string)
    ensures EndsWith(s, end) && s[..|s| - |end|] == front <==> front + end == s
  {
    if EndsWith(s, end) { assert s == s[..|s| - |end|] + s[|s| - |end|..]; }
    if front + end == s { assert s[|front|..] == end && s[..|front|] == front; }
  }

  lemma {:induction false} VariantsExactly(tokens: seq<string>, word: string)
    ensures word in Variants(tokens) <==> exists i :: 0 <= i < |tokens| && IsVariant(word, tokens[i])
  {
    if tokens != [] {
      VariantsOfOne(tokens[0], word);
      VariantsExactly(tokens[1..], word);
      if i: int :| 0 <= i < |tokens| && IsVariant(word, tokens[i]) {
        if i > 0 { assert tokens[1..][i - 1] == tokens[i]; }
      }
    }
  }

  lemma {:induction false} IntentsExactly(query: string, intents: seq<Intent>, intent: Intent)
    ensures intent in ActiveIntents(query, intents) <==>
            intent in intents && exists term <- intent.queryTerms :: HasTerm(query, term)
  {
    if intents != [] {
      IntentsExactly(query, intents[1..], intent);
      assert intents == [intents[0]] + intents[1..];
    }
  }

  lemma {:induction false} QueryTermsExactly(active: seq<Intent>, word: string)
    ensures word in QueryTerms(active) <==> exists intent <- active :: word in intent.queryTerms
  {
    if active != [] {
      QueryTermsExactly(active[1..], word);
      assert active == [active[0]] + active[1..];
    }
  }

  /** A query has its words, and stands for their singulars and for every term of the intents that one of their terms
      brings up; it asks for something cheap or fine if it has a term for that. */
  lemma ContextExactly(query: string, words: Vocabulary, word: string, intent: Intent)
    ensures BuildQueryContext(query, words).None? <==> query == ""
    ensures query != "" ==>
              var c := BuildQueryContext(query, words).value;
              && c.query == query && c.tokens == Tokens(query) && "" !in c.tokens
              && (intent in c.intents <==>
                    intent in words.intents && exists term <- intent.queryTerms :: HasTerm(query, term))
              && (word in c.expanded <==>
                    || (exists i :: 0 <= i < |c.tokens| && IsVariant(word, c.tokens[i]))
                    || (exists active <- c.intents :: word in active.queryTerms))
              && (c.affordable <==> exists term <- words.affordable :: HasTerm(query, term))
              && (c.premium <==> exists term <- words.premium :: HasTerm(query, term))
  {
    PartsAreNotEmpty(Split(query, ' '));
    IntentsExactly(query, words.intents, intent);
    VariantsExactly(Tokens(query), word);
    QueryTermsExactly(ActiveIntents(query, words.intents), word);
    DropLaterMeaning(Variants(Tokens(query)) + QueryTerms(ActiveIntents(query, words.intents)));
  }

  /** A term of one word is one of the words of the text; a longer one is contained in it. */
  lemma TermExactly(text: string, term: string)
    ensures HasTerm(text, term) <==>
            term != "" && (if |SplitNonEmpty(term, ' ')| > 1 then exists i :: 0 <= i <= |text| && term <= text[i..]
                           else term in SplitNonEmpty(text, ' '))
  {}

  /** Without a query the posts that are neither sold nor deleted come out, all of them and in the order they came in. */
  lemma {:induction false} ActiveExactly(before: seq<Post>, p: Post, after: seq<Post>)
    ensures RankPostsBySearch(before + [p] + after, None) ==
            RankPostsBySearch(before, None) + (if p.status == "SOLD" || p.status == "DELETED" then [] else [p])
            + RankPostsBySearch(after, None)
  {
    if before == [] {
      assert [] + [p] + after == [p] + after && ([p] + after)[1..] == after;
    } else {
      assert (before + [p] + after)[1..] == before[1..] + [p] + after;
      ActiveExactly(before[1..], p, after);
    }
  }

  // ---- the score, text by text ----

  /** How many of the words the text contains, repeated ones counted again. */
  function Hits(text: string, words: seq<string>): nat {
    if words == [] then 0
    else Hits(text, words[..|words| - 1]) + if Includes(text, words[|words| - 1]) then 1 else 0
  }

  /** The words that the query stands for but does not hold. */
  function Extra(words: seq<string>, tokens: seq<string>): seq<string> {
    if words == [] then []
    else
      Extra(words[..|words| - 1], tokens)
      + if words[|words| - 1] in tokens then [] else [words[|words| - 1]]
  }

  predicate InCategory(p: Post, intent: Intent) {
    exists term <- intent.categoryTerms :: HasTerm(p.category, term)
  }

  predicate InListing(p: Post, intent: Intent) {
    exists term <- intent.listingTerms :: HasTerm(p.name, term) || HasTerm(p.description, term)
  }

  /** How many of the intents the post answers by its category and its listing, by its category alone, by its listing
      alone. */
  function Answered(p: Post, intents: seq<Intent>): (nat, nat, nat) {
    if intents == [] then (0, 0, 0)
    else
      var (both, category, listing) := Answered(p, intents[..|intents| - 1]);
      var last := intents[|intents| - 1];
      if InCategory(p, last) && InListing(p, last) then (both + 1, category, listing)
      else if InCategory(p, last) then (both, category + 1, listing)
      else if InListing(p, last) then (both, category, listing + 1)
      else (both, category, listing)
  }

  lemma HitsOneMore(text: string, words: seq<string>, word: string)
    ensures Hits(text, words + [word]) == Hits(text, words) + if Includes(text, word) then 1 else 0
  {
    assert (words + [word])[..|words|] == words;
  }

  lemma {:induction false} TokensByText(p: Post, tokens: seq<string>)
    requires "" !in tokens
    ensures Sum(tokens, (token: string) => TokenPoints(p, token)) ==
            60 * Hits(p.category, tokens) + 50 * Hits(p.name, tokens) + 24 * Hits(p.description, tokens)
            + 16 * Hits(p.location, tokens) + 10 * Hits(p.seller, tokens)
  {
    if tokens != [] { TokensByText(p, tokens[..|tokens| - 1]); }
  }

  lemma {:induction false} ExpandedByText(p: Post, c: QueryContext, words: seq<string>)
    ensures var extra := Extra(words, c.tokens);
            Sum(words, (token: string) => ExpandedPoints(p, c, token)) ==
            34 * Hits(p.category, extra) + 24 * Hits(p.name, extra) + 12 * Hits(p.description, extra)
  {
    if words != [] {
      var front, last := words[..|words| - 1], words[|words| - 1];
      ExpandedByText(p, c, front);
      assert Extra(front, c.tokens) + [] == Extra(front, c.tokens);
      if last !in c.tokens {
        HitsOneMore(p.category, Extra(front, c.tokens), last);
        HitsOneMore(p.name, Extra(front, c.tokens), last);
        HitsOneMore(p.description, Extra(front, c.tokens), last);
      }
    }
  }

  lemma IntentExactly(p: Post, intent: Intent)
    ensures IntentPoints(p, intent) ==
            if InCategory(p, intent) && InListing(p, intent) then 240 else if InCategory(p, intent) then 190
            else if InListing(p, intent) then 130 else 0
  {
    if InListing(p, intent) {
      var term :| term in intent.listingTerms && (HasTerm(p.name, term) || HasTerm(p.description, term));
      assert HasAnyTerm(p.name, intent.listingTerms) || HasAnyTerm(p.description, intent.listingTerms);
    }
  }

  lemma {:induction false} IntentsByAnswer(p: Post, intents: seq<Intent>)
    ensures var (both, category, listing) := Answered(p, intents);
            Sum(intents, (intent: Intent) => IntentPoints(p, intent)) == 240 * both + 190 * category + 130 * listing
  {
    if intents != [] {
      IntentsByAnswer(p, intents[..|intents| - 1]);
      IntentExactly(p, intents[|intents| - 1]);
    }
  }

  /** The text starts with the query; a query of one word must be its first word. */
  predicate Starts(text: string, c: QueryContext) {
    c.query <= text && (|c.tokens| == 1 ==> Tokens(text) != [] && Tokens(text)[0] == c.query)
  }

  /** The points for the query as a whole, in the name and in the category. */
  function WholePoints(text: string, c: QueryContext, exact: int, start: int, inside: int): int {
    if text == c.query then exact else if Starts(text, c) then start else if Includes(text, c.query) then inside else 0
  }

  /** The relevance of a post, text by text: for the whole query, for its words, for the words it stands for, for what it
      is after, and for the price. */
  lemma RelevanceByText(p: Post, c: QueryContext)
    requires "" !in c.tokens
    ensures var extra := Extra(c.expanded, c.tokens);
            var (both, category, listing) := Answered(p, c.intents);
            Relevance(p, c) ==
            WholePoints(p.name, c, 280, 210, 160) + 50 * Hits(p.name, c.tokens) + 24 * Hits(p.name, extra)
            + WholePoints(p.category, c, 260, 200, 150) + 60 * Hits(p.category, c.tokens) + 34 * Hits(p.category, extra)
            + 80 * Hits(p.description, [c.query]) + 24 * Hits(p.description, c.tokens) + 12 * Hits(p.description, extra)
            + 40 * Hits(p.location, [c.query]) + 16 * Hits(p.location, c.tokens)
            + 30 * Hits(p.seller, [c.query]) + 10 * Hits(p.seller, c.tokens)
            + 240 * both + 190 * category + 130 * listing + PricePoints(p, c)
  {
    TokensByText(p, c.tokens);
    ExpandedByText(p, c, c.expanded);
    IntentsByAnswer(p, c.intents);
    WholeQueryByText(p, c);
  }

  lemma HitsOfOne(text: string, word: string)
    ensures Hits(text, [word]) == if Includes(text, word) then 1 else 0
  {
    HitsOneMore(text, [], word);
    assert [] + [word] == [word];
  }

  lemma WholeName(name: string, c: QueryContext)
    ensures NamePoints(name, c) == WholePoints(name, c, 280, 210, 160)
  {}

  lemma WholeCategory(category: string, c: QueryContext)
    ensures CategoryPoints(category, c) == WholePoints(category, c, 260, 200, 150)
  {}

  lemma WholeQueryByText(p: Post, c: QueryContext)
    ensures QueryPoints(p, c) ==
            WholePoints(p.name, c, 280, 210, 160) + WholePoints(p.category, c, 260, 200, 150)
            + 80 * Hits(p.description, [c.query]) + 40 * Hits(p.location, [c.query]) + 30 * Hits(p.seller, [c.query])
  {
    WholeName(p.name, c);
    WholeCategory(p.category, c);
    HitsOfOne(p.description, c.query);
    HitsOfOne(p.location, c.query);
    HitsOfOne(p.seller, c.query);
  }

  /** The price counts only when the query asks for something cheap or something fine. */
  lemma PriceExactly(p: Post, c: QueryContext)
    ensures (p.price.None? || p.price.value <= 0.0) || (!c.affordable && !c.premium) ==> PricePoints(p, c) == 0
    ensures p.price.Some? && p.price.value > 0.0 ==>
              var cheap := if p.price.value <= 1000.0 then 22 else if p.price.value <= 5000.0 then 12
                           else if p.price.value <= 10000.0 then 4 else -8;
              var fine := if p.price.value >= 20000.0 then 16 else if p.price.value >= 10000.0 then 10
                          else if p.price.value >= 5000.0 then 5 else 0;
              PricePoints(p, c) == (if c.affordable then cheap else 0) + (if c.premium then fine else 0)
  {}

  /** The boosts: for an age of up to 7, 30 and 90 days; for pictures, description and phone; for views. */
  lemma BoostsExactly(p: Post, c: QueryContext, around: Surroundings)
    ensures p.createdAt == 0 ==> RecencyBoost(p.createdAt, around.now) == 0
    ensures p.createdAt != 0 ==>
              var age := around.now - p.createdAt;
              RecencyBoost(p.createdAt, around.now) ==
              if age > 7_776_000_000 then 0 else if age > 2_592_000_000 then 4 else if age > 604_800_000 then 8 else 12
    ensures ListingQualityBoost(p) ==
            (if p.images == 0 then -4 else if p.images == 1 then 3 else if p.images < 4 then 6 else 10)
            + (if |p.description| == 0 then -2 else if |p.description| < 30 then 2 else if |p.description| < 80 then 5 else 8)
            + (if p.hasPhone then 2 else 0)
    ensures p.views <= 0 ==> ViewsBoost(p.views, around) == 0.0
    ensures p.views > 0 ==>
              var points := 3.0 * around.log10(p.views + 1);
              ViewsBoost(p.views, around) == if points > 8.0 then 8.0 else points
    ensures var points := 4.0 * around.log10(1 + if p.views < 0 then 0 else p.views);
            PremiumViews(p, c, around) == if !c.premium then 0.0 else if points > 10.0 then 10.0 else points
  {}

  /** The score is the relevance and the boosts, and nothing without relevance. */
  lemma ScoreExactly(p: Post, c: QueryContext, around: Surroundings)
    ensures Relevance(p, c) > 0 ==>
              Score(p, c, around) == (Relevance(p, c) + RecencyBoost(p.createdAt, around.now) + ListingQualityBoost(p)) as real
                                     + ViewsBoost(p.views, around) + PremiumViews(p, c, around)
    ensures Relevance(p, c) <= 0 ==> Score(p, c, around) == 0.0
  {}

  // ---- an exact name beats a mere occurrence ----

  /** The two names hold the same words of the query, and the same of the words it stands for. */
  predicate SameWords(a: string, b: string, p: Post, c: QueryContext) {
    && Hits(a, c.tokens) == Hits(b, c.tokens)
    && Hits(a, Extra(c.expanded, c.tokens)) == Hits(b, Extra(c.expanded, c.tokens))
    && Answered(p.(name := a), c.intents) == Answered(p.(name := b), c.intents)
  }

  lemma ExactNameGap(p: Post, c: QueryContext, other: string)
    requires "" !in c.tokens
    requires other != c.query && Includes(other, c.query) && SameWords(c.query, other, p, c)
    ensures Relevance(p.(name := c.query), c) == Relevance(p.(name := other), c) + if Starts(other, c) then 70 else 120
  {
    RelevanceByText(p.(name := c.query), c);
    RelevanceByText(p.(name := other), c);
  }

  lemma HoldingIsRelevant(p: Post, c: QueryContext)
    requires Includes(p.name, c.query)
    ensures Relevance(p, c) > 0
  {
    RelevanceAtLeast(p, c);
  }

  lemma GapInRelevance(p: Post, q: Post, c: QueryContext, around: Surroundings, gap: nat)
    requires Relevance(q, c) > 0 && Relevance(p, c) == Relevance(q, c) + gap && q == p.(name := q.name)
    ensures Score(p, c, around) == Score(q, c, around) + gap as real
  {
    ScoreExactly(p, c, around);
    ScoreExactly(q, c, around);
    assert ListingQualityBoost(p) == ListingQualityBoost(q) && PremiumViews(p, c, around) == PremiumViews(q, c, around);
  }

  /** Of two posts that differ only in the name, and whose names hold the same words, the one that is named like the query
      scores 70 points more than one whose name starts with it, and 120 more than one whose name just contains it. */
  lemma ExactNameWins(p: Post, c: QueryContext, around: Surroundings, other: string)
    requires "" !in c.tokens
    requires other != c.query && Includes(other, c.query) && SameWords(c.query, other, p, c)
    ensures Score(p.(name := c.query), c, around) ==
            Score(p.(name := other), c, around) + if Starts(other, c) then 70.0 else 120.0
  {
    ExactNameGap(p, c, other);
    HoldingIsRelevant(p.(name := other), c);
    GapInRelevance(p.(name := c.query), p.(name := other), c, around, if Starts(other, c) then 70 else 120);
  }

  // ---- matching better never scores less ----

  /** The second text holds the query at least as well as the first one: as the whole, at its start, or inside. */
  predicate HoldsBetter(a: string, b: string, c: QueryContext) {
    || b == c.query
    || (Starts(b, c) && a != c.query)
    || (Includes(b, c.query) && a != c.query && !Starts(a, c))
    || !(a == c.query || Starts(a, c) || Includes(a, c.query))
  }

  /** Every word that the first text contains, of those that count, the second one contains too. */
  predicate HoldsWords(a: string, b: string, words: seq<string>) {
    forall word <- words :: Includes(a, word) ==> Includes(b, word)
  }

  lemma {:induction false} MoreHits(a: string, b: string, words: seq<string>)
    requires HoldsWords(a, b, words)
    ensures Hits(a, words) <= Hits(b, words)
  {
    if words != [] { MoreHits(a, b, words[..|words| - 1]); }
  }

  /** Post q matches the query at least as well as p in every text, and costs the same. */
  predicate MatchesBetter(p: Post, q: Post, c: QueryContext) {
    var words := c.tokens + Extra(c.expanded, c.tokens) + [c.query];
    && HoldsBetter(p.name, q.name, c) && HoldsBetter(p.category, q.category, c)
    && HoldsWords(p.name, q.name, words) && HoldsWords(p.category, q.category, words)
    && HoldsWords(p.description, q.description, words) && HoldsWords(p.location, q.location, words)
    && HoldsWords(p.seller, q.seller, words) && q.price == p.price
    && forall intent <- c.intents :: (InCategory(p, intent) ==> InCategory(q, intent))
                                     && (InListing(p, intent) ==> InListing(q, intent))
  }

  lemma BetterWhole(a: string, b: string, c: QueryContext, exact: int, start: int, inside: int)
    requires HoldsBetter(a, b, c) && exact >= start >= inside >= 0
    ensures WholePoints(a, c, exact, start, inside) <= WholePoints(b, c, exact, start, inside)
  {}

  lemma MoreHitsOfEach(a: string, b: string, c: QueryContext)
    requires HoldsWords(a, b, c.tokens + Extra(c.expanded, c.tokens) + [c.query])
    ensures Hits(a, c.tokens) <= Hits(b, c.tokens)
    ensures Hits(a, Extra(c.expanded, c.tokens)) <= Hits(b, Extra(c.expanded, c.tokens))
    ensures Hits(a, [c.query]) <= Hits(b, [c.query])
  {
    MoreHits(a, b, c.tokens);
    MoreHits(a, b, Extra(c.expanded, c.tokens));
    MoreHits(a, b, [c.query]);
  }

  lemma {:induction false} BetterAnswers(p: Post, q: Post, intents: seq<Intent>)
    requires forall intent <- intents :: (InCategory(p, intent) ==> InCategory(q, intent))
                                         && (InListing(p, intent) ==> InListing(q, intent))
    ensures var (both, category, listing) := Answered(p, intents);
            var (both', category', listing') := Answered(q, intents);
            240 * both + 190 * category + 130 * listing <= 240 * both' + 190 * category' + 130 * listing'
  {
    if intents != [] {
      assert intents[|intents| - 1] in intents;
      BetterAnswers(p, q, intents[..|intents| - 1]);
    }
  }

  lemma SamePrice(p: Post, q: Post, c: QueryContext)
    requires q.price == p.price
    ensures PricePoints(q, c) == PricePoints(p, c)
  {}

  lemma BetterIsMoreRelevant(p: Post, q: Post, c: QueryContext)
    requires "" !in c.tokens && MatchesBetter(p, q, c)
    ensures Relevance(p, c) <= Relevance(q, c)
  {
    RelevanceByText(p, c);
    RelevanceByText(q, c);
    BetterWhole(p.name, q.name, c, 280, 210, 160);
    BetterWhole(p.category, q.category, c, 260, 200, 150);
    MoreHitsOfEach(p.name, q.name, c);
    MoreHitsOfEach(p.category, q.category, c);
    MoreHitsOfEach(p.description, q.description, c);
    MoreHitsOfEach(p.location, q.location, c);
    MoreHitsOfEach(p.seller, q.seller, c);
    BetterAnswers(p, q, c.intents);
    SamePrice(p, q, c);
  }

  /** The logarithm grows. */
  ghost predicate LogGrows(around: Surroundings) {
    forall m, n :: 1 <= m <= n ==> around.log10(m) <= around.log10(n)
  }

  /** Post q is at least as new, as much viewed, as well illustrated and described as p. */
  predicate Presents(p: Post, q: Post) {
    && (p.createdAt != 0 ==> q.createdAt != 0 && q.createdAt >= p.createdAt) && q.views >= p.views
    && q.images >= p.images && |q.description| >= |p.description| && (p.hasPhone ==> q.hasPhone)
  }

  lemma BetterBoosts(p: Post, q: Post, c: QueryContext, around: Surroundings)
    requires LogIsNotNegative(around) && LogGrows(around) && Presents(p, q)
    ensures RecencyBoost(p.createdAt, around.now) <= RecencyBoost(q.createdAt, around.now)
    ensures ListingQualityBoost(p) <= ListingQualityBoost(q)
    ensures ViewsBoost(p.views, around) <= ViewsBoost(q.views, around)
    ensures PremiumViews(p, c, around) <= PremiumViews(q, c, around)
  {
    assert p.views > 0 ==> around.log10(p.views + 1) <= around.log10(q.views + 1);
    assert around.log10((if p.views > 0 then p.views else 0) + 1) <= around.log10((if q.views > 0 then q.views else 0) + 1);
    assert q.views > 0 ==> around.log10(q.views + 1) >= 0.0;
  }

  /** A post that matches the query at least as well in every text, costs the same and is presented at least as well never
      scores less than another that has any relevance. */
  lemma BetterMatchScoresNoLess(p: Post, q: Post, c: QueryContext, around: Surroundings)
    requires LogIsNotNegative(around) && LogGrows(around) && "" !in c.tokens
    requires MatchesBetter(p, q, c) && Presents(p, q) && Relevance(p, c) > 0
    ensures Score(p, c, around) <= Score(q, c, around)
  {
    BetterIsMoreRelevant(p, q, c);
    BetterBoosts(p, q, c, around);
    ScoreExactly(p, c, around);
    ScoreExactly(q, c, around);
  }
}
