/** Ranking of posts for a search: their scores, and the order of the ranked list. */
module SearchRanking {
  import opened Wrappers
  import opened Text
  import opened Ordering

  /** A post with its texts normalised for search; `createdAt` is 0 when there is no valid date. */
  datatype Post = Post(name: string, category: string, location: string, seller: string, description: string,
                       images: nat, hasPhone: bool, price: Option<real>, createdAt: int, views: int, status: string)

  datatype Intent = Intent(queryTerms: seq<string>, categoryTerms: seq<string>, listingTerms: seq<string>)

  /** The fixed terms of the search, normalised: intents, and what asks for something cheap or something fine. */
  datatype Vocabulary = Vocabulary(intents: seq<Intent>, affordable: seq<string>, premium: seq<string>)

  datatype QueryContext = QueryContext(query: string, tokens: seq<string>, expanded: seq<string>,
                                       intents: seq<Intent>, affordable: bool, premium: bool)

  /** The clock and the logarithm, fixed during one ranking. */
  datatype Surroundings = Surroundings(now: int, log10: int -> real)

  ghost predicate LogIsNotNegative(around: Surroundings) {
    forall n :: n >= 1 ==> around.log10(n) >= 0.0
  }

  predicate Includes(s: string, part: string) {
    exists i :: 0 <= i <= |s| && part <= s[i..]
  }

  function Tokens(s: string): seq<string> {
    SplitNonEmpty(s, ' ')
  }

  predicate IsActivePost(post: Post) {
    post.status != "SOLD" && post.status != "DELETED"
  }

  predicate HasTerm(text: string, term: string) {
    term != "" && (if |Tokens(term)| <= 1 then term in Tokens(text) else Includes(text, term))
  }

  predicate HasAnyTerm(text: string, terms: seq<string>) {
    exists term <- terms :: HasTerm(text, term)
  }

  // ---- what a query asks for ----

  predicate EndsWith(s: string, end: string) {
    |end| <= |s| && s[|s| - |end|..] == end
  }

  /** The token, and what it may be a plural of. */
  function EnglishWordVariants(token: string): seq<string> {
    [token]
    + (if |token| > 3 && EndsWith(token, "ies") then [token[..|token| - 3] + "y"] else [])
    + (if |token| > 3 && EndsWith(token, "es") then [token[..|token| - 2]] else [])
    + (if |token| > 2 && EndsWith(token, "s") then [token[..|token| - 1]] else [])
  }

  function Variants(tokens: seq<string>): seq<string> {
    if tokens == [] then [] else EnglishWordVariants(tokens[0]) + Variants(tokens[1..])
  }

  function ActiveIntents(query: string, intents: seq<Intent>): seq<Intent> {
    if intents == [] then []
    else (if HasAnyTerm(query, intents[0].queryTerms) then [intents[0]] else []) + ActiveIntents(query, intents[1..])
  }

  function QueryTerms(active: seq<Intent>): seq<string> {
    if active == [] then [] else active[0].queryTerms + QueryTerms(active[1..])
  }

  /** From the normalised text of the query; none for an empty one. */
  function BuildQueryContext(query: string, words: Vocabulary): Option<QueryContext> {
    if query == "" then None
    else
      var active := ActiveIntents(query, words.intents);
      Some(QueryContext(query, Tokens(query), DropLater(Variants(Tokens(query)) + QueryTerms(active)), active,
                        HasAnyTerm(query, words.affordable), HasAnyTerm(query, words.premium)))
  }

  // ---- the score ----

  function If(b: bool, points: int): int { if b then points else 0 }

  predicate PrefixMatch(field: string, c: QueryContext) {
    && c.query <= field
    && (|c.tokens| == 1 ==> c.query in Tokens(field) && Tokens(field)[0] == c.query)
  }

  function NamePoints(name: string, c: QueryContext): int {
    if name == c.query then 280 else if PrefixMatch(name, c) then 210 else If(Includes(name, c.query), 160)
  }

  function CategoryPoints(category: string, c: QueryContext): int {
    if category == c.query then 260 else if PrefixMatch(category, c) then 200 else If(Includes(category, c.query), 150)
  }

  function QueryPoints(p: Post, c: QueryContext): int {
    NamePoints(p.name, c) + CategoryPoints(p.category, c) + If(Includes(p.description, c.query), 80)
    + If(Includes(p.location, c.query), 40) + If(Includes(p.seller, c.query), 30)
  }

  function TokenPoints(p: Post, token: string): int {
    if token == "" then 0
    else
      If(Includes(p.category, token), 60) + If(Includes(p.name, token), 50) + If(Includes(p.description, token), 24)
      + If(Includes(p.location, token), 16) + If(Includes(p.seller, token), 10)
  }

  function ExpandedPoints(p: Post, c: QueryContext, token: string): int {
    if token in c.tokens then 0
    else If(Includes(p.category, token), 34) + If(Includes(p.name, token), 24) + If(Includes(p.description, token), 12)
  }

  function IntentPoints(p: Post, intent: Intent): int {
    var inCategory := HasAnyTerm(p.category, intent.categoryTerms);
    var inListing := HasAnyTerm(p.name, intent.listingTerms) || HasAnyTerm(p.description, intent.listingTerms);
    if inCategory && inListing then 240 else if inCategory then 190 else If(inListing, 130)
  }

  function Sum<T>(xs: seq<T>, points: T -> int): int {
    if xs == [] then 0 else Sum(xs[..|xs| - 1], points) + points(xs[|xs| - 1])
  }

  function AffordablePoints(price: real): int {
    if price <= 1000.0 then 22 else if price <= 5000.0 then 12 else if price <= 10000.0 then 4 else -8
  }

  function PremiumPoints(price: real): int {
    if price >= 20000.0 then 16 else if price >= 10000.0 then 10 else If(price >= 5000.0, 5)
  }

  function PricePoints(p: Post, c: QueryContext): int {
    if p.price.None? || p.price.value <= 0.0 then 0
    else
      (if c.affordable then AffordablePoints(p.price.value) else 0)
      + (if c.premium then PremiumPoints(p.price.value) else 0)
  }

  /** Points for what matches, before any boost. */
  function Relevance(p: Post, c: QueryContext): int {
    QueryPoints(p, c) + Sum(c.tokens, (token: string) => TokenPoints(p, token))
    + Sum(c.expanded, (token: string) => ExpandedPoints(p, c, token))
    + Sum(c.intents, (intent: Intent) => IntentPoints(p, intent)) + PricePoints(p, c)
  }

  const DAY := 86_400_000

  function RecencyBoost(createdAt: int, now: int): int {
    if createdAt == 0 then 0
    else if now - createdAt <= 7 * DAY then 12
    else if now - createdAt <= 30 * DAY then 8
    else If(now - createdAt <= 90 * DAY, 4)
  }

  function Min(a: real, b: real): real { if a <= b then a else b }

  function ViewsBoost(views: int, around: Surroundings): real {
    if views <= 0 then 0.0 else Min(8.0, around.log10(views + 1) * 3.0)
  }

  function ListingQualityBoost(p: Post): int {
    (if p.images >= 4 then 10 else if p.images >= 2 then 6 else if p.images == 1 then 3 else -4)
    + (if |p.description| >= 80 then 8 else if |p.description| >= 30 then 5 else if |p.description| > 0 then 2 else -2)
    + If(p.hasPhone, 2)
  }

  function PremiumViews(p: Post, c: QueryContext, around: Surroundings): real {
    if c.premium then Min(10.0, around.log10((if p.views > 0 then p.views else 0) + 1) * 4.0) else 0.0
  }

  function Score(p: Post, c: QueryContext, around: Surroundings): real {
    if Relevance(p, c) <= 0 then 0.0
    else
      (Relevance(p, c) + RecencyBoost(p.createdAt, around.now) + ListingQualityBoost(p)) as real
      + ViewsBoost(p.views, around) + PremiumViews(p, c, around)
  }

  /** One of the loops that add to the score. */
  method AddUp<T>(start: int, xs: seq<T>, points: T -> int) returns (score: int)
    ensures score == start + Sum(xs, points)
  {
    score := start;
    for i := 0 to |xs|
      invariant score == start + Sum(xs[..i], points)
    {
      assert xs[..i + 1][..i] == xs[..i];
      score := score + points(xs[i]);
    }
    assert xs[..|xs|] == xs;
  }

  /** The score as the source accumulates it. */
  method ScorePost(p: Post, c: QueryContext, around: Surroundings) returns (score: real)
    ensures score == Score(p, c, around)
  {
    var points := QueryPoints(p, c);
    points := AddUp(points, c.tokens, (token: string) => TokenPoints(p, token));
    points := AddUp(points, c.expanded, (token: string) => ExpandedPoints(p, c, token));
    points := AddUp(points, c.intents, (intent: Intent) => IntentPoints(p, intent));
    points := points + PricePoints(p, c);
    if points <= 0 {
      return 0.0;
    }
    score := points as real;
    score := score + RecencyBoost(p.createdAt, around.now) as real;
    score := score + ViewsBoost(p.views, around);
    score := score + ListingQualityBoost(p) as real;
    if c.premium {
      score := score + Min(10.0, around.log10((if p.views > 0 then p.views else 0) + 1) * 4.0);
    }
  }

  lemma {:induction false} SumOfNonNegative<T>(xs: seq<T>, points: T -> int)
    requires forall x <- xs :: points(x) >= 0
    ensures Sum(xs, points) >= 0
  {
    if xs != [] { SumOfNonNegative(xs[..|xs| - 1], points); }
  }

  lemma {:induction false} SumOfZeros<T>(xs: seq<T>, points: T -> int)
    requires forall x <- xs :: points(x) == 0
    ensures Sum(xs, points) == 0
  {
    if xs != [] { SumOfZeros(xs[..|xs| - 1], points); }
  }

  lemma RelevanceAtLeast(p: Post, c: QueryContext)
    ensures Relevance(p, c) >= QueryPoints(p, c) - 8
  {
    SumOfNonNegative(c.tokens, (token: string) => TokenPoints(p, token));
    SumOfNonNegative(c.expanded, (token: string) => ExpandedPoints(p, c, token));
    SumOfNonNegative(c.intents, (intent: Intent) => IntentPoints(p, intent));
  }

  predicate MatchesWholeQuery(p: Post, c: QueryContext) {
    Includes(p.name, c.query) || Includes(p.category, c.query) || Includes(p.description, c.query)
    || Includes(p.location, c.query) || Includes(p.seller, c.query)
  }

  /** No penalty for price, pictures or description ever drops a post that contains the query. */
  lemma MatchIsNeverDropped(p: Post, c: QueryContext, around: Surroundings)
    requires LogIsNotNegative(around) && MatchesWholeQuery(p, c)
    ensures Score(p, c, around) > 0.0
  {
    assert QueryPoints(p, c) >= 30;
    RelevanceAtLeast(p, c);
    assert ListingQualityBoost(p) >= -6 && RecencyBoost(p.createdAt, around.now) >= 0;
    assert ViewsBoost(p.views, around) >= 0.0 && PremiumViews(p, c, around) >= 0.0;
  }

  lemma {:induction false} SumAtLeast<T>(xs: seq<T>, points: T -> int, x: T)
    requires x in xs && forall y <- xs :: points(y) >= 0
    ensures Sum(xs, points) >= points(x)
  {
    var rest, last := xs[..|xs| - 1], xs[|xs| - 1];
    assert xs == rest + [last];
    if x in rest { SumAtLeast(rest, points, x); } else { SumOfNonNegative(rest, points); }
  }

  /** The post holds the word in one of its texts. */
  predicate HoldsWord(p: Post, word: string) {
    Includes(p.name, word) || Includes(p.category, word) || Includes(p.description, word) || Includes(p.location, word)
    || Includes(p.seller, word)
  }

  /** Asked for something cheap, and dear: this costs eight points. */
  predicate TooDear(p: Post, c: QueryContext) {
    c.affordable && !c.premium && p.price.Some? && p.price.value > 10000.0
  }

  /** The one thing that drops a matching post: it is too dear, all that it earns is ten points for one word in its seller's
      name, and its age, views, pictures, description and phone take away the two points that are left. */
  predicate Outweighed(p: Post, c: QueryContext, around: Surroundings) {
    && TooDear(p, c) && Relevance(p, c) == 2
    && (RecencyBoost(p.createdAt, around.now) + ListingQualityBoost(p)) as real + ViewsBoost(p.views, around) <= -2.0
  }

  lemma PriceCosts(p: Post, c: QueryContext)
    ensures PricePoints(p, c) == -8 <==> TooDear(p, c)
    ensures PricePoints(p, c) < 0 ==> PricePoints(p, c) == -8
  {}

  /** Sums of what one token can earn. */
  lemma {:induction false} TokenSums(p: Post, tokens: seq<string>)
    ensures var sum := Sum(tokens, (token: string) => TokenPoints(p, token)); sum == 0 || sum == 10 || sum >= 16
  {
    if tokens != [] {
      TokenSums(p, tokens[..|tokens| - 1]);
      var points := TokenPoints(p, tokens[|tokens| - 1]);
      assert points == 0 || points == 10 || points >= 16;
    }
  }

  lemma {:induction false} ExpandedSums(p: Post, c: QueryContext, tokens: seq<string>)
    ensures var sum := Sum(tokens, (token: string) => ExpandedPoints(p, c, token)); sum == 0 || sum >= 12
  {
    if tokens != [] {
      ExpandedSums(p, c, tokens[..|tokens| - 1]);
      var points := ExpandedPoints(p, c, tokens[|tokens| - 1]);
      assert points == 0 || points >= 12;
    }
  }

  lemma {:induction false} IntentSums(p: Post, intents: seq<Intent>)
    ensures var sum := Sum(intents, (intent: Intent) => IntentPoints(p, intent)); sum == 0 || sum >= 130
  {
    if intents != [] {
      IntentSums(p, intents[..|intents| - 1]);
      var points := IntentPoints(p, intents[|intents| - 1]);
      assert points == 0 || points >= 130;
    }
  }

  /** What a post with a word of the query earns before its price: ten points for one word in the seller's name, or at
      least sixteen. */
  lemma EarnedByWord(p: Post, c: QueryContext, word: string)
    requires word in c.tokens && word != "" && HoldsWord(p, word)
    ensures var earned := Relevance(p, c) - PricePoints(p, c); earned == 10 || earned >= 16
  {
    SumAtLeast(c.tokens, (token: string) => TokenPoints(p, token), word);
    TokenSums(p, c.tokens);
    ExpandedSums(p, c, c.expanded);
    IntentSums(p, c.intents);
    var query := QueryPoints(p, c);
    assert query == 0 || query >= 30;
  }

  lemma BoostsAtLeast(p: Post, c: QueryContext, around: Surroundings)
    requires LogIsNotNegative(around)
    ensures ListingQualityBoost(p) >= -6 && RecencyBoost(p.createdAt, around.now) >= 0
    ensures ViewsBoost(p.views, around) >= 0.0 && PremiumViews(p, c, around) >= 0.0
  {}

  /** Exactly when a post with a word of the query has a positive score: always, unless it is outweighed. */
  lemma WordIsKeptExactly(p: Post, c: QueryContext, around: Surroundings, word: string)
    requires LogIsNotNegative(around) && word in c.tokens && word != "" && HoldsWord(p, word)
    ensures Score(p, c, around) > 0.0 <==> !Outweighed(p, c, around)
  {
    EarnedByWord(p, c, word);
    PriceCosts(p, c);
    BoostsAtLeast(p, c, around);
  }

  /** A family that is dropped: too dear, one word in the seller's name and nothing else that matches, no picture and no
      description, with or without a phone, and hardly recent or viewed. */
  lemma DearPostIsDropped(p: Post, c: QueryContext, around: Surroundings, other: string, word: string)
    requires c.tokens == [other, word] && TokenPoints(p, other) == 0 && TokenPoints(p, word) == 10
    requires !MatchesWholeQuery(p, c) && c.intents == [] && forall token <- c.expanded :: ExpandedPoints(p, c, token) == 0
    requires TooDear(p, c) && p.images == 0 && p.description == ""
    requires RecencyBoost(p.createdAt, around.now) as real + ViewsBoost(p.views, around) <= 2.0
    ensures Outweighed(p, c, around) && Score(p, c, around) <= 0.0
  {
    assert QueryPoints(p, c) == 0 by {
      assert !(c.query <= p.name) by { assert p.name[0..] == p.name; }
      assert !(c.query <= p.category) by { assert p.category[0..] == p.category; }
    }
    var points := (token: string) => TokenPoints(p, token);
    assert c.tokens[..1] == [other] && [other][..0] == [];
    assert Sum([other], points) == 0;
    assert Sum(c.tokens, points) == 10;
    SumOfZeros(c.expanded, (token: string) => ExpandedPoints(p, c, token));
    PriceCosts(p, c);
  }

  /** Recent dates, views and pictures alone rank nothing. */
  lemma NoMatchNoRank(p: Post, c: QueryContext, around: Surroundings)
    requires !MatchesWholeQuery(p, c)
    requires forall token <- c.tokens :: TokenPoints(p, token) == 0
    requires forall token <- c.expanded :: ExpandedPoints(p, c, token) == 0
    requires forall intent <- c.intents :: IntentPoints(p, intent) == 0
    requires !c.affordable && !c.premium
    ensures Score(p, c, around) == 0.0
  {
    assert !(c.query <= p.name) by { assert p.name[0..] == p.name; }
    assert !(c.query <= p.category) by { assert p.category[0..] == p.category; }
    SumOfZeros(c.tokens, (token: string) => TokenPoints(p, token));
    SumOfZeros(c.expanded, (token: string) => ExpandedPoints(p, c, token));
    SumOfZeros(c.intents, (intent: Intent) => IntentPoints(p, intent));
  }

  // ---- the order ----

  datatype Entry = Entry(post: Post, index: nat, score: real)

  predicate Before(a: Entry, b: Entry) {
    if a.score != b.score then a.score > b.score
    else if a.post.createdAt != b.post.createdAt then a.post.createdAt > b.post.createdAt
    else if a.post.views != b.post.views then a.post.views > b.post.views
    else a.index < b.index
  }

  const BEFORE: (Entry, Entry) -> bool := (a, b) => Before(a, b)

  lemma BeforeIsStrict()
    ensures Strict(BEFORE)
  {}

  function Active(posts: seq<Post>): seq<Post> {
    if posts == [] then [] else (if IsActivePost(posts[0]) then [posts[0]] else []) + Active(posts[1..])
  }

  /** The entries of positive score, with their places in the list. */
  function Entries(posts: seq<Post>, from: nat, score: Post -> real): seq<Entry> {
    if posts == [] then []
    else
      (if score(posts[0]) > 0.0 then [Entry(posts[0], from, score(posts[0]))] else [])
      + Entries(posts[1..], from + 1, score)
  }

  function PostsOf(entries: seq<Entry>): seq<Post> {
    seq(|entries|, i requires 0 <= i < |entries| => entries[i].post)
  }

  function Arranged(posts: seq<Post>, score: Post -> real): seq<Entry> {
    Sort(BEFORE, Entries(Active(posts), 0, score))
  }

  /** Without a query the active posts stay as they are; `score` is `Score` for one query and one clock. */
  function RankPostsBySearch(posts: seq<Post>, score: Option<Post -> real>): seq<Post> {
    if score.None? then Active(posts) else PostsOf(Arranged(posts, score.value))
  }

  lemma {:induction false} EntriesIncrease(posts: seq<Post>, from: nat, score: Post -> real)
    ensures forall i, j :: 0 <= i < j < |Entries(posts, from, score)| ==>
              Entries(posts, from, score)[i].index < Entries(posts, from, score)[j].index
    ensures forall e <- Entries(posts, from, score) :: from <= e.index < from + |posts|
  {
    if posts != [] { EntriesIncrease(posts[1..], from + 1, score); }
  }

  predicate IsEntry(posts: seq<Post>, from: nat, score: Post -> real, e: Entry) {
    && from <= e.index < from + |posts| && e.post == posts[e.index - from]
    && e.score == score(e.post) && e.score > 0.0
  }

  lemma {:induction false} EntryMeans(posts: seq<Post>, from: nat, score: Post -> real, e: Entry)
    ensures e in Entries(posts, from, score) <==> IsEntry(posts, from, score, e)
  {
    if posts != [] {
      EntryMeans(posts[1..], from + 1, score, e);
      if e.index > from && e.index < from + |posts| { assert posts[e.index - from] == posts[1..][e.index - (from + 1)]; }
    }
  }

  lemma EntriesAreComparable(posts: seq<Post>, from: nat, score: Post -> real)
    ensures Comparable(BEFORE, Entries(posts, from, score))
  {
    EntriesIncrease(posts, from, score);
  }

  /** The ranked entries are the active posts of positive score, each place once, sorted; and any list with these
      two properties is this one, so ties cannot come out in another order. */
  lemma RankingIsTheOnlyArrangement(posts: seq<Post>, score: Post -> real, other: seq<Entry>)
    ensures Sorted(BEFORE, Arranged(posts, score))
    ensures forall e: Entry :: e in Arranged(posts, score) <==> IsEntry(Active(posts), 0, score, e)
    ensures Sorted(BEFORE, other) && multiset(other) == multiset(Entries(Active(posts), 0, score)) ==>
              other == Arranged(posts, score)
  {
    var entries := Entries(Active(posts), 0, score);
    BeforeIsStrict();
    EntriesAreComparable(Active(posts), 0, score);
    SortSorts(BEFORE, entries);
    forall e: Entry ensures e in Arranged(posts, score) <==> IsEntry(Active(posts), 0, score, e) {
      EntryMeans(Active(posts), 0, score, e);
      assert e in multiset(Arranged(posts, score)) <==> e in multiset(entries);
    }
    if Sorted(BEFORE, other) && multiset(other) == multiset(entries) {
      SortedIsUnique(BEFORE, other, Arranged(posts, score));
    }
  }

  /** Higher scores come first, then newer posts, then more views; full ties keep the order they came in. */
  lemma RankedOrder(posts: seq<Post>, score: Post -> real, i: nat, j: nat)
    requires i < j < |Arranged(posts, score)|
    ensures var a, b := Arranged(posts, score)[i], Arranged(posts, score)[j];
            && a.score >= b.score
            && (a.score == b.score ==> a.post.createdAt >= b.post.createdAt)
            && (a.score == b.score && a.post.createdAt == b.post.createdAt ==> a.post.views >= b.post.views)
            && (a.score == b.score && a.post.createdAt == b.post.createdAt && a.post.views == b.post.views ==>
                  a.index < b.index)
  {
    RankingIsTheOnlyArrangement(posts, score, []);
    assert BEFORE(Arranged(posts, score)[i], Arranged(posts, score)[j]);
  }

  lemma {:induction false} ActiveMeans(posts: seq<Post>)
    ensures forall p :: p in Active(posts) <==> p in posts && IsActivePost(p)
    ensures (forall p <- posts :: IsActivePost(p)) ==> Active(posts) == posts
  {
    if posts != [] {
      assert posts == [posts[0]] + posts[1..];
      ActiveMeans(posts[1..]);
    }
  }

  lemma {:induction false} EntriesOfPositive(posts: seq<Post>, from: nat, score: Post -> real)
    requires forall p <- posts :: score(p) > 0.0
    ensures |Entries(posts, from, score)| == |posts|
    ensures forall i :: 0 <= i < |posts| ==>
                          Entries(posts, from, score)[i] == Entry(posts[i], from + i, score(posts[i]))
  {
    if posts != [] {
      EntriesOfPositive(posts[1..], from + 1, score);
      var entries := Entries(posts, from, score);
      forall i | 0 <= i < |posts| ensures entries[i] == Entry(posts[i], from + i, score(posts[i])) {
        if i > 0 { assert posts[i] == posts[1..][i - 1]; }
      }
    }
  }

  lemma Reindexed(arranged: seq<Entry>, score: Post -> real)
    requires Sorted(BEFORE, arranged) && forall e <- arranged :: e.score == score(e.post) && e.score > 0.0
    ensures Sorted(BEFORE, Entries(PostsOf(arranged), 0, score))
    ensures PostsOf(Entries(PostsOf(arranged), 0, score)) == PostsOf(arranged)
  {
    var ranked := PostsOf(arranged);
    forall p | p in ranked ensures score(p) > 0.0 {
      var i :| 0 <= i < |ranked| && ranked[i] == p;
      assert arranged[i] in arranged;
    }
    EntriesOfPositive(ranked, 0, score);
    var entries := Entries(ranked, 0, score);
    forall i, j | 0 <= i < j < |entries| ensures BEFORE(entries[i], entries[j]) {
      assert arranged[i] in arranged && arranged[j] in arranged;
      assert BEFORE(arranged[i], arranged[j]);
    }
  }

  /** Ranking a ranked list again, with the same query and clock, changes nothing. */
  lemma RankingIsIdempotent(posts: seq<Post>, score: Option<Post -> real>)
    ensures RankPostsBySearch(RankPostsBySearch(posts, score), score) == RankPostsBySearch(posts, score)
  {
    var ranked := RankPostsBySearch(posts, score);
    ActiveMeans(posts);
    if score.Some? {
      var arranged := Arranged(posts, score.value);
      RankingIsTheOnlyArrangement(posts, score.value, []);
      forall p | p in ranked ensures IsActivePost(p) {
        var i :| 0 <= i < |ranked| && ranked[i] == p;
        assert arranged[i] in arranged;
        assert p in Active(posts);
      }
      ActiveMeans(ranked);
      Reindexed(arranged, score.value);
      BeforeIsStrict();
      SortOfSorted(BEFORE, Entries(ranked, 0, score.value));
    } else {
      ActiveMeans(ranked);
    }
  }

  lemma PositiveIsRanked(posts: seq<Post>, score: Post -> real, p: Post)
    requires p in posts && IsActivePost(p) && score(p) > 0.0
    ensures p in RankPostsBySearch(posts, Some(score))
  {
    ActiveMeans(posts);
    var i :| 0 <= i < |Active(posts)| && Active(posts)[i] == p;
    var arranged := Arranged(posts, score);
    RankingIsTheOnlyArrangement(posts, score, []);
    assert IsEntry(Active(posts), 0, score, Entry(p, i, score(p)));
    assert Entry(p, i, score(p)) in arranged;
    var k :| 0 <= k < |arranged| && arranged[k] == Entry(p, i, score(p));
    assert PostsOf(arranged)[k] == p;
  }

  lemma {:induction false} PartsAreNotEmpty(parts: seq<string>)
    ensures "" !in NonEmpty(parts)
  {
    if parts != [] { PartsAreNotEmpty(parts[1..]); }
  }

  /** Which posts of the list a search ranks: an active post with the whole query or one of its words in it exactly when it
      is not outweighed; and nothing but active posts of positive score. */
  lemma MatchesAreRankedExactly(posts: seq<Post>, query: string, words: Vocabulary, around: Surroundings, p: Post)
    requires LogIsNotNegative(around) && BuildQueryContext(query, words).Some?
    ensures var c := BuildQueryContext(query, words).value;
            var ranked := RankPostsBySearch(posts, Some(q => Score(q, c, around)));
            && (&& p in posts && IsActivePost(p)
                && (MatchesWholeQuery(p, c) || exists word <- Tokens(query) :: HoldsWord(p, word))
                ==> (p in ranked <==> !Outweighed(p, c, around)))
            && (p in ranked ==> p in posts && IsActivePost(p) && Score(p, c, around) > 0.0)
  {
    var c := BuildQueryContext(query, words).value;
    var score := q => Score(q, c, around);
    PartsAreNotEmpty(Split(query, ' '));
    RankedIsPositive(posts, score, p);
    if p in posts && IsActivePost(p) {
      if Score(p, c, around) > 0.0 { PositiveIsRanked(posts, score, p); }
      if exists word <- Tokens(query) :: HoldsWord(p, word) {
        var word :| word in Tokens(query) && HoldsWord(p, word);
        WordIsKeptExactly(p, c, around, word);
      } else if MatchesWholeQuery(p, c) {
        MatchIsNeverDropped(p, c, around);
        assert QueryPoints(p, c) >= 30;
        RelevanceAtLeast(p, c);
      }
    }
  }

  lemma RankedIsPositive(posts: seq<Post>, score: Post -> real, p: Post)
    ensures p in RankPostsBySearch(posts, Some(score)) ==> p in posts && IsActivePost(p) && score(p) > 0.0
  {
    var arranged := Arranged(posts, score);
    if p in PostsOf(arranged) {
      var k :| 0 <= k < |PostsOf(arranged)| && PostsOf(arranged)[k] == p;
      RankingIsTheOnlyArrangement(posts, score, []);
      assert arranged[k] in arranged;
      ActiveMeans(posts);
    }
  }
}
