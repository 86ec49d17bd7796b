/** Cache keys of the search service: the texts joined by '|', and what they determine. */
module SearchKeys {
  import opened Wrappers
  import opened Text

  const MAX_PAGE_SIZE := 200
  const BAR := '|'

  /** A decimal as its culture-invariant text. */
  type Price = s: string | s != "" && BAR !in s witness "0"

  /** The category filter once it is read: a number, or a name to look for. */
  datatype Category = AnyCategory | ById(id: nat) | ByName(name: string)

  datatype SearchQuery = SearchQuery(page: Option<int>, limit: Option<int>, sortBy: Option<string>,
                                     sortOrder: Option<string>, term: Option<string>, category: Option<string>,
                                     city: Option<string>, minPrice: Option<Price>, maxPrice: Option<Price>,
                                     status: Option<string>)

  datatype Visibility = PublicVisible | ActiveOnly | SoldOnly

  datatype SortField = CreatedAt | ByPrice | Views

  /** What the listing query makes of its arguments: blank texts filter nothing, others are trimmed. */
  datatype Listing = Listing(page: nat, limit: nat, visibility: Visibility, sort: SortField, ascending: bool,
                             term: Option<string>, categoryId: Option<nat>, categoryName: Option<string>,
                             city: Option<string>, minPrice: Option<Price>, maxPrice: Option<Price>)

  function TextOf(text: Option<string>): string {
    if text.None? then "" else Trim(text.value)
  }

  function Filter(text: Option<string>): Option<string> {
    if text.None? || IsBlank(text.value) then None else Some(Trim(text.value))
  }

  function PageOf(q: SearchQuery): nat {
    if q.page.None? || q.page.value < 1 then 1 else q.page.value
  }

  function LimitOf(q: SearchQuery): nat {
    if q.limit.None? || q.limit.value < 1 then 20 else if q.limit.value > MAX_PAGE_SIZE then MAX_PAGE_SIZE
    else q.limit.value
  }

  function SortOf(q: SearchQuery): SortField {
    var sortBy := ToLower(Trim(if q.sortBy.None? then "date" else q.sortBy.value));
    if sortBy == "price" then ByPrice else if sortBy == "views" then Views else CreatedAt
  }

  predicate AscendingOf(q: SearchQuery) {
    q.sortOrder.Some? && ToLower(Trim(q.sortOrder.value)) == "asc"
  }

  /** None for a status the search refuses. */
  function VisibilityOf(q: SearchQuery): Option<Visibility> {
    if q.status.None? || IsBlank(q.status.value) then Some(PublicVisible)
    else if ToLower(Trim(q.status.value)) == "active" then Some(ActiveOnly)
    else if ToLower(Trim(q.status.value)) == "sold" then Some(SoldOnly)
    else None
  }

  const MAX_INT := 0x7fff_ffff

  /** The text as a positive number of 32 bits. */
  function ParseId(text: string): Option<nat> {
    var digits := if text != "" && text[0] == '+' then text[1..] else text;
    if digits != "" && (forall c <- digits :: IsDigit(c)) && 0 < Value(digits) <= MAX_INT then Some(Value(digits)) else None
  }

  function ReadCategory(text: Option<string>): Category {
    if text.None? || IsBlank(text.value) then AnyCategory
    else if ParseId(Trim(text.value)).Some? then ById(ParseId(Trim(text.value)).value)
    else ByName(Trim(text.value))
  }

  function CategoryOf(q: SearchQuery): Category {
    ReadCategory(q.category)
  }

  function CategoryName(category: Category): Option<string> {
    if category.ByName? then Some(category.name) else None
  }

  function CategoryId(category: Category): Option<nat> {
    if category.ById? then Some(category.id) else None
  }

  function ListingOf(q: SearchQuery): Listing
    requires VisibilityOf(q).Some?
  {
    Listing(PageOf(q), LimitOf(q), VisibilityOf(q).value, SortOf(q), AscendingOf(q), Filter(q.term),
            CategoryId(CategoryOf(q)), Filter(CategoryName(CategoryOf(q))), Filter(q.city),
            q.minPrice, q.maxPrice)
  }

  /** Two texts without blanks around them, whatever their case; a missing text is none. */
  predicate Says(text: Option<string>, word: string) {
    text.Some? && ToLower(Trim(text.value)) == word
  }

  /** What a query asks for: the page and the limit as given where they are sensible, one of three orders, ascending only
      if it says so, a status that is active or sold if it names one, a category by number or else by name. */
  lemma ListingMeaning(q: SearchQuery)
    ensures VisibilityOf(q).Some? <==>
            q.status.None? || IsBlank(q.status.value) || Says(q.status, "active") || Says(q.status, "sold")
    ensures VisibilityOf(q).Some? ==>
              var l := ListingOf(q);
              && l.page >= 1 && (q.page.Some? && q.page.value >= 1 ==> l.page == q.page.value)
              && (q.page.None? || q.page.value < 1 ==> l.page == 1)
              && 1 <= l.limit <= 200 && (q.limit.Some? && 1 <= q.limit.value <= 200 ==> l.limit == q.limit.value)
              && (q.limit.None? || q.limit.value < 1 ==> l.limit == 20)
              && (q.limit.Some? && q.limit.value > 200 ==> l.limit == 200)
              && (l.sort == ByPrice <==> Says(q.sortBy, "price")) && (l.sort == Views <==> Says(q.sortBy, "views"))
              && (l.ascending <==> Says(q.sortOrder, "asc"))
              && (Says(q.status, "active") ==> l.visibility == ActiveOnly)
              && (Says(q.status, "sold") ==> l.visibility == SoldOnly)
              && (q.status.None? || IsBlank(q.status.value) ==> l.visibility == PublicVisible)
              && l.term == (if q.term.None? || IsBlank(q.term.value) then None else Some(Trim(q.term.value)))
              && l.city == (if q.city.None? || IsBlank(q.city.value) then None else Some(Trim(q.city.value)))
              && l.minPrice == q.minPrice && l.maxPrice == q.maxPrice
              && (q.category.None? || IsBlank(q.category.value) ==> l.categoryId == None && l.categoryName == None)
              && (q.category.Some? && !IsBlank(q.category.value) ==>
                    l.categoryId == ParseId(Trim(q.category.value))
                    && l.categoryName == (if l.categoryId.Some? then None else Some(Trim(q.category.value))))
  {
    if q.sortBy.None? { assert ToLower(Trim("date")) != "price" && ToLower(Trim("date")) != "views"; }
    if q.status.Some? && IsBlank(q.status.value) { BlankSaysNothing(q.status.value); }
    if q.category.Some? { TrimIsTrimmed(q.category.value); }
    if q.category.Some? { TrimIsTrimmed(Trim(q.category.value)); }
  }

  lemma BlankSaysNothing(text: string)
    requires IsBlank(text)
    ensures ToLower(Trim(text)) == ""
  {
    TrimIsTrimmed(text);
  }

  function VisibilityText(v: Visibility): string {
    match v
    case PublicVisible => "PublicVisible"
    case ActiveOnly => "ActiveOnly"
    case SoldOnly => "SoldOnly"
  }

  function SortText(s: SortField): string {
    match s
    case CreatedAt => "CreatedAt"
    case ByPrice => "Price"
    case Views => "Views"
  }

  function PriceText(price: Option<Price>): string {
    if price.None? then "" else price.value
  }

  function IdText(category: Category): string {
    if category.ById? then Digits(category.id) else ""
  }

  function Parts(q: SearchQuery): (parts: seq<string>)
    requires VisibilityOf(q).Some?
    ensures |parts| == 13
  {
    ["search", Digits(PageOf(q)), Digits(LimitOf(q)), VisibilityText(VisibilityOf(q).value), SortText(SortOf(q)),
     if AscendingOf(q) then "True" else "False", TextOf(q.term), IdText(CategoryOf(q)),
     TextOf(CategoryName(CategoryOf(q))), TextOf(q.city), PriceText(q.minPrice), PriceText(q.maxPrice), TextOf(q.status)]
  }

  function BuildCacheKey(q: SearchQuery): string
    requires VisibilityOf(q).Some?
  {
    Join(Parts(q), BAR)
  }

  /** No text field of the query holds a '|'. */
  predicate NoBar(q: SearchQuery) {
    BAR !in TextOf(q.term) && BAR !in TextOf(CategoryName(CategoryOf(q))) && BAR !in TextOf(q.city)
  }

  /** An accepted status word holds no '|'. */
  lemma StatusWithoutBar(q: SearchQuery)
    requires VisibilityOf(q).Some?
    ensures BAR !in TextOf(q.status)
  {
    var word := TextOf(q.status);
    if q.status.Some? { TrimIsTrimmed(q.status.value); }
    assert word == "" || BAR !in ToLower(word);
    forall i | 0 <= i < |word| ensures word[i] != BAR { assert ToLower(word)[i] == FoldCase(word[i]); }
  }

  lemma PartsWithoutBar(q: SearchQuery)
    requires VisibilityOf(q).Some? && NoBar(q)
    ensures forall p <- Parts(q) :: BAR !in p
  {
    var parts := Parts(q);
    assert BAR !in Digits(PageOf(q)) && BAR !in Digits(LimitOf(q)) && BAR !in IdText(CategoryOf(q));
    StatusWithoutBar(q);
    assert BAR !in PriceText(q.minPrice) && BAR !in PriceText(q.maxPrice);
    assert forall i :: 0 <= i < |parts| ==> BAR !in parts[i];
  }

  lemma SameFilter(a: Option<string>, b: Option<string>)
    ensures TextOf(a) == TextOf(b) <==> Filter(a) == Filter(b)
  {
    if a.Some? { TrimIsTrimmed(a.value); }
    if b.Some? { TrimIsTrimmed(b.value); }
  }

  lemma SameDigits(a: nat, b: nat)
    requires Digits(a) == Digits(b)
    ensures a == b
  {
    ValueOfDigits(a);
    ValueOfDigits(b);
  }

  lemma SamePartsSameNumbers(q: SearchQuery, r: SearchQuery)
    requires VisibilityOf(q).Some? && VisibilityOf(r).Some? && Parts(q) == Parts(r)
    ensures PageOf(q) == PageOf(r) && LimitOf(q) == LimitOf(r)
    ensures CategoryOf(q).ById? == CategoryOf(r).ById? && (CategoryOf(q).ById? ==> CategoryOf(q).id == CategoryOf(r).id)
  {
    assert Parts(q)[1] == Parts(r)[1] && Parts(q)[2] == Parts(r)[2] && Parts(q)[7] == Parts(r)[7];
    SameDigits(PageOf(q), PageOf(r));
    SameDigits(LimitOf(q), LimitOf(r));
    if CategoryOf(q).ById? && CategoryOf(r).ById? { SameDigits(CategoryOf(q).id, CategoryOf(r).id); }
  }

  lemma SamePartsSameFilters(q: SearchQuery, r: SearchQuery)
    requires VisibilityOf(q).Some? && VisibilityOf(r).Some? && Parts(q) == Parts(r)
    ensures Filter(q.term) == Filter(r.term) && Filter(q.city) == Filter(r.city)
    ensures Filter(CategoryName(CategoryOf(q))) == Filter(CategoryName(CategoryOf(r)))
    ensures q.minPrice == r.minPrice && q.maxPrice == r.maxPrice && TextOf(q.status) == TextOf(r.status)
  {
    var a, b := Parts(q), Parts(r);
    assert a[6] == b[6] && a[8] == b[8] && a[9] == b[9] && a[10] == b[10] && a[11] == b[11] && a[12] == b[12];
    SameFilter(q.term, r.term);
    SameFilter(q.city, r.city);
    SameFilter(CategoryName(CategoryOf(q)), CategoryName(CategoryOf(r)));
  }

  lemma SamePartsSameModes(q: SearchQuery, r: SearchQuery)
    requires VisibilityOf(q).Some? && VisibilityOf(r).Some? && Parts(q) == Parts(r)
    ensures VisibilityOf(q) == VisibilityOf(r) && SortOf(q) == SortOf(r) && AscendingOf(q) == AscendingOf(r)
  {
    var a, b := Parts(q), Parts(r);
    assert a[3] == b[3] && a[4] == b[4] && a[5] == b[5];
    assert |a[3]| == |b[3]| && |a[4]| == |b[4]| && |a[5]| == |b[5]|;
    assert VisibilityText(SoldOnly) != VisibilityText(ActiveOnly);
    assert |SortText(ByPrice)| == |SortText(Views)| && SortText(ByPrice)[0] != SortText(Views)[0];
  }

  /** A query without '|' shares its key exactly with the queries that ask for the same listing in the same status
      words, even against queries that do hold a '|'. */
  lemma EqualKeysMeanEqualListings(q: SearchQuery, r: SearchQuery)
    requires VisibilityOf(q).Some? && VisibilityOf(r).Some? && NoBar(q)
    ensures BuildCacheKey(q) == BuildCacheKey(r) <==>
            ListingOf(q) == ListingOf(r) && TextOf(q.status) == TextOf(r.status)
  {
    if BuildCacheKey(q) == BuildCacheKey(r) {
      PartsWithoutBar(q);
      JoinDetermines(Parts(q), Parts(r), BAR);
      SamePartsSameNumbers(q, r);
      SamePartsSameFilters(q, r);
      SamePartsSameModes(q, r);
    }
    if ListingOf(q) == ListingOf(r) && TextOf(q.status) == TextOf(r.status) {
      SameFilter(q.term, r.term);
      SameFilter(q.city, r.city);
      SameFilter(CategoryName(CategoryOf(q)), CategoryName(CategoryOf(r)));
      assert Parts(q) == Parts(r);
    }
  }

  // ---- collisions ----

  /** The four parts of a key that come from the free texts of a query. */
  function Pieces(term: Option<string>, category: Option<string>, city: Option<string>): seq<string> {
    [TextOf(term), IdText(ReadCategory(category)), TextOf(CategoryName(ReadCategory(category))), TextOf(city)]
  }

  function PiecesOf(q: SearchQuery): seq<string> {
    Pieces(q.term, q.category, q.city)
  }

  /** The other parts, which never hold a '|'. */
  lemma OuterParts(q: SearchQuery)
    requires VisibilityOf(q).Some?
    ensures Parts(q)[6..10] == PiecesOf(q)
    ensures forall i :: 0 <= i < 6 || 10 <= i < 13 ==> BAR !in Parts(q)[i]
  {
    StatusWithoutBar(q);
    assert BAR !in Digits(PageOf(q)) && BAR !in Digits(LimitOf(q));
    assert BAR !in PriceText(q.minPrice) && BAR !in PriceText(q.maxPrice);
  }

  lemma KeySplits(q: SearchQuery)
    requires VisibilityOf(q).Some?
    ensures BuildCacheKey(q) ==
            Join(Parts(q)[..6], BAR) + [BAR] + (Join(PiecesOf(q), BAR) + [BAR] + Join(Parts(q)[10..], BAR))
  {
    var a := Parts(q);
    OuterParts(q);
    assert a == a[..6] + (a[6..10] + a[10..]);
    JoinAppend(a[..6], a[6..10] + a[10..], BAR);
    JoinAppend(a[6..10], a[10..], BAR);
  }

  /** Any two queries share a key exactly when their outer parts are the same and their free texts, joined, are. */
  lemma SharedKeys(q: SearchQuery, r: SearchQuery)
    requires VisibilityOf(q).Some? && VisibilityOf(r).Some?
    ensures BuildCacheKey(q) == BuildCacheKey(r) <==>
            && Parts(q)[..6] == Parts(r)[..6] && Parts(q)[10..] == Parts(r)[10..]
            && Join(PiecesOf(q), BAR) == Join(PiecesOf(r), BAR)
  {
    KeySplits(q);
    KeySplits(r);
    if BuildCacheKey(q) == BuildCacheKey(r) { EqualKeysSplit(q, r); }
  }

  lemma EqualKeysSplit(q: SearchQuery, r: SearchQuery)
    requires VisibilityOf(q).Some? && VisibilityOf(r).Some? && BuildCacheKey(q) == BuildCacheKey(r)
    ensures Parts(q)[..6] == Parts(r)[..6] && Parts(q)[10..] == Parts(r)[10..]
    ensures Join(PiecesOf(q), BAR) == Join(PiecesOf(r), BAR)
  {
    var a, b := Parts(q), Parts(r);
    OuterParts(q);
    OuterParts(r);
    JoinDeterminesMiddle(a, b, 6, 10, BAR);
  }

  /** With the same outer parts, a listing is another one exactly when one of the pieces is. */
  lemma PiecesDecide(q: SearchQuery, r: SearchQuery)
    requires VisibilityOf(q).Some? && VisibilityOf(r).Some?
    requires Parts(q)[..6] == Parts(r)[..6] && Parts(q)[10..] == Parts(r)[10..]
    ensures ListingOf(q) == ListingOf(r) <==> PiecesOf(q) == PiecesOf(r)
  {
    var a, b := Parts(q), Parts(r);
    OuterParts(q);
    OuterParts(r);
    assert a == a[..6] + a[6..10] + a[10..] && b == b[..6] + b[6..10] + b[10..];
    if PiecesOf(q) == PiecesOf(r) {
      SamePartsSameNumbers(q, r);
      SamePartsSameFilters(q, r);
      SamePartsSameModes(q, r);
    }
    if ListingOf(q) == ListingOf(r) {
      SameFilter(q.term, r.term);
      SameFilter(q.city, r.city);
      SameFilter(CategoryName(CategoryOf(q)), CategoryName(CategoryOf(r)));
    }
  }

  lemma OtherTextsCollide(q: SearchQuery, term: Option<string>, category: Option<string>, city: Option<string>)
    requires VisibilityOf(q).Some?
    requires Join(Pieces(term, category, city), BAR) == Join(PiecesOf(q), BAR)
    requires Pieces(term, category, city) != PiecesOf(q)
    ensures exists r :: VisibilityOf(r).Some? && BuildCacheKey(r) == BuildCacheKey(q) && ListingOf(r) != ListingOf(q)
  {
    var r := q.(term := term, category := category, city := city);
    SameOuterParts(q, r);
    SharedKeys(q, r);
    PiecesDecide(q, r);
  }

  lemma SameOuterParts(q: SearchQuery, r: SearchQuery)
    requires VisibilityOf(q).Some? && r == q.(term := r.term, category := r.category, city := r.city)
    ensures VisibilityOf(r).Some? && Parts(q)[..6] == Parts(r)[..6] && Parts(q)[10..] == Parts(r)[10..]
  {
  }

  lemma JoinFour(a: string, b: string, c: string, d: string)
    ensures Join([a, b, c, d], BAR) == a + [BAR] + (b + [BAR] + (c + [BAR] + d))
  {
    assert [a, b, c, d][1..] == [b, c, d] && [b, c, d][1..] == [c, d] && [c, d][1..] == [d];
    assert Join([d], BAR) == d;
    assert Join([c, d], BAR) == c + [BAR] + d;
    assert Join([b, c, d], BAR) == b + [BAR] + (c + [BAR] + d);
  }

  /** What two parts of a key can hold for a category: a number in its digits alone, or a name that is no number. */
  predicate ReadableCategory(id: string, name: string) {
    if id == "" then Trimmed(name) && ParseId(name).None?
    else name == "" && ParseId(id).Some? && Digits(ParseId(id).value) == id
  }

  predicate Readable(pieces: seq<string>) {
    |pieces| == 4 && Trimmed(pieces[0]) && ReadableCategory(pieces[1], pieces[2]) && Trimmed(pieces[3])
  }

  lemma DigitsAreAnId(n: nat)
    requires 0 < n <= MAX_INT
    ensures ParseId(Digits(n)) == Some(n) && Trimmed(Digits(n)) && !IsBlank(Digits(n)) && Trim(Digits(n)) == Digits(n)
  {
    var digits := Digits(n);
    assert IsDigit(digits[0]) && IsDigit(digits[|digits| - 1]);
    ValueOfDigits(n);
    TrimIsTrimmed(digits);
  }

  lemma TextIsTrimmed(text: Option<string>)
    ensures Trimmed(TextOf(text))
  {
    if text.Some? { TrimIsTrimmed(text.value); }
  }

  lemma PiecesAreReadable(term: Option<string>, category: Option<string>, city: Option<string>)
    ensures Readable(Pieces(term, category, city))
  {
    TextIsTrimmed(term);
    TextIsTrimmed(city);
    CategoryIsReadable(category);
  }

  lemma CategoryIsReadable(category: Option<string>)
    ensures ReadableCategory(IdText(ReadCategory(category)), TextOf(CategoryName(ReadCategory(category))))
  {
    match ReadCategory(category)
    case AnyCategory =>
    case ById(id) => DigitsAreAnId(id);
    case ByName(name) =>
      TrimIsTrimmed(category.value);
      TrimIsTrimmed(name);
  }

  lemma ReadablePiecesAreRead(pieces: seq<string>)
      returns (term: Option<string>, category: Option<string>, city: Option<string>)
    requires Readable(pieces)
    ensures Pieces(term, category, city) == pieces
  {
    term, city := Some(pieces[0]), Some(pieces[3]);
    TrimIsTrimmed(pieces[0]);
    TrimIsTrimmed(pieces[3]);
    if pieces[1] != "" {
      category := Some(pieces[1]);
      DigitsAreAnId(ParseId(pieces[1]).value);
    } else if pieces[2] != "" {
      category := Some(pieces[2]);
      TrimIsTrimmed(pieces[2]);
      assert !IsBlank(pieces[2]);
    } else {
      category := None;
    }
  }

  function Cut(m: string, i: nat, j: nat, k: nat): seq<string>
    requires i < j < k < |m|
  {
    [m[..i], m[i + 1..j], m[j + 1..k], m[k + 1..]]
  }

  /** Cutting the text at three of its bars gives four readable pieces other than those. */
  predicate CutsOtherwise(m: string, pieces: seq<string>, i: nat, j: nat, k: nat) {
    && i < j < k < |m| && m[i] == m[j] == m[k] == BAR
    && Readable(Cut(m, i, j, k)) && Cut(m, i, j, k) != pieces
  }

  lemma CutIsJoin(m: string, i: nat, j: nat, k: nat)
    requires i < j < k < |m| && m[i] == m[j] == m[k] == BAR
    ensures Join(Cut(m, i, j, k), BAR) == m
  {
    JoinFour(m[..i], m[i + 1..j], m[j + 1..k], m[k + 1..]);
    assert m[j + 1..] == m[j + 1..k] + [BAR] + m[k + 1..];
    assert m[i + 1..] == m[i + 1..j] + [BAR] + m[j + 1..];
    assert m == m[..i] + [BAR] + m[i + 1..];
  }

  lemma JoinIsCut(a: string, b: string, c: string, d: string) returns (i: nat, j: nat, k: nat)
    ensures var m := Join([a, b, c, d], BAR);
            i < j < k < |m| && m[i] == m[j] == m[k] == BAR && Cut(m, i, j, k) == [a, b, c, d]
  {
    var m := Join([a, b, c, d], BAR);
    JoinFour(a, b, c, d);
    i, j, k := |a|, |a| + 1 + |b|, |a| + 1 + |b| + 1 + |c|;
    assert m == a + [BAR] + b + [BAR] + c + [BAR] + d;
    assert m[..i] == a && m[i + 1..j] == b && m[j + 1..k] == c && m[k + 1..] == d;
  }

  /** Exactly which queries share their key with a query for another listing: those whose free texts, joined, can be cut at
      three bars into other pieces that read as a term, a category and a city. */
  lemma CollidesExactly(q: SearchQuery)
    requires VisibilityOf(q).Some?
    ensures (exists r :: VisibilityOf(r).Some? && BuildCacheKey(r) == BuildCacheKey(q) && ListingOf(r) != ListingOf(q)) <==>
            exists i: nat, j: nat, k: nat :: CutsOtherwise(Join(PiecesOf(q), BAR), PiecesOf(q), i, j, k)
  {
    var m := Join(PiecesOf(q), BAR);
    if exists r :: VisibilityOf(r).Some? && BuildCacheKey(r) == BuildCacheKey(q) && ListingOf(r) != ListingOf(q) {
      var r :| VisibilityOf(r).Some? && BuildCacheKey(r) == BuildCacheKey(q) && ListingOf(r) != ListingOf(q);
      SharedKeys(q, r);
      PiecesDecide(q, r);
      PiecesAreReadable(r.term, r.category, r.city);
      var p := PiecesOf(r);
      var i, j, k := JoinIsCut(p[0], p[1], p[2], p[3]);
      assert [p[0], p[1], p[2], p[3]] == p;
      assert CutsOtherwise(m, PiecesOf(q), i, j, k);
    }
    forall i: nat, j: nat, k: nat | CutsOtherwise(m, PiecesOf(q), i, j, k)
      ensures exists r :: VisibilityOf(r).Some? && BuildCacheKey(r) == BuildCacheKey(q) && ListingOf(r) != ListingOf(q)
    {
      CutIsJoin(m, i, j, k);
      var term, category, city := ReadablePiecesAreRead(Cut(m, i, j, k));
      OtherTextsCollide(q, term, category, city);
    }
  }

  /** Such a family: a term that ends in '|', without a category, has the key of the term before the '|' in the
      category named '|'. */
  lemma BarsCollide(q: SearchQuery, t: string)
    requires VisibilityOf(q).Some? && t != "" && Trimmed(t)
    requires q.term == Some(t + [BAR]) && CategoryOf(q) == AnyCategory
    ensures var r := q.(term := Some(t), category := Some([BAR]));
            BuildCacheKey(q) == BuildCacheKey(r) && ListingOf(q) != ListingOf(r)
  {
    var r := q.(term := Some(t), category := Some([BAR]));
    TrimIsTrimmed(t + [BAR]);
    TrimIsTrimmed(t);
    TrimIsTrimmed([BAR]);
    assert PiecesOf(q) == [t + [BAR], "", "", TextOf(q.city)];
    BarIsAName();
    assert PiecesOf(r) == [t, "", [BAR], TextOf(q.city)];
    JoinFour(t + [BAR], "", "", TextOf(q.city));
    JoinFour(t, "", [BAR], TextOf(q.city));
    ShiftedBar(t, TextOf(q.city));
    SameOuterParts(q, r);
    SharedKeys(q, r);
    assert |t + [BAR]| == |t| + 1;
    PiecesDecide(q, r);
  }

  lemma BarIsAName()
    ensures ReadCategory(Some([BAR])) == ByName([BAR])
  {
    TrimIsTrimmed([BAR]);
    assert [BAR][0] == BAR && !IsDigit(BAR);
  }

  lemma ShiftedBar(t: string, city: string)
    ensures t + [BAR] + [BAR] + ("" + [BAR] + ("" + [BAR] + city)) == t + [BAR] + ("" + [BAR] + ([BAR] + [BAR] + city))
  {}
}
