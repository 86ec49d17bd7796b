/** Pages of listings and of chat histories: offsets, orders, and what the pages make up together. */
module Paging {
  import opened Wrappers
  import opened Ordering
  import SearchKeys

  const INT_MAX := 0x7FFF_FFFF

  // ---- the listing's order ----

  datatype Row = Row(id: int, price: real, views: int, createdAt: int)

  predicate NewestFirst(a: Row, b: Row) {
    if a.createdAt != b.createdAt then a.createdAt > b.createdAt else a.id > b.id
  }

  function OrderBy(field: SearchKeys.SortField, ascending: bool): (Row, Row) -> bool {
    match field
    case ByPrice =>
      (a: Row, b: Row) =>
        if a.price != b.price then (if ascending then a.price < b.price else a.price > b.price) else NewestFirst(a, b)
    case Views =>
      (a: Row, b: Row) =>
        if a.views != b.views then (if ascending then a.views < b.views else a.views > b.views) else NewestFirst(a, b)
    case CreatedAt => (a: Row, b: Row) => if ascending then NewestFirst(b, a) else NewestFirst(a, b)
  }

  predicate DistinctIds(rows: seq<Row>) {
    forall i, j :: 0 <= i < j < |rows| ==> rows[i].id != rows[j].id
  }

  /** Every order-by clause ends in the post's identity, so it leaves no ties: there is one sorted list, and the
      pages of one listing are cut from the same list each time. */
  lemma OrderByLeavesNoTies(field: SearchKeys.SortField, ascending: bool, rows: seq<Row>, other: seq<Row>)
    requires DistinctIds(rows)
    ensures Strict(OrderBy(field, ascending)) && Comparable(OrderBy(field, ascending), rows)
    ensures Sorted(OrderBy(field, ascending), Sort(OrderBy(field, ascending), rows))
    ensures Sorted(OrderBy(field, ascending), other) && multiset(other) == multiset(rows) ==>
              other == Sort(OrderBy(field, ascending), rows)
  {
    var lt := OrderBy(field, ascending);
    SortSorts(lt, rows);
    if Sorted(lt, other) && multiset(other) == multiset(rows) { SortedIsUnique(lt, other, Sort(lt, rows)); }
  }

  /** What the clauses sort by: the chosen field in the chosen direction, then the newest first; by date, the date and
      the identity in the same direction. */
  lemma ListingOrder(field: SearchKeys.SortField, ascending: bool, rows: seq<Row>, i: nat, j: nat)
    requires Sorted(OrderBy(field, ascending), rows) && i < j < |rows|
    ensures var a, b := if ascending then rows[i] else rows[j], if ascending then rows[j] else rows[i];
            && (field.ByPrice? ==> a.price <= b.price)
            && (field.Views? ==> a.views <= b.views)
            && (field.CreatedAt? ==> a.createdAt < b.createdAt || (a.createdAt == b.createdAt && a.id < b.id))
            && ((field.ByPrice? && a.price == b.price) || (field.Views? && a.views == b.views) ==>
                  NewestFirst(rows[i], rows[j]))
  {
    assert OrderBy(field, ascending)(rows[i], rows[j]);
  }

  // ---- pages ----

  function Least(a: int, b: int): int { if a <= b then a else b }

  /** OFFSET and FETCH. */
  function Fetch<T>(rows: seq<T>, offset: nat, limit: nat): seq<T> {
    rows[Least(offset, |rows|)..Least(offset + limit, |rows|)]
  }

  datatype PageResult<T> = PageResult(page: nat, limit: nat, total: nat, rows: seq<T>)

  /** The total is read from the rows of the page, so a page past the end reports none. */
  function Query<T>(rows: seq<T>, rawPage: int, rawLimit: int): PageResult<T> {
    var page := if rawPage < 1 then 1 else rawPage;
    var limit := if rawLimit < 1 then 20 else if rawLimit > SearchKeys.MAX_PAGE_SIZE then SearchKeys.MAX_PAGE_SIZE else rawLimit;
    var found := Fetch(rows, Least((page - 1) * limit, INT_MAX), limit);
    PageResult(page, limit, if found == [] then 0 else |rows|, found)
  }

  /** A page or limit that makes no sense is taken as the first page, as twenty rows, or as two hundred. */
  lemma QueryClamps<T>(rows: seq<T>, page: int, limit: int)
    ensures page < 1 ==> Query(rows, page, limit) == Query(rows, 1, limit)
    ensures limit < 1 ==> Query(rows, page, limit) == Query(rows, page, 20)
    ensures limit > 200 ==> Query(rows, page, limit) == Query(rows, page, 200)
    ensures page >= 1 && 1 <= limit <= 200 ==> Query(rows, page, limit).page == page && Query(rows, page, limit).limit == limit
  {}

  function Pages<T>(rows: seq<T>, limit: int, n: nat): seq<T> {
    if n == 0 then [] else Pages(rows, limit, n - 1) + Query(rows, n, limit).rows
  }

  lemma Product(a: nat, b: nat)
    ensures a * b >= 0 && (a + 1) * b == a * b + b
  {}

  /** The first pages are the front of the list; rows are counted by 32-bit identities, so there are at most
      INT_MAX of them. */
  lemma {:induction false} PagesAreThePrefix<T>(rows: seq<T>, limit: nat, n: nat)
    requires |rows| <= INT_MAX && 1 <= limit <= SearchKeys.MAX_PAGE_SIZE
    ensures n * limit >= 0 && Pages(rows, limit, n) == rows[..Least(n * limit, |rows|)]
  {
    if n > 0 {
      PagesAreThePrefix(rows, limit, n - 1);
      Product(n - 1, limit);
      var offset := (n - 1) * limit;
      assert Query(rows, n, limit).rows == rows[Least(offset, |rows|)..Least(offset + limit, |rows|)];
    }
  }

  function PageCount(total: nat, limit: nat): nat
    requires limit >= 1
  {
    (total + limit - 1) / limit
  }

  lemma PageCountCovers(total: nat, limit: nat)
    requires limit >= 1
    ensures PageCount(total, limit) * limit >= total
    ensures PageCount(total, limit) > 0 ==> (PageCount(total, limit) - 1) * limit < total
  {
    var n := PageCount(total, limit);
    var spare := (total + limit - 1) % limit;
    assert n * limit == total + limit - 1 - spare;
    if n > 0 { Product(n - 1, limit); }
  }

  /** All pages in order are the whole list: nothing is dropped and nothing comes twice. */
  lemma ListingPagesMakeUpTheList<T>(rows: seq<T>, limit: nat, n: nat)
    requires |rows| <= INT_MAX && 1 <= limit <= SearchKeys.MAX_PAGE_SIZE && n >= PageCount(|rows|, limit)
    ensures Pages(rows, limit, n) == rows
  {
    PagesAreThePrefix(rows, limit, n);
    PageCountCovers(|rows|, limit);
    MoreCovers(PageCount(|rows|, limit), n, limit);
    assert rows[..|rows|] == rows;
  }

  lemma MoreCovers(m: nat, n: nat, limit: nat)
    requires m <= n
    ensures m * limit <= n * limit
  {}

  /** The clamped offset gives the page meant exactly when the offset needs no clamping or there are no rows past
      the clamp. */
  lemma ClampedOffsetIsExact<T>(rows: seq<T>, page: int, limit: int)
    requires page >= 1 && 1 <= limit <= SearchKeys.MAX_PAGE_SIZE
    requires forall i, j :: 0 <= i < j < |rows| ==> rows[i] != rows[j]
    ensures (page - 1) * limit >= 0
    ensures Query(rows, page, limit).rows == Fetch(rows, (page - 1) * limit, limit) <==>
            (page - 1) * limit <= INT_MAX || |rows| <= INT_MAX
  {
    Product(page - 1, limit);
    var offset := (page - 1) * limit;
    var clamped, meant := Query(rows, page, limit).rows, Fetch(rows, offset, limit);
    if offset > INT_MAX && |rows| > INT_MAX {
      assert clamped[0] == rows[INT_MAX];
      if meant != [] { assert meant[0] == rows[offset]; }
    }
  }

  /** Exactly the pages up to the page count have rows; the others report a total of none. */
  lemma TotalIsReportedOnRealPages<T>(rows: seq<T>, page: nat, limit: nat)
    requires |rows| <= INT_MAX && page >= 1 && 1 <= limit <= SearchKeys.MAX_PAGE_SIZE
    ensures var r := Query(rows, page, limit);
            if page <= PageCount(|rows|, limit) then r.rows != [] && r.total == |rows| else r.rows == [] && r.total == 0
  {
    PageCountCovers(|rows|, limit);
    Product(page - 1, limit);
    if page <= PageCount(|rows|, limit) {
      MoreCovers(page - 1, PageCount(|rows|, limit) - 1, limit);
    } else {
      MoreCovers(PageCount(|rows|, limit), page - 1, limit);
    }
  }

  // ---- chat histories ----

  function Reverse<T>(xs: seq<T>): seq<T> {
    if xs == [] then [] else Reverse(xs[1..]) + [xs[0]]
  }

  /** A 32-bit product, as the source computes it. */
  function Wrap(x: int): int {
    (x + 0x8000_0000) % 0x1_0000_0000 - 0x8000_0000
  }

  function SafePage(page: int): nat { if page < 1 then 1 else page }

  function SafeSize(size: int): nat { if size < 1 then 1 else if size > 200 then 200 else size }

  /** A page of a history whose messages are given newest first; None when the database refuses the offset. */
  function ChatPage<T>(newestFirst: seq<T>, page: int, size: int): Option<seq<T>> {
    var offset := Wrap((SafePage(page) - 1) * SafeSize(size));
    if offset < 0 then None else Some(Reverse(Fetch(newestFirst, offset, SafeSize(size))))
  }

  /** So is a page of a history, with one message or two hundred. */
  lemma ChatPageClamps<T>(newestFirst: seq<T>, page: int, size: int)
    ensures page < 1 ==> ChatPage(newestFirst, page, size) == ChatPage(newestFirst, 1, size)
    ensures size < 1 ==> ChatPage(newestFirst, page, size) == ChatPage(newestFirst, page, 1)
    ensures size > 200 ==> ChatPage(newestFirst, page, size) == ChatPage(newestFirst, page, 200)
  {}

  function MeantPage<T>(newestFirst: seq<T>, page: nat, size: nat): seq<T>
    requires page >= 1
  {
    Product(page - 1, size);
    Reverse(Fetch(newestFirst, (page - 1) * size, size))
  }

  /** Pages from the n-th down to the first. */
  function LastToFirst<T>(newestFirst: seq<T>, size: nat, n: nat): seq<T> {
    if n == 0 then [] else MeantPage(newestFirst, n, size) + LastToFirst(newestFirst, size, n - 1)
  }

  lemma {:induction false} ReverseAppend<T>(a: seq<T>, b: seq<T>)
    ensures Reverse(a + b) == Reverse(b) + Reverse(a)
  {
    if a == [] {
      assert a + b == b;
    } else {
      assert (a + b)[1..] == a[1..] + b;
      ReverseAppend(a[1..], b);
    }
  }

  lemma {:induction false} ReverseOnce<T>(xs: seq<T>)
    ensures |Reverse(xs)| == |xs| && forall i :: 0 <= i < |xs| ==> Reverse(xs)[i] == xs[|xs| - 1 - i]
  {
    if xs != [] { ReverseOnce(xs[1..]); }
  }

  /** A list sorted newest first is chronological when reversed. */
  lemma ReversedIsChronological<T>(newer: (T, T) -> bool, newestFirst: seq<T>)
    requires Sorted(newer, newestFirst)
    ensures forall i, j :: 0 <= i < j < |Reverse(newestFirst)| ==> newer(Reverse(newestFirst)[j], Reverse(newestFirst)[i])
    ensures multiset(Reverse(newestFirst)) == multiset(newestFirst)
  {
    ReverseOnce(newestFirst);
    ReverseKeeps(newestFirst);
  }

  lemma {:induction false} ReverseKeeps<T>(xs: seq<T>)
    ensures multiset(Reverse(xs)) == multiset(xs)
  {
    if xs != [] {
      ReverseKeeps(xs[1..]);
      assert xs == [xs[0]] + xs[1..];
    }
  }

  lemma MeantPageIs<T>(newestFirst: seq<T>, page: nat, size: nat)
    requires page >= 1
    ensures (page - 1) * size >= 0 && page * size >= (page - 1) * size
    ensures MeantPage(newestFirst, page, size) ==
            Reverse(newestFirst[Least((page - 1) * size, |newestFirst|)..Least(page * size, |newestFirst|)])
  {
    Product(page - 1, size);
    assert (page - 1) * size + size == page * size;
  }

  lemma {:induction false} PagesBackwards<T>(newestFirst: seq<T>, size: nat, n: nat)
    ensures n * size >= 0
    ensures LastToFirst(newestFirst, size, n) == Reverse(newestFirst[..Least(n * size, |newestFirst|)])
  {
    if n > 0 {
      PagesBackwards(newestFirst, size, n - 1);
      MeantPageIs(newestFirst, n, size);
      var from, to := Least((n - 1) * size, |newestFirst|), Least(n * size, |newestFirst|);
      ReverseAppend(newestFirst[..from], newestFirst[from..to]);
      assert newestFirst[..from] + newestFirst[from..to] == newestFirst[..to];
    } else {
      assert newestFirst[..0] == [];
    }
  }

  lemma Wraps(x: int)
    ensures 0 <= x <= INT_MAX ==> Wrap(x) == x
    ensures -0x8000_0000 <= Wrap(x) <= INT_MAX
  {}

  /** Chat pages taken from the last to the first are the history in chronological order, as long as no offset
      leaves 32 bits. */
  lemma ChatPagesMakeUpTheHistory<T>(newestFirst: seq<T>, size: nat, n: nat)
    requires 1 <= size <= 200 && n >= PageCount(|newestFirst|, size)
    ensures LastToFirst(newestFirst, size, n) == Reverse(newestFirst)
    ensures forall page: nat :: 1 <= page <= n && (page - 1) * size <= INT_MAX ==>
                                  ChatPage(newestFirst, page, size) == Some(MeantPage(newestFirst, page, size))
  {
    PagesBackwards(newestFirst, size, n);
    PageCountCovers(|newestFirst|, size);
    MoreCovers(PageCount(|newestFirst|, size), n, size);
    assert newestFirst[..|newestFirst|] == newestFirst;
    forall page: nat | 1 <= page <= n && (page - 1) * size <= INT_MAX
      ensures ChatPage(newestFirst, page, size) == Some(MeantPage(newestFirst, page, size))
    {
      Product(page - 1, size);
      Wraps((page - 1) * size);
    }
  }

  /** A page number so large that the offset wraps around gives the page meant, which is empty in any history of
      fewer than 2^31 messages, only when the wrapped offset is past the end too; otherwise it repeats recent
      messages or is refused. */
  lemma WrappedPageIsExact<T>(newestFirst: seq<T>, page: nat, size: nat)
    requires page >= 1 && 1 <= size <= 200 && |newestFirst| <= INT_MAX && (page - 1) * size > INT_MAX
    ensures MeantPage(newestFirst, page, size) == []
    ensures ChatPage(newestFirst, page, size) == Some([]) <==> Wrap((page - 1) * size) >= |newestFirst|
  {
    var offset := Wrap((page - 1) * size);
    if 0 <= offset {
      ReverseOnce(Fetch(newestFirst, offset, size));
    }
  }

  lemma LargePageRepeatsMessages<T>(newestFirst: seq<T>)
    requires |newestFirst| == 200
    ensures ChatPage(newestFirst, 21_474_838, 200) == Some(Reverse(newestFirst[104..200]))
    ensures MeantPage(newestFirst, 21_474_838, 200) == []
  {
    assert Wrap(21_474_837 * 200) == 104;
  }
}
