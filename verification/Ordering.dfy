/** Strict orders and sorted sequences: what a total `ORDER BY` or comparator fixes. */
module Ordering {

  ghost predicate Strict<T(!new)>(lt: (T, T) -> bool) {
    && (forall a :: !lt(a, a))
    && (forall a, b, c :: lt(a, b) && lt(b, c) ==> lt(a, c))
  }

  /** No two entries are tied. */
  predicate Comparable<T>(lt: (T, T) -> bool, xs: seq<T>) {
    forall i, j :: 0 <= i < j < |xs| ==> lt(xs[i], xs[j]) || lt(xs[j], xs[i])
  }

  predicate Sorted<T>(lt: (T, T) -> bool, xs: seq<T>) {
    forall i, j :: 0 <= i < j < |xs| ==> lt(xs[i], xs[j])
  }

  function Insert<T>(lt: (T, T) -> bool, x: T, xs: seq<T>): seq<T> {
    if xs == [] || lt(x, xs[0]) then [x] + xs else [xs[0]] + Insert(lt, x, xs[1..])
  }

  function Sort<T>(lt: (T, T) -> bool, xs: seq<T>): seq<T> {
    if xs == [] then [] else Insert(lt, xs[0], Sort(lt, xs[1..]))
  }

  lemma {:induction false} InsertKeeps<T>(lt: (T, T) -> bool, x: T, xs: seq<T>)
    ensures multiset(Insert(lt, x, xs)) == multiset(xs) + multiset{x}
  {
    if xs != [] && !lt(x, xs[0]) {
      InsertKeeps(lt, x, xs[1..]);
      assert xs == [xs[0]] + xs[1..];
    }
  }

  lemma {:induction false} InsertSorts<T(!new)>(lt: (T, T) -> bool, x: T, xs: seq<T>)
    requires Strict(lt) && Sorted(lt, xs) && forall y <- xs :: lt(x, y) || lt(y, x)
    ensures Sorted(lt, Insert(lt, x, xs))
  {
    if xs == [] {
    } else if lt(x, xs[0]) {
      forall j | 0 <= j < |xs| ensures lt(x, xs[j]) {}
    } else {
      var rest := xs[1..];
      assert Sorted(lt, rest) by {
        forall i, j | 0 <= i < j < |rest| ensures lt(rest[i], rest[j]) { assert rest[i] == xs[i + 1] && rest[j] == xs[j + 1]; }
      }
      InsertSorts(lt, x, rest);
      InsertKeeps(lt, x, rest);
      var tail := Insert(lt, x, rest);
      forall j | 0 <= j < |tail| ensures lt(xs[0], tail[j]) {
        assert tail[j] in multiset(tail);
        if tail[j] in rest {
          var k :| 0 <= k < |rest| && rest[k] == tail[j];
          assert xs[k + 1] == tail[j];
        }
      }
    }
  }

  /** Sorting arranges what it was given, without ties, in increasing order. */
  lemma {:induction false} SortSorts<T(!new)>(lt: (T, T) -> bool, xs: seq<T>)
    requires Strict(lt) && Comparable(lt, xs)
    ensures Sorted(lt, Sort(lt, xs))
    ensures multiset(Sort(lt, xs)) == multiset(xs)
  {
    if xs != [] {
      var rest := xs[1..];
      assert xs == [xs[0]] + rest;
      assert Comparable(lt, rest) by {
        forall i, j | 0 <= i < j < |rest| ensures lt(rest[i], rest[j]) || lt(rest[j], rest[i]) {
          assert rest[i] == xs[i + 1] && rest[j] == xs[j + 1];
        }
      }
      SortSorts(lt, rest);
      var sorted := Sort(lt, rest);
      forall y | y in sorted ensures lt(xs[0], y) || lt(y, xs[0]) {
        assert y in multiset(sorted);
        var k :| 0 <= k < |rest| && rest[k] == y;
        assert xs[k + 1] == y;
      }
      InsertSorts(lt, xs[0], sorted);
      InsertKeeps(lt, xs[0], sorted);
    }
  }

  /** There is only one sorted arrangement. */
  lemma {:induction false} SortedIsUnique<T(!new)>(lt: (T, T) -> bool, xs: seq<T>, ys: seq<T>)
    requires Strict(lt) && Sorted(lt, xs) && Sorted(lt, ys) && multiset(xs) == multiset(ys)
    ensures xs == ys
  {
    assert |xs| == |multiset(xs)| && |ys| == |multiset(ys)|;
    if xs != [] {
      SameHead(lt, xs, ys);
      SameTails(xs, ys);
      SortedTail(lt, xs);
      SortedTail(lt, ys);
      SortedIsUnique(lt, xs[1..], ys[1..]);
      assert xs == [xs[0]] + xs[1..] && ys == [ys[0]] + ys[1..];
    }
  }

  lemma SameHead<T(!new)>(lt: (T, T) -> bool, xs: seq<T>, ys: seq<T>)
    requires Strict(lt) && Sorted(lt, xs) && Sorted(lt, ys) && multiset(xs) == multiset(ys) && xs != [] && ys != []
    ensures xs[0] == ys[0]
  {
    assert xs[0] in multiset(ys) && ys[0] in multiset(xs);
    var k :| 0 <= k < |ys| && ys[k] == xs[0];
    var m :| 0 <= m < |xs| && xs[m] == ys[0];
  }

  lemma SameTails<T>(xs: seq<T>, ys: seq<T>)
    requires xs != [] && ys != [] && xs[0] == ys[0] && multiset(xs) == multiset(ys)
    ensures multiset(xs[1..]) == multiset(ys[1..])
  {
    assert xs == [xs[0]] + xs[1..] && ys == [ys[0]] + ys[1..];
    assert multiset(xs[1..]) == multiset(xs) - multiset{xs[0]};
    assert multiset(ys[1..]) == multiset(ys) - multiset{ys[0]};
  }

  lemma SortedTail<T>(lt: (T, T) -> bool, xs: seq<T>)
    requires Sorted(lt, xs) && xs != []
    ensures Sorted(lt, xs[1..])
  {
    var rest := xs[1..];
    forall i, j | 0 <= i < j < |rest| ensures lt(rest[i], rest[j]) { assert rest[i] == xs[i + 1] && rest[j] == xs[j + 1]; }
  }

  /** Sorting what is sorted changes nothing. */
  lemma SortOfSorted<T(!new)>(lt: (T, T) -> bool, xs: seq<T>)
    requires Strict(lt) && Sorted(lt, xs)
    ensures Sort(lt, xs) == xs
  {
    SortSorts(lt, xs);
    SortedIsUnique(lt, Sort(lt, xs), xs);
  }
}
