/** Optional values: the source's `null`, `undefined` and nullable columns; and a choice from a set. */
module Wrappers {

  datatype Option<+T> = None | Some(value: T)

  method AnyOf<T>(ids: set<T>) returns (id: T)
    requires ids != {}
    ensures id in ids
  {
    id :| id in ids;
  }

  lemma ElementOf<T>(ids: set<T>) returns (id: T)
    requires ids != {}
    ensures id in ids
  {
    id :| id in ids;
  }

  lemma NoElement<T(!new)>(ids: set<T>)
    requires forall id :: id !in ids
    ensures ids == {}
  {}

  lemma OneElement<T(!new)>(ids: set<T>, id: T)
    requires id in ids && forall other :: other in ids ==> other == id
    ensures |ids| == 1
  {
    assert ids == {id};
  }

  lemma SubsetCount<T>(a: set<T>, b: set<T>)
    requires a <= b
    ensures |a| <= |b|
  {
    assert b == a + (b - a);
  }
}
