/** Python's stable sort, as insertion: by any strict weak order, equal elements staying as they came. */
module StableSort {

  ghost predicate WeakOrder<T(!new)>(before: (T, T) -> bool) {
    && (forall x, y :: before(x, y) ==> !before(y, x))
    && (forall x, y, z :: !before(x, y) && !before(y, z) ==> !before(x, z))
  }

  /** An element goes in front of the later ones it is not strictly after. */
  function Insert<T>(before: (T, T) -> bool, x: T, sorted: seq<T>): seq<T> {
    if sorted == [] || !before(sorted[0], x) then [x] + sorted else [sorted[0]] + Insert(before, x, sorted[1..])
  }

  function Sorted<T>(before: (T, T) -> bool, xs: seq<T>): seq<T> {
    if xs == [] then [] else Insert(before, xs[0], Sorted(before, xs[1..]))
  }

  ghost predicate InOrder<T>(before: (T, T) -> bool, xs: seq<T>) {
    forall i, j :: 0 <= i < j < |xs| ==> !before(xs[j], xs[i])
  }

  lemma {:induction false} InsertKeeps<T>(before: (T, T) -> bool, x: T, sorted: seq<T>)
    ensures multiset(Insert(before, x, sorted)) == multiset(sorted) + multiset{x}
  {
    if sorted == [] || !before(sorted[0], x) {
    } else {
      InsertKeeps(before, x, sorted[1..]);
      assert sorted == [sorted[0]] + sorted[1..];
    }
  }

  lemma {:induction false} InsertSorts<T(!new)>(before: (T, T) -> bool, x: T, sorted: seq<T>)
    requires WeakOrder(before) && InOrder(before, sorted)
    ensures InOrder(before, Insert(before, x, sorted))
  {
    if sorted == [] {
    } else if !before(sorted[0], x) {
      forall i | 0 <= i < |sorted| ensures !before(sorted[i], x) {
        assert !before(sorted[0], sorted[0]);
        assert !before(sorted[i], sorted[0]);
      }
    } else {
      InsertSorts(before, x, sorted[1..]);
      InsertKeeps(before, x, sorted[1..]);
      var rest := Insert(before, x, sorted[1..]);
      forall i | 0 <= i < |rest| ensures !before(rest[i], sorted[0]) {
        assert rest[i] in multiset(rest);
        if rest[i] != x { assert rest[i] in sorted[1..]; }
      }
    }
  }

  /** Nothing is lost, and nothing stands behind an element it is before. */
  lemma {:induction false} SortSorts<T(!new)>(before: (T, T) -> bool, xs: seq<T>)
    requires WeakOrder(before)
    ensures InOrder(before, Sorted(before, xs)) && multiset(Sorted(before, xs)) == multiset(xs)
    ensures |Sorted(before, xs)| == |xs|
  {
    if xs == [] {
    } else {
      assert xs == [xs[0]] + xs[1..];
      SortSorts(before, xs[1..]);
      InsertSorts(before, xs[0], Sorted(before, xs[1..]));
      InsertKeeps(before, xs[0], Sorted(before, xs[1..]));
      assert |Sorted(before, xs)| == |multiset(Sorted(before, xs))|;
    }
  }
}
