/**
 * Sorting by a key order that may have ties: the model of `sorted(..., key=...)`
 * and of SQL `ORDER BY`. The result is sorted and a permutation of the input.
 */
module Sorting {

  /** `le` compares by a sort key: every two elements are comparable and it is transitive. */
  ghost predicate TotalPreorder<T(!new)>(le: (T, T) -> bool) {
    (forall a, b :: le(a, b) || le(b, a))
    && (forall a, b, c :: le(a, b) && le(b, c) ==> le(a, c))
  }

  predicate SortedBy<T>(xs: seq<T>, le: (T, T) -> bool) {
    forall i, j :: 0 <= i < j < |xs| ==> le(xs[i], xs[j])
  }

  /** Inserts `x` before the first element it is not after. */
  function InsertBy<T>(x: T, xs: seq<T>, le: (T, T) -> bool): seq<T> {
    if xs == [] then [x]
    else if le(x, xs[0]) then [x] + xs
    else [xs[0]] + InsertBy(x, xs[1..], le)
  }

  /** Inserting into a sorted sequence keeps it sorted and adds exactly `x`. */
  lemma {:induction false} InsertBySorted<T(!new)>(x: T, xs: seq<T>, le: (T, T) -> bool)
    requires TotalPreorder(le) && SortedBy(xs, le)
    ensures SortedBy(InsertBy(x, xs, le), le) && multiset(InsertBy(x, xs, le)) == multiset(xs) + multiset{x}
  {
    if xs == [] {
    } else if le(x, xs[0]) {
      forall j | 0 <= j < |xs| ensures le(x, xs[j]) {
        if j > 0 { assert le(xs[0], xs[j]); }
      }
      assert xs == [xs[0]] + xs[1..];
    } else {
      var rest := InsertBy(x, xs[1..], le);
      InsertBySorted(x, xs[1..], le);
      assert xs == [xs[0]] + xs[1..];
      forall j | 0 <= j < |rest| ensures le(xs[0], rest[j]) {
        assert rest[j] in multiset(rest);
        if rest[j] != x {
          assert rest[j] in multiset(xs[1..]);
          var k :| 0 <= k < |xs[1..]| && xs[1..][k] == rest[j];
          assert xs[k + 1] == rest[j];
        }
      }
    }
  }

  /** Insertion sort: sorted by `le`, same elements. */
  function SortBy<T(==,!new)>(xs: seq<T>, le: (T, T) -> bool): (r: seq<T>)
    requires TotalPreorder(le)
    ensures SortedBy(r, le) && multiset(r) == multiset(xs) && |r| == |xs|
  {
    if xs == [] then []
    else
      assert xs == [xs[0]] + xs[1..];
      InsertBySorted(xs[0], SortBy(xs[1..], le), le);
      InsertBy(xs[0], SortBy(xs[1..], le), le)
  }

  // ---------------------------------------------------------------------
  // Stability

  /** The elements of `xs` tied with `y` under `le`, in their order in `xs`. */
  function Ties<T>(xs: seq<T>, le: (T, T) -> bool, y: T): seq<T> {
    if xs == [] then []
    else (if le(xs[0], y) && le(y, xs[0]) then [xs[0]] else []) + Ties(xs[1..], le, y)
  }

  /** The elements of `xs` tied with `y`, with `x` in front when it is tied with `y` too. */
  function TiesAfter<T>(x: T, xs: seq<T>, le: (T, T) -> bool, y: T): seq<T> {
    (if le(x, y) && le(y, x) then [x] else []) + Ties(xs, le, y)
  }

  /** `SortBy` is stable: the elements tied with any `y` come out in their input order. */
  lemma {:induction false} SortByStable<T(!new)>(xs: seq<T>, le: (T, T) -> bool, y: T)
    requires TotalPreorder(le)
    ensures Ties(SortBy(xs, le), le, y) == Ties(xs, le, y)
  {
    if xs != [] {
      SortByStable(xs[1..], le, y);
      InsertByTies(xs[0], SortBy(xs[1..], le), le, y);
    }
  }

  /** Inserting `x` puts it before every element tied with it. */
  lemma {:induction false} InsertByTies<T(!new)>(x: T, xs: seq<T>, le: (T, T) -> bool, y: T)
    requires TotalPreorder(le)
    ensures Ties(InsertBy(x, xs, le), le, y) == TiesAfter(x, xs, le, y)
  {
    if xs == [] {
    } else if le(x, xs[0]) {
      assert ([x] + xs)[1..] == xs;
    } else {
      InsertByTies(x, xs[1..], le, y);
      NotBothTied(x, xs[0], le, y);
      TiesSwap(xs[0], InsertBy(x, xs[1..], le), x, xs[1..], le, y);
      assert [xs[0]] + xs[1..] == xs;
    }
  }

  /** Putting `z` in front of `x` changes no tie list when the two are not both tied with `y`. */
  lemma TiesSwap<T>(z: T, rest: seq<T>, x: T, tail: seq<T>, le: (T, T) -> bool, y: T)
    requires Ties(rest, le, y) == TiesAfter(x, tail, le, y)
    requires !(le(x, y) && le(y, x) && le(z, y) && le(y, z))
    ensures Ties([z] + rest, le, y) == TiesAfter(x, [z] + tail, le, y)
  {
    var tx := if le(x, y) && le(y, x) then [x] else [];
    var tz := if le(z, y) && le(y, z) then [z] else [];
    assert ([z] + rest)[1..] == rest && ([z] + tail)[1..] == tail;
    assert Ties([z] + rest, le, y) == tz + (tx + Ties(tail, le, y));
    assert TiesAfter(x, [z] + tail, le, y) == tx + (tz + Ties(tail, le, y));
    if tx == [] {
      assert tz + (tx + Ties(tail, le, y)) == tz + Ties(tail, le, y);
    } else {
      assert tz + (tx + Ties(tail, le, y)) == tx + Ties(tail, le, y);
    }
  }

  /** Two elements tied with the same `y` are ordered both ways. */
  lemma NotBothTied<T(!new)>(x: T, z: T, le: (T, T) -> bool, y: T)
    requires TotalPreorder(le) && !le(x, z)
    ensures !(le(x, y) && le(y, x) && le(z, y) && le(y, z))
  {
  }
}
