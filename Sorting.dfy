/**
 * The `std::sort(pool_.begin(), pool_.end())` calls of the pool classes, which
 * order records by `operator<`, and the sequence facts used to reason about
 * the record copies the pools make.
 */
module Sorting {
  import opened Points

  function Map<T, U>(f: T -> U, s: seq<T>): seq<U>
  {
    seq(|s|, i requires 0 <= i < |s| => f(s[i]))
  }

  lemma MapConcat<T, U>(f: T -> U, a: seq<T>, b: seq<T>)
    ensures Map(f, a + b) == Map(f, a) + Map(f, b)
  {
  }

  /** Copying records through any view keeps "is a sub-multiset of". */
  lemma {:induction false} MapSubMultiset<T, U>(f: T -> U, a: seq<T>, b: seq<T>)
    requires multiset(a) <= multiset(b)
    ensures multiset(Map(f, a)) <= multiset(Map(f, b))
    decreases |a|
  {
    if a != [] {
      var n := |a| - 1;
      var x := a[n];
      assert a == a[..n] + [x];
      assert x in multiset(b);
      var k :| 0 <= k < |b| && b[k] == x;
      var b' := b[..k] + b[k + 1..];
      assert b == b[..k] + [x] + b[k + 1..];
      assert multiset(b') == multiset(b) - multiset{x};
      assert multiset(a[..n]) == multiset(a) - multiset{x};
      MapSubMultiset(f, a[..n], b');
      MapConcat(f, a[..n], [x]);
      MapConcat(f, b[..k] + [x], b[k + 1..]);
      MapConcat(f, b[..k], [x]);
      MapConcat(f, b[..k], b[k + 1..]);
    }
  }

  lemma MapSameMultiset<T, U>(f: T -> U, a: seq<T>, b: seq<T>)
    requires multiset(a) == multiset(b)
    ensures multiset(Map(f, a)) == multiset(Map(f, b))
  {
    MapSubMultiset(f, a, b);
    MapSubMultiset(f, b, a);
  }

  /** No record is `operator<` its predecessor: the order `std::sort` leaves. */
  predicate Sorted<T>(xs: seq<T>, key: T -> Point)
  {
    forall i, j :: 0 <= i < j < |xs| ==> !LexLess(key(xs[j]).dist, key(xs[i]).dist)
  }

  function Insert<T>(x: T, s: seq<T>, key: T -> Point): seq<T>
  {
    if s == [] || !LexLess(key(s[0]).dist, key(x).dist) then [x] + s
    else [s[0]] + Insert(x, s[1..], key)
  }

  /**
   * The pool order after `std::sort`. `std::sort` is not stable, so records
   * with equal distances may come out in any order; this insertion sort fixes
   * one such order.
   */
  function SortByDist<T>(xs: seq<T>, key: T -> Point): seq<T>
  {
    if xs == [] then [] else Insert(xs[0], SortByDist(xs[1..], key), key)
  }

  /** Inserting keeps every record and adds `x`. */
  lemma {:induction false} InsertPermutes<T>(x: T, s: seq<T>, key: T -> Point)
    ensures multiset(Insert(x, s, key)) == multiset(s) + multiset{x}
    decreases |s|
  {
    if s != [] && LexLess(key(s[0]).dist, key(x).dist) {
      InsertPermutes(x, s[1..], key);
      assert s == [s[0]] + s[1..];
    }
  }

  /** A record no later record is `operator<` of can head an ordered sequence. */
  lemma ConsSorted<T>(y: T, t: seq<T>, key: T -> Point)
    requires Sorted(t, key)
    requires forall j :: 0 <= j < |t| ==> !LexLess(key(t[j]).dist, key(y).dist)
    ensures Sorted([y] + t, key)
  {
    var r := [y] + t;
    forall i, j | 0 <= i < j < |r|
      ensures !LexLess(key(r[j]).dist, key(r[i]).dist)
    {
      assert r[j] == t[j - 1];
      if i > 0 {
        assert r[i] == t[i - 1];
      }
    }
  }

  /** Nothing in an ordered `s` is `operator<` of an `x` that is not above `s[0]`. */
  lemma BelowHead<T>(x: T, s: seq<T>, key: T -> Point)
    requires Sorted(s, key) && s != [] && !LexLess(key(s[0]).dist, key(x).dist)
    ensures forall j :: 0 <= j < |s| ==> !LexLess(key(s[j]).dist, key(x).dist)
  {
    forall j | 0 <= j < |s|
      ensures !LexLess(key(s[j]).dist, key(x).dist)
    {
      if j > 0 && LexLess(key(s[j]).dist, key(x).dist) {
        LexLessTotal(key(s[0]).dist, key(x).dist);
        LexLessTotal(key(s[j]).dist, key(s[0]).dist);
        if key(s[j]).dist != key(s[0]).dist {
          LexLessTransitive(key(s[0]).dist, key(s[j]).dist, key(x).dist);
        }
      }
    }
  }

  lemma {:induction false} InsertSorted<T>(x: T, s: seq<T>, key: T -> Point)
    requires Sorted(s, key)
    ensures multiset(Insert(x, s, key)) == multiset(s) + multiset{x}
    ensures Sorted(Insert(x, s, key), key)
    decreases |s|
  {
    InsertPermutes(x, s, key);
    if s == [] {
      ConsSorted(x, s, key);
    } else if !LexLess(key(s[0]).dist, key(x).dist) {
      BelowHead(x, s, key);
      ConsSorted(x, s, key);
    } else {
      InsertSorted(x, s[1..], key);
      var t := Insert(x, s[1..], key);
      forall j | 0 <= j < |t|
        ensures !LexLess(key(t[j]).dist, key(s[0]).dist)
      {
        assert t[j] in multiset(t);
        if t[j] != x {
          assert t[j] in multiset(s[1..]);
          var k :| 0 <= k < |s[1..]| && s[1..][k] == t[j];
          assert s[k + 1] == t[j];
        } else {
          LexLessIrreflexive(key(x).dist);
          if LexLess(key(x).dist, key(s[0]).dist) {
            LexLessTransitive(key(x).dist, key(s[0]).dist, key(x).dist);
          }
        }
      }
      ConsSorted(s[0], t, key);
    }
  }

  /** The model of `std::sort`: an ordered permutation of the pool. */
  lemma {:induction false} SortByDistCorrect<T>(xs: seq<T>, key: T -> Point)
    ensures Sorted(SortByDist(xs, key), key)
    ensures multiset(SortByDist(xs, key)) == multiset(xs)
  {
    if xs != [] {
      SortByDistCorrect(xs[1..], key);
      InsertSorted(xs[0], SortByDist(xs[1..], key), key);
      assert xs == [xs[0]] + xs[1..];
    }
  }
}
