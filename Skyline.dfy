/**
 * `findSkyline`: splits a batch of records, in input order, into those no
 * record with a DIFFERENT id dominates (the skyline) and the rest. The four
 * copies in the two headers are identical apart from the record type, so the
 * model is generic in the record type `T`, seen through `key`.
 */
module Skyline {
  import opened Wrappers
  import opened Points

  /** Every record has exactly `d` distances. */
  predicate HasDim<T>(xs: seq<T>, key: T -> Point, d: nat)
  {
    forall i :: 0 <= i < |xs| ==> |key(xs[i]).dist| == d
  }

  /** No record of `all` with a different id dominates `x` (records sharing an id are never compared). */
  predicate Undominated<T>(x: T, all: seq<T>, key: T -> Point)
  {
    forall j :: 0 <= j < |all| && key(all[j]).id != key(x).id ==> !Dominates(key(all[j]).dist, key(x).dist)
  }

  /** The records of `xs` that are undominated in `all`, in order. */
  function Keep<T>(xs: seq<T>, all: seq<T>, key: T -> Point): seq<T>
  {
    if xs == [] then []
    else Keep(xs[..|xs| - 1], all, key) + (if Undominated(xs[|xs| - 1], all, key) then [xs[|xs| - 1]] else [])
  }

  /** The records of `xs` that are dominated in `all`, in order. */
  function Drop<T>(xs: seq<T>, all: seq<T>, key: T -> Point): seq<T>
  {
    if xs == [] then []
    else Drop(xs[..|xs| - 1], all, key) + (if Undominated(xs[|xs| - 1], all, key) then [] else [xs[|xs| - 1]])
  }

  /** What `findSkyline` appends to `skyline`. */
  function Front<T>(all: seq<T>, key: T -> Point): seq<T>
  {
    Keep(all, all, key)
  }

  /** What `findSkyline` appends to `remain_points`. */
  function Rest<T>(all: seq<T>, key: T -> Point): seq<T>
  {
    Drop(all, all, key)
  }

  // ---------------------------------------------------------------------------
  // The loops of findSkyline

  /** The validation loop: does every record have `d` distances? */
  method CheckDims<T>(points: seq<T>, key: T -> Point, d: nat) returns (ok: bool)
    ensures ok == HasDim(points, key, d)
  {
    for i := 0 to |points|
      invariant HasDim(points[..i], key, d)
    {
      if |key(points[i]).dist| != d {
        return false;
      }
    }
    assert points[..|points|] == points;
    return true;
  }

  /** The innermost loop: does `other` dominate `point` over dimensions 0..d-1? */
  method DominatesCheck(other: seq<int>, point: seq<int>, d: nat) returns (b: bool)
    requires |other| == d && |point| == d
    ensures b == Dominates(other, point)
  {
    var dominates := true;
    var strictlyLess := false;
    for dim := 0 to d
      invariant forall k :: 0 <= k < dim ==> other[k] <= point[k]
      invariant strictlyLess <==> exists k :: 0 <= k < dim && other[k] < point[k]
    {
      if other[dim] > point[dim] {
        dominates := false;
        break;
      }
      if other[dim] < point[dim] {
        strictlyLess := true;
      }
    }
    b := dominates && strictlyLess;
  }

  /** The middle loop: is `points[i]` undominated by every record with another id? */
  method IsSkylinePoint<T>(points: seq<T>, i: nat, key: T -> Point, d: nat) returns (b: bool)
    requires i < |points| && HasDim(points, key, d)
    ensures b == Undominated(points[i], points, key)
  {
    var point := key(points[i]);
    b := true;
    for j := 0 to |points|
      invariant forall jj :: 0 <= jj < j && key(points[jj]).id != point.id ==> !Dominates(key(points[jj]).dist, point.dist)
    {
      var other := key(points[j]);
      if point.id == other.id {
        continue;
      }
      var dom := DominatesCheck(other.dist, point.dist, d);
      if dom {
        b := false;
        break;
      }
    }
  }

  /** The outer loop: appends each record to exactly one output, in input order. */
  method Split<T>(points: seq<T>, key: T -> Point, d: nat, skyline: seq<T>, remain: seq<T>)
    returns (skylineOut: seq<T>, remainOut: seq<T>)
    requires HasDim(points, key, d)
    ensures skylineOut == skyline + Front(points, key)
    ensures remainOut == remain + Rest(points, key)
  {
    skylineOut, remainOut := skyline, remain;
    for i := 0 to |points|
      invariant skylineOut == skyline + Keep(points[..i], points, key)
      invariant remainOut == remain + Drop(points[..i], points, key)
    {
      assert points[..i + 1] == points[..i] + [points[i]];
      KeepDropSnoc(points[..i], points[i], points, key);
      var isSkyline := IsSkylinePoint(points, i, key, d);
      if isSkyline {
        skylineOut := skylineOut + [points[i]];
      } else {
        remainOut := remainOut + [points[i]];
      }
    }
    assert points[..|points|] == points;
  }

  /**
   * `findSkyline(points, skyline, remain_points)`: an empty batch changes
   * nothing; a record whose length is not `d` throws invalid_argument before
   * anything is appended; otherwise both outputs are extended.
   */
  method FindSkyline<T>(points: seq<T>, key: T -> Point, d: nat, skyline: seq<T>, remain: seq<T>)
    returns (status: Status, skylineOut: seq<T>, remainOut: seq<T>)
    ensures status.Done? <==> points == [] || HasDim(points, key, d)
    ensures status.Failed? ==> status.error == InvalidArgument && skylineOut == skyline && remainOut == remain
    ensures status.Done? ==> skylineOut == skyline + Front(points, key) && remainOut == remain + Rest(points, key)
  {
    if points == [] {
      return Done, skyline, remain;
    }
    var ok := CheckDims(points, key, d);
    if !ok {
      return Failed(InvalidArgument), skyline, remain;
    }
    skylineOut, remainOut := Split(points, key, d, skyline, remain);
    status := Done;
  }

  // ---------------------------------------------------------------------------
  // What the partition means

  /** Keep and Drop split `xs` into two sub-sequences that together are a permutation of it. */
  lemma {:induction false} KeepDropPartition<T>(xs: seq<T>, all: seq<T>, key: T -> Point)
    ensures multiset(Keep(xs, all, key)) + multiset(Drop(xs, all, key)) == multiset(xs)
    ensures |Keep(xs, all, key)| + |Drop(xs, all, key)| == |xs|
  {
    KeepDropMultiset(xs, all, key);
    assert |multiset(Keep(xs, all, key))| == |Keep(xs, all, key)|;
    assert |multiset(Drop(xs, all, key))| == |Drop(xs, all, key)|;
    assert |multiset(xs)| == |xs|;
  }

  lemma {:induction false} KeepDropMultiset<T>(xs: seq<T>, all: seq<T>, key: T -> Point)
    ensures multiset(Keep(xs, all, key)) + multiset(Drop(xs, all, key)) == multiset(xs)
  {
    if xs != [] {
      var p, x := xs[..|xs| - 1], xs[|xs| - 1];
      assert xs == p + [x];
      KeepDropMultiset(p, all, key);
      KeepDropSnoc(p, x, all, key);
      SplitStep(Keep(p, all, key), Drop(p, all, key), p, x, Undominated(x, all, key));
    }
  }

  /** Sending one more record to one side keeps the two sides a split of the records. */
  lemma SplitStep<T>(keep: seq<T>, drop: seq<T>, xs: seq<T>, x: T, toKeep: bool)
    requires multiset(keep) + multiset(drop) == multiset(xs)
    ensures multiset(keep + (if toKeep then [x] else [])) + multiset(drop + (if toKeep then [] else [x]))
            == multiset(xs + [x])
  {
  }

  /** Appending a record to the batch being split appends it to exactly one side. */
  lemma KeepDropSnoc<T>(xs: seq<T>, x: T, all: seq<T>, key: T -> Point)
    ensures Keep(xs + [x], all, key) == Keep(xs, all, key) + (if Undominated(x, all, key) then [x] else [])
    ensures Drop(xs + [x], all, key) == Drop(xs, all, key) + (if Undominated(x, all, key) then [] else [x])
  {
    assert (xs + [x])[..|xs|] == xs;
  }

  /** A record is kept exactly when it occurs in `xs` and is undominated in `all`. */
  lemma {:induction false} KeepMembers<T>(xs: seq<T>, all: seq<T>, key: T -> Point, x: T)
    ensures x in Keep(xs, all, key) <==> x in xs && Undominated(x, all, key)
    ensures x in Drop(xs, all, key) <==> x in xs && !Undominated(x, all, key)
  {
    if xs != [] {
      var n := |xs| - 1;
      KeepMembers(xs[..n], all, key, x);
      assert xs == xs[..n] + [xs[n]];
    }
  }

  /** The outputs of `findSkyline` are a permutation of its input. */
  lemma SkylinePartition<T>(all: seq<T>, key: T -> Point)
    ensures multiset(Front(all, key)) + multiset(Rest(all, key)) == multiset(all)
    ensures |Front(all, key)| + |Rest(all, key)| == |all|
    ensures forall x :: x in Front(all, key) <==> x in all && Undominated(x, all, key)
    ensures forall x :: x in Rest(all, key) <==> x in all && !Undominated(x, all, key)
  {
    FrontRestCount(all, key);
    forall x {
      KeepMembers(all, all, key, x);
    }
  }

  /** The skyline and the rest together hold every record once. */
  lemma FrontRestCount<T>(all: seq<T>, key: T -> Point)
    ensures multiset(Front(all, key)) + multiset(Rest(all, key)) == multiset(all)
    ensures |Front(all, key)| + |Rest(all, key)| == |all|
  {
    KeepDropPartition(all, all, key);
  }

  /** The rest has the dimension the whole batch had. */
  lemma RestHasDim<T>(all: seq<T>, key: T -> Point, d: nat)
    requires HasDim(all, key, d)
    ensures HasDim(Rest(all, key), key, d)
  {
    SkylinePartition(all, key);
    forall i | 0 <= i < |Rest(all, key)|
      ensures |key(Rest(all, key)[i]).dist| == d
    {
      assert Rest(all, key)[i] in Rest(all, key);
      KeepMembers(all, all, key, Rest(all, key)[i]);
      var k :| 0 <= k < |all| && all[k] == Rest(all, key)[i];
    }
  }

  /** Only the records matter to the dimension check, not their order. */
  lemma HasDimPermutation<T>(xs: seq<T>, ys: seq<T>, key: T -> Point, d: nat)
    requires multiset(xs) == multiset(ys)
    ensures HasDim(xs, key, d) <==> HasDim(ys, key, d)
  {
    forall i | 0 <= i < |ys|
      ensures ys[i] in xs
    {
      assert ys[i] in multiset(ys);
    }
    forall i | 0 <= i < |xs|
      ensures xs[i] in ys
    {
      assert xs[i] in multiset(xs);
    }
  }

  /** A lower bound on the total distance of the records of a batch. */
  function MinSum<T>(all: seq<T>, key: T -> Point): (lo: int)
    ensures forall j :: 0 <= j < |all| ==> lo <= Sum(key(all[j]).dist)
  {
    if all == [] then 0
    else
      var lo := MinSum(all[1..], key);
      assert forall j :: 1 <= j < |all| ==> all[j] == all[1..][j - 1];
      var s := Sum(key(all[0]).dist);
      if s < lo then s else lo
  }

  /**
   * Following "is dominated by a record with another id" from `all[i]`
   * reaches a skyline record, which is `all[i]` itself or dominates it.
   */
  lemma {:induction false} DescendToSkyline<T>(all: seq<T>, key: T -> Point, i: nat)
    requires i < |all|
    ensures exists j :: 0 <= j < |all| && Undominated(all[j], all, key)
                          && (j == i || Dominates(key(all[j]).dist, key(all[i]).dist))
    decreases Sum(key(all[i]).dist) - MinSum(all, key)
  {
    if !Undominated(all[i], all, key) {
      var k :| 0 <= k < |all| && key(all[k]).id != key(all[i]).id && Dominates(key(all[k]).dist, key(all[i]).dist);
      DominatesLowersSum(key(all[k]).dist, key(all[i]).dist);
      DescendToSkyline(all, key, k);
      var j :| 0 <= j < |all| && Undominated(all[j], all, key)
                 && (j == k || Dominates(key(all[j]).dist, key(all[k]).dist));
      DominanceIsStrictOrder(key(all[j]).dist, key(all[k]).dist, key(all[i]).dist);
    }
  }

  /** A non-empty batch has a non-empty skyline, so every peeling round makes progress. */
  lemma SkylineNonEmpty<T>(all: seq<T>, key: T -> Point)
    requires all != []
    ensures Front(all, key) != []
    ensures |Rest(all, key)| < |all|
  {
    DescendToSkyline(all, key, 0);
    var j :| 0 <= j < |all| && Undominated(all[j], all, key);
    SkylinePartition(all, key);
    assert all[j] in Front(all, key);
  }

  /** A single record is its own skyline, and the rest is empty. */
  lemma SkylineSingleton<T>(x: T, key: T -> Point)
    ensures Front([x], key) == [x] && Rest([x], key) == []
  {
    var xs := [x];
    assert xs[..|xs| - 1] == [] && xs[|xs| - 1] == x;
    assert Undominated(x, xs, key);
    assert Keep(xs, xs, key) == Keep([], xs, key) + [x];
    assert Drop(xs, xs, key) == Drop([], xs, key);
  }

  /** Every record left in the rest is dominated by some skyline record. */
  lemma RestDominatedBySkyline<T>(all: seq<T>, key: T -> Point, x: T)
    requires x in Rest(all, key)
    ensures exists y :: y in Front(all, key) && Dominates(key(y).dist, key(x).dist)
  {
    SkylinePartition(all, key);
    var i :| 0 <= i < |all| && all[i] == x;
    DescendToSkyline(all, key, i);
    var j :| 0 <= j < |all| && Undominated(all[j], all, key)
               && (j == i || Dominates(key(all[j]).dist, key(all[i]).dist));
    assert all[j] in Front(all, key);
  }

  /** When ids are distinct, no skyline record dominates another. */
  lemma SkylineIsAntichain<T>(all: seq<T>, key: T -> Point, x: T, y: T)
    requires forall i, j :: 0 <= i < j < |all| ==> key(all[i]).id != key(all[j]).id
    requires x in Front(all, key) && y in Front(all, key)
    ensures !Dominates(key(x).dist, key(y).dist)
  {
    SkylinePartition(all, key);
    if key(x).id == key(y).id {
      var i :| 0 <= i < |all| && all[i] == x;
      var j :| 0 <= j < |all| && all[j] == y;
      assert i == j;
      DominanceIsStrictOrder(key(x).dist, key(x).dist, key(x).dist);
    }
  }
}
