/**
 * `multi_vector_gps.h`: the layered candidate pool `MultiVectorGPS` and the
 * queue `MultiVectorSkylineQueue`, over `MultiVectorNeighbor` records.
 */
module Gps {
  import opened Wrappers
  import opened Points
  import opened Skyline
  import opened Sorting
  import opened Layering
  import opened Neighbors

  /**
   * `insert(id, distances)`: the scan of `pool_` and `outlier_` for `id`,
   * then the append to `outlier_` with the flag set and layer 0.
   */
  method InsertPending(pool: seq<Neighbor>, outlier: seq<Neighbor>, id: nat, distances: seq<int>)
    returns (outlierOut: seq<Neighbor>)
    ensures outlierOut == if HasId(pool, id) || HasId(outlier, id) then outlier
                          else outlier + [Neighbor(id, distances, true, 0)]
  {
    for i := 0 to |pool|
      invariant forall j :: 0 <= j < i ==> pool[j].id != id
    {
      if pool[i].id == id {
        return outlier;
      }
    }
    for i := 0 to |outlier|
      invariant forall j :: 0 <= j < i ==> outlier[j].id != id
    {
      if outlier[i].id == id {
        return outlier;
      }
    }
    return outlier + [Neighbor(id, distances, true, 0)];
  }

  class MultiVectorGps {
    var pool: seq<Neighbor>
    var outlier: seq<Neighbor>
    var m: nat
    var numLayer: nat
    var numDimensions: nat

    /** The constructors and `setNumDimensions` admit only D >= 1. */
    ghost predicate Valid()
      reads this
    {
      numDimensions >= 1
    }

    /** The default constructor: two objectives, no capacity. */
    constructor Default()
      ensures Valid()
      ensures pool == [] && outlier == [] && m == 0 && numLayer == 0 && numDimensions == 2
    {
      pool, outlier, m, numLayer, numDimensions := [], [], 0, 0, 2;
    }

    constructor Make(m: nat, d: nat)
      ensures pool == [] && outlier == [] && this.m == m && numLayer == 0 && numDimensions == d
    {
      pool, outlier, this.m, numLayer, numDimensions := [], [], m, 0, d;
    }

    /** `MultiVectorGPS(m, s, q, d)`: invalid_argument when d < 1. */
    static method Create(m: nat, d: nat) returns (r: Result<MultiVectorGps>)
      ensures r.Ok? <==> d >= 1
      ensures r.Err? ==> r.error == InvalidArgument
      ensures r.Ok? ==> fresh(r.value) && r.value.Valid()
      ensures r.Ok? ==> r.value.pool == [] && r.value.outlier == [] && r.value.m == m
                        && r.value.numLayer == 0 && r.value.numDimensions == d
    {
      if d < 1 {
        return Err(InvalidArgument);
      }
      var g := new MultiVectorGps.Make(m, d);
      return Ok(g);
    }

    /** The copy constructor copies the settings and the layer count, but starts with empty pools. */
    constructor Copy(other: MultiVectorGps)
      ensures other.Valid() ==> Valid()
      ensures m == other.m && numLayer == other.numLayer && numDimensions == other.numDimensions
      ensures pool == [] && outlier == []
    {
      pool, outlier := [], [];
      m, numLayer, numDimensions := other.m, other.numLayer, other.numDimensions;
    }

    /** `setNumDimensions(d)`: invalid_argument when d < 1, leaving everything unchanged. */
    method SetNumDimensions(d: nat) returns (status: Status)
      requires Valid()
      modifies this
      ensures Valid()
      ensures status.Done? <==> d >= 1
      ensures status.Failed? ==> status.error == InvalidArgument && numDimensions == old(numDimensions)
      ensures status.Done? ==> numDimensions == d
      ensures pool == old(pool) && outlier == old(outlier) && m == old(m) && numLayer == old(numLayer)
    {
      if d < 1 {
        return Failed(InvalidArgument);
      }
      numDimensions := d;
      return Done;
    }

    /**
     * `initNeighbor(insert_points)`: peels the input into Pareto layers,
     * appends every point to the pool with the flag set and its round as
     * layer, leaves the last round's skyline in `outlier_`, counts the
     * rounds and sorts the pool. The input is handed back empty. A point of
     * the wrong length throws in the first round, before anything changes.
     */
    method InitNeighbor(input: seq<Neighbor>) returns (status: Status, rest: seq<Neighbor>)
      requires Valid()
      modifies this
      ensures Valid() && m == old(m) && numDimensions == old(numDimensions)
      ensures status.Done? <==> input == [] || HasDim(input, Key, numDimensions)
      ensures status.Failed? ==> (status.error == InvalidArgument && rest == input
                && pool == old(pool) && outlier == old(outlier) && numLayer == old(numLayer))
      ensures status.Done? ==> (rest == []
                && pool == SortByDist(old(pool) + Relayer(Peel(input, Key), FreshTag), Key)
                && numLayer == |Peel(input, Key)|
                && outlier == (if input == [] then old(outlier) else Peel(input, Key)[numLayer - 1]))
    {
      if input != [] {
        var ok := CheckDims(input, Key, numDimensions);
        if !ok {
          return Failed(InvalidArgument), input;
        }
      }
      var rounds;
      pool, rounds, outlier := PeelRounds(input, Key, numDimensions, FreshTag, pool, outlier);
      numLayer := rounds;
      pool := SortByDist(pool, Key);
      return Done, [];
    }

    /**
     * `updateNeighbor()`: moves the pool out, sorts it, and re-peels it from
     * layer 0 while the pool holds fewer than M records, keeping each
     * record's flag. A record of the wrong length throws in the first round,
     * after the pool was moved out, so the pool is left empty.
     */
    method UpdateNeighbor() returns (status: Status)
      requires Valid()
      modifies this
      ensures Valid() && m == old(m) && numDimensions == old(numDimensions)
      ensures status.Done? <==> m == 0 || old(pool) == [] || HasDim(old(pool), Key, numDimensions)
      ensures status.Failed? ==> (status.error == InvalidArgument
                && pool == [] && outlier == old(outlier) && numLayer == old(numLayer))
      ensures status.Done? ==>
                var layers := PeelCapped(SortByDist(old(pool), Key), Key, 0, m);
                && pool == Relayer(layers, KeepTag)
                && numLayer == |layers|
                && outlier == (if numLayer == 0 then old(outlier) else layers[numLayer - 1])
    {
      var candidate := pool;
      pool := [];
      SortKeepsDim(candidate, Key, numDimensions);
      candidate := SortByDist(candidate, Key);
      if m > 0 && candidate != [] {
        var ok := CheckDims(candidate, Key, numDimensions);
        if !ok {
          return Failed(InvalidArgument);
        }
      }
      var rounds;
      pool, rounds, outlier := PeelRoundsCapped(candidate, Key, numDimensions, KeepTag, m, outlier);
      numLayer := rounds;
      return Done;
    }

    /**
     * `insert(id, distances)`: invalid_argument on a length mismatch; a no-op
     * when the id is already pooled or pending; otherwise the point waits in
     * `outlier_`. The pool itself never changes.
     */
    method Insert(id: nat, distances: seq<int>) returns (status: Status)
      modifies this
      ensures status.Done? <==> |distances| == numDimensions
      ensures status.Failed? ==> status.error == InvalidArgument
      ensures pool == old(pool) && numLayer == old(numLayer) && m == old(m) && numDimensions == old(numDimensions)
      ensures outlier == if status.Failed? || HasId(pool, id) || HasId(old(outlier), id) then old(outlier)
                         else old(outlier) + [Neighbor(id, distances, true, 0)]
    {
      if |distances| != numDimensions {
        return Failed(InvalidArgument);
      }
      outlier := InsertPending(pool, outlier, id, distances);
      return Done;
    }

    /** `clear()`: empties the pool and the pending points and resets the layer count. */
    method Clear()
      modifies this
      ensures pool == [] && outlier == [] && numLayer == 0
      ensures m == old(m) && numDimensions == old(numDimensions)
    {
      pool, outlier, numLayer := [], [], 0;
    }
  }

  // ---------------------------------------------------------------------------
  // What the pool operations promise

  /**
   * After `initNeighbor`: the pool is sorted, and besides the old records it
   * holds every input point exactly once (same id and distances), flagged,
   * with a layer below the round count; layers never decrease along the
   * appended records.
   */
  lemma InitNeighborPool(p0: seq<Neighbor>, xs: seq<Neighbor>)
    ensures var added := Relayer(Peel(xs, Key), FreshTag);
            && Sorted(SortByDist(p0 + added, Key), Key)
            && multiset(SortByDist(p0 + added, Key)) == multiset(p0) + multiset(added)
            && multiset(Map(Key, added)) == multiset(Map(Key, xs))
            && (forall i :: 0 <= i < |added| ==> added[i].flag && 0 <= added[i].layer < |Peel(xs, Key)|)
            && (forall i, j :: 0 <= i <= j < |added| ==> added[i].layer <= added[j].layer)
  {
    var added := Relayer(Peel(xs, Key), FreshTag);
    SortByDistCorrect(p0 + added, Key);
    RelayerViews(Peel(xs, Key), FreshTag, Key, Key);
    PeelPartition(xs, Key);
    MapSameMultiset(Key, Flatten(Peel(xs, Key)), xs);
    RelayerLayers(Peel(xs, Key), FreshTag, Layer);
    FreshTagsFlagged(Peel(xs, Key));
  }

  lemma {:induction false} FreshTagsFlagged(ls: seq<seq<Neighbor>>)
    ensures forall i :: 0 <= i < |Relayer(ls, FreshTag)| ==> Relayer(ls, FreshTag)[i].flag
  {
    if ls != [] {
      var init := ls[..|ls| - 1];
      FreshTagsFlagged(init);
      var r := Relayer(ls, FreshTag);
      assert r == Relayer(init, FreshTag) + TagAll(ls[|ls| - 1], |ls| - 1, FreshTag);
      forall i | 0 <= i < |r|
        ensures r[i].flag
      {
        if i >= |Relayer(init, FreshTag)| {
          assert r[i] == FreshTag(ls[|ls| - 1][i - |Relayer(init, FreshTag)|], |ls| - 1);
        }
      }
    }
  }

  /** Three (or any number of) mutually non-dominating points all land in layer 0. */
  lemma AntichainInitNeighbor(xs: seq<Neighbor>)
    requires xs != []
    requires forall i, j :: 0 <= i < |xs| && 0 <= j < |xs| && xs[i].id != xs[j].id
                            ==> !Dominates(xs[i].distances, xs[j].distances)
    ensures |Peel(xs, Key)| == 1
    ensures Relayer(Peel(xs, Key), FreshTag) == TagAll(xs, 0, FreshTag)
  {
    PeelNoDominance(xs, Key);
    assert [xs][..0] == [];
  }

  /**
   * After `updateNeighbor`: the records are a sub-multiset of the old pool
   * up to their layer (flags kept), the layers never decrease and are
   * sorted within a layer; if any record was dropped the pool reached M,
   * and when the pool fits in M nothing is dropped.
   */
  lemma UpdateNeighborPool(p0: seq<Neighbor>, cap: nat)
    ensures var layers := PeelCapped(SortByDist(p0, Key), Key, 0, cap);
            var p := Relayer(layers, KeepTag);
            && multiset(Map(Unlayered, p)) <= multiset(Map(Unlayered, p0))
            && (|p| < |p0| ==> |p| >= cap)
            && (|p0| <= cap ==> multiset(Map(Unlayered, p)) == multiset(Map(Unlayered, p0)))
  {
    var sorted := SortByDist(p0, Key);
    var layers := PeelCapped(sorted, Key, 0, cap);
    var p := Relayer(layers, KeepTag);
    SortByDistCorrect(p0, Key);
    RelayerViews(layers, KeepTag, Unlayered, Unlayered);
    RelayerLength(layers, KeepTag);
    PeelCappedSubMultiset(sorted, Key, 0, cap);
    PeelCappedFull(sorted, Key, 0, cap);
    MapSubMultiset(Unlayered, Flatten(layers), sorted);
    MapSameMultiset(Unlayered, sorted, p0);
    assert |sorted| == |multiset(sorted)| == |multiset(p0)| == |p0|;
    if |p0| <= cap {
      PeelCappedAll(sorted, Key, 0, cap);
      PeelPartition(sorted, Key);
      MapSameMultiset(Unlayered, Flatten(layers), sorted);
    }
  }

  /** After `updateNeighbor`: layers never decrease, and within a layer records are in `operator<` order. */
  lemma UpdateNeighborOrder(p0: seq<Neighbor>, cap: nat)
    ensures var p := Relayer(PeelCapped(SortByDist(p0, Key), Key, 0, cap), KeepTag);
            && (forall i, j :: 0 <= i <= j < |p| ==> p[i].layer <= p[j].layer)
            && (forall i, j :: 0 <= i < j < |p| && p[i].layer == p[j].layer
                  ==> !LexLess(p[j].distances, p[i].distances))
  {
    var sorted := SortByDist(p0, Key);
    var layers := PeelCapped(sorted, Key, 0, cap);
    SortByDistCorrect(p0, Key);
    PeelCappedSorted(sorted, Key, 0, cap);
    RelayerLayers(layers, KeepTag, Layer);
    RelayerSortedWithinLayers(layers, KeepTag, Layer, Key, Key);
  }

  // ---------------------------------------------------------------------------
  // MultiVectorSkylineQueue

  /** Every record has the two distances `cross` reads. */
  predicate TwoD(s: seq<Neighbor>)
  {
    forall i :: 0 <= i < |s| ==> |s[i].distances| >= 2
  }

  /** The value `cross(O, A, B)` computes, with the distances as (y, x) = (d1, d0). */
  function CrossValue(o: Neighbor, a: Neighbor, b: Neighbor): int
    requires |o.distances| >= 2 && |a.distances| >= 2 && |b.distances| >= 2
  {
    (a.distances[1] - o.distances[1]) * (b.distances[0] - o.distances[0])
      - (a.distances[0] - o.distances[0]) * (b.distances[1] - o.distances[1])
  }

  /** The stack invariant of the hull pass: every three consecutive records turn with `cross > 0`. */
  predicate Convex(h: seq<Neighbor>)
  {
    && TwoD(h)
    && forall i :: 0 <= i < |h| - 2 ==> CrossValue(h[i], h[i + 1], h[i + 2]) > 0
  }

  /** `s` back to front: the order in which popped hull tops reach `remain_points`. */
  function Reversed(s: seq<Neighbor>): (r: seq<Neighbor>)
    ensures |r| == |s|
  {
    if s == [] then [] else Reversed(s[1..]) + [s[0]]
  }

  /** Reversing keeps the records. */
  lemma {:induction false} ReversedMultiset(s: seq<Neighbor>)
    ensures multiset(Reversed(s)) == multiset(s)
    decreases |s|
  {
    if s != [] {
      ReversedMultiset(s[1..]);
      assert s == [s[0]] + s[1..];
    }
  }

  /** A stack cut at `n`, with the cut-off part reversed, still holds every record. */
  lemma SplitReversed(hull: seq<Neighbor>, n: nat)
    requires n <= |hull|
    ensures multiset(hull[..n]) + multiset(Reversed(hull[n..])) == multiset(hull)
  {
    ReversedMultiset(hull[n..]);
    assert hull == hull[..n] + hull[n..];
  }

  /**
   * How many records of `hull` survive the pops for `p`: the top is popped
   * while at least two records remain and the top two and `p` have
   * `cross <= 0`.
   */
  function Kept(hull: seq<Neighbor>, p: Neighbor): (k: nat)
    requires TwoD(hull) && |p.distances| >= 2
    ensures k <= |hull|
    decreases |hull|
  {
    if |hull| >= 2 && CrossValue(hull[|hull| - 2], hull[|hull| - 1], p) <= 0 then Kept(hull[..|hull| - 1], p)
    else |hull|
  }

  /** The stack `hull[..k]` has at least two records and its top two and `p` have `cross <= 0`. */
  predicate FailsTurn(hull: seq<Neighbor>, k: nat, p: Neighbor)
    requires TwoD(hull) && |p.distances| >= 2 && k <= |hull|
  {
    k >= 2 && CrossValue(hull[k - 2], hull[k - 1], p) <= 0
  }

  /** One pop: `Kept` of a stack that fails the turn test is `Kept` of the stack without its top. */
  lemma KeptPop(hull: seq<Neighbor>, p: Neighbor)
    requires TwoD(hull) && |p.distances| >= 2 && FailsTurn(hull, |hull|, p)
    ensures Kept(hull[..|hull| - 1], p) == Kept(hull, p)
  {
  }

  /** Popping the record at `n` appends it after the records popped before it. */
  lemma ReversedPop(hull: seq<Neighbor>, n: nat)
    requires n < |hull|
    ensures Reversed(hull[n..]) == Reversed(hull[n + 1..]) + [hull[n]]
  {
    assert hull[n..][1..] == hull[n + 1..];
  }

  /**
   * The pops for `p` stop at the first stack whose top two turn with
   * `cross > 0` against `p` (or that has fewer than two records), and every
   * record popped was the top of a stack that failed that test.
   */
  lemma {:induction false} KeptPopsExactlyTheFailures(hull: seq<Neighbor>, p: Neighbor)
    requires TwoD(hull) && |p.distances| >= 2
    ensures hull != [] ==> Kept(hull, p) >= 1
    ensures Kept(hull, p) >= 2 ==> CrossValue(hull[Kept(hull, p) - 2], hull[Kept(hull, p) - 1], p) > 0
    ensures forall k: nat :: Kept(hull, p) < k <= |hull| ==> FailsTurn(hull, k, p)
    decreases |hull|
  {
    if |hull| >= 2 && CrossValue(hull[|hull| - 2], hull[|hull| - 1], p) <= 0 {
      var init := hull[..|hull| - 1];
      KeptPopsExactlyTheFailures(init, p);
      assert Kept(hull, p) == Kept(init, p);
      forall k: nat | Kept(hull, p) < k <= |hull|
        ensures FailsTurn(hull, k, p)
      {
        if k < |hull| {
          assert FailsTurn(init, k, p);
          assert init[k - 2] == hull[k - 2] && init[k - 1] == hull[k - 1];
        }
      }
    }
  }

  /** The loop invariant of the pops for `p`: `h` is a prefix of `hull` with the same `Kept`, and `r` got the cut-off part, top first. */
  ghost predicate PopInv(hull: seq<Neighbor>, remain: seq<Neighbor>, p: Neighbor, h: seq<Neighbor>, r: seq<Neighbor>)
    requires TwoD(hull) && |p.distances| >= 2
  {
    && |h| <= |hull| && h == hull[..|h|] && TwoD(h)
    && (hull != [] ==> h != [])
    && Kept(h, p) == Kept(hull, p)
    && r == remain + Reversed(hull[|h|..])
  }

  /** One pop keeps the invariant. */
  lemma PopStep(hull: seq<Neighbor>, remain: seq<Neighbor>, p: Neighbor, h: seq<Neighbor>, r: seq<Neighbor>)
    requires TwoD(hull) && |p.distances| >= 2
    requires PopInv(hull, remain, p, h, r) && FailsTurn(h, |h|, p)
    ensures PopInv(hull, remain, p, h[..|h| - 1], r + [h[|h| - 1]])
  {
    var n := |h| - 1;
    KeptPop(h, p);
    ReversedPop(hull, n);
    assert h[..n] == hull[..n];
  }

  /** When the top turns with `cross > 0` (or fewer than two records are left), the pops are done. */
  lemma PopExit(hull: seq<Neighbor>, remain: seq<Neighbor>, p: Neighbor, h: seq<Neighbor>, r: seq<Neighbor>)
    requires TwoD(hull) && |p.distances| >= 2
    requires PopInv(hull, remain, p, h, r) && !FailsTurn(h, |h|, p)
    ensures h == hull[..Kept(hull, p)] && r == remain + Reversed(hull[Kept(hull, p)..])
  {
  }

  /** The stack and the rest after the pops for `p`: nothing lost, `remain` kept in front, and the pops exactly the failed turns. */
  lemma PopsResult(hull: seq<Neighbor>, remain: seq<Neighbor>, p: Neighbor)
    requires TwoD(hull) && |p.distances| >= 2
    ensures var k, kept, rest := Kept(hull, p), hull[..Kept(hull, p)], remain + Reversed(hull[Kept(hull, p)..]);
      && multiset(kept) + multiset(rest) == multiset(hull) + multiset(remain)
      && |remain| <= |rest| && rest[..|remain|] == remain
      && (hull != [] ==> kept != [])
      && (k >= 2 ==> CrossValue(kept[k - 2], kept[k - 1], p) > 0)
      && (forall j: nat :: k < j <= |hull| ==> FailsTurn(hull, j, p))
  {
    var k := Kept(hull, p);
    KeptPopsExactlyTheFailures(hull, p);
    SplitReversed(hull, k);
    var rest := remain + Reversed(hull[k..]);
    assert rest[..|remain|] == remain;
  }

  lemma TwoDPrefix(s: seq<Neighbor>, n: nat)
    requires TwoD(s) && n <= |s|
    ensures TwoD(s[..n])
  {
  }

  lemma TwoDPush(h: seq<Neighbor>, k: nat, p: Neighbor)
    requires TwoD(h) && k <= |h| && |p.distances| >= 2
    ensures TwoD(h[..k] + [p])
  {
  }

  /** The hull after the monotone-chain pass over `points`, starting from `hull`. */
  function Chain(hull: seq<Neighbor>, points: seq<Neighbor>): (r: seq<Neighbor>)
    requires TwoD(hull) && TwoD(points)
    ensures TwoD(r)
    decreases |points|
  {
    if points == [] then hull
    else
      TwoDPrefix(points, |points| - 1);
      var h := Chain(hull, points[..|points| - 1]);
      var p := points[|points| - 1];
      TwoDPush(h, Kept(h, p), p);
      h[..Kept(h, p)] + [p]
  }

  /** One more point of the pass: its pops, then its push. */
  lemma ChainSnoc(hull: seq<Neighbor>, points: seq<Neighbor>, i: nat)
    requires TwoD(hull) && TwoD(points) && i < |points|
    ensures TwoD(points[..i]) && TwoD(points[..i + 1])
    ensures var h, p := Chain(hull, points[..i]), points[i];
      && Chain(hull, points[..i + 1]) == h[..Kept(h, p)] + [p]
      && ChainPopped(hull, points[..i + 1]) == ChainPopped(hull, points[..i]) + Reversed(h[Kept(h, p)..])
  {
    TwoDPrefix(points, i);
    TwoDPrefix(points, i + 1);
    assert points[..i + 1][..i] == points[..i];
  }

  /** What the pass over `points` appends to `remain_points`, in order. */
  function ChainPopped(hull: seq<Neighbor>, points: seq<Neighbor>): seq<Neighbor>
    requires TwoD(hull) && TwoD(points)
    decreases |points|
  {
    if points == [] then []
    else
      TwoDPrefix(points, |points| - 1);
      var h := Chain(hull, points[..|points| - 1]);
      var p := points[|points| - 1];
      ChainPopped(hull, points[..|points| - 1]) + Reversed(h[Kept(h, p)..])
  }

  /** The pass loses nothing: every record of `hull` and `points` ends on the stack or in the popped part. */
  lemma {:induction false} ChainMultiset(hull: seq<Neighbor>, remain: seq<Neighbor>, points: seq<Neighbor>)
    requires TwoD(hull) && TwoD(points)
    ensures multiset(Chain(hull, points)) + multiset(remain + ChainPopped(hull, points))
         == multiset(hull) + multiset(remain) + multiset(points)
    decreases |points|
  {
    if points == [] {
      assert remain + [] == remain;
    } else {
      var init, p := points[..|points| - 1], points[|points| - 1];
      TwoDPrefix(points, |points| - 1);
      ChainMultiset(hull, remain, init);
      var h := Chain(hull, init);
      var k := Kept(h, p);
      PushPopMultiset(h, remain + ChainPopped(hull, init), k, p, multiset(hull) + multiset(remain) + multiset(init));
      assert ChainPopped(hull, points) == ChainPopped(hull, init) + Reversed(h[k..]);
      AppendAssoc(remain, ChainPopped(hull, init), Reversed(h[k..]));
      SnocMultiset(multiset(hull) + multiset(remain), points);
    }
  }

  /** Splitting a stack at `k`, pushing `p` and moving the popped part, reversed, to the rest loses nothing. */
  lemma PushPopMultiset(h: seq<Neighbor>, popped: seq<Neighbor>, k: nat, p: Neighbor, base: multiset<Neighbor>)
    requires k <= |h| && multiset(h) + multiset(popped) == base
    ensures multiset(h[..k] + [p]) + multiset(popped + Reversed(h[k..])) == base + multiset{p}
  {
    SplitReversed(h, k);
  }

  lemma AppendAssoc(a: seq<Neighbor>, b: seq<Neighbor>, c: seq<Neighbor>)
    ensures a + (b + c) == (a + b) + c
  {
  }

  lemma SnocMultiset(base: multiset<Neighbor>, s: seq<Neighbor>)
    requires s != []
    ensures base + multiset(s) == base + multiset(s[..|s| - 1]) + multiset{s[|s| - 1]}
  {
    assert s == s[..|s| - 1] + [s[|s| - 1]];
  }

  /** The pass keeps a hull whose every turn is left (`cross > 0`) so. */
  lemma {:induction false} ChainConvex(hull: seq<Neighbor>, points: seq<Neighbor>)
    requires TwoD(hull) && TwoD(points) && Convex(hull)
    ensures Convex(Chain(hull, points))
    decreases |points|
  {
    if points != [] {
      var init, p := points[..|points| - 1], points[|points| - 1];
      TwoDPrefix(points, |points| - 1);
      ChainConvex(hull, init);
      KeptConvex(Chain(hull, init), p);
    }
  }

  /** The whole pass: nothing lost, `remain` kept in front, the turns kept left, the ends in place. */
  lemma ChainResult(hull: seq<Neighbor>, remain: seq<Neighbor>, points: seq<Neighbor>)
    requires TwoD(hull) && TwoD(points)
    ensures var h, r := Chain(hull, points), remain + ChainPopped(hull, points);
      && multiset(h) + multiset(r) == multiset(hull) + multiset(remain) + multiset(points)
      && |remain| <= |r| && r[..|remain|] == remain
      && (Convex(hull) ==> Convex(h))
      && (points != [] ==> h != [] && h[|h| - 1] == points[|points| - 1])
      && (hull != [] ==> h != [] && h[0] == hull[0])
      && (hull == [] && points != [] ==> h != [] && h[0] == points[0])
  {
    var r := remain + ChainPopped(hull, points);
    ChainMultiset(hull, remain, points);
    assert r[..|remain|] == remain;
    ChainEnds(hull, points);
    if Convex(hull) {
      ChainConvex(hull, points);
    }
  }

  /** The pops for `p` leave a stack on which pushing `p` keeps every turn left. */
  lemma KeptConvex(h: seq<Neighbor>, p: Neighbor)
    requires Convex(h) && |p.distances| >= 2
    ensures Convex(h[..Kept(h, p)] + [p])
  {
    KeptPopsExactlyTheFailures(h, p);
    ConvexPush(h, h[..Kept(h, p)], p);
  }

  /** The stack ends with the last point taken and starts with the first record it ever held. */
  lemma {:induction false} ChainEnds(hull: seq<Neighbor>, points: seq<Neighbor>)
    requires TwoD(hull) && TwoD(points)
    ensures points != [] ==> Chain(hull, points) != [] && Chain(hull, points)[|Chain(hull, points)| - 1] == points[|points| - 1]
    ensures hull != [] ==> Chain(hull, points) != [] && Chain(hull, points)[0] == hull[0]
    ensures hull == [] && points != [] ==> Chain(hull, points) != [] && Chain(hull, points)[0] == points[0]
    decreases |points|
  {
    if points != [] {
      var init, p := points[..|points| - 1], points[|points| - 1];
      TwoDPrefix(points, |points| - 1);
      ChainEnds(hull, init);
      PushEnds(Chain(hull, init), p);
      if init != [] {
        assert init[0] == points[0];
      }
    }
  }

  /** After the pops for `p` and its push, `p` is on top and the bottom record is the old one, if any. */
  lemma PushEnds(h: seq<Neighbor>, p: Neighbor)
    requires TwoD(h) && |p.distances| >= 2
    ensures var h2 := h[..Kept(h, p)] + [p];
      h2[|h2| - 1] == p && h2[0] == if h == [] then p else h[0]
  {
    KeptPopsExactlyTheFailures(h, p);
  }

  /**
   * The `k`/`updated` bookkeeping of `updateNeighbor(nk)`: `k` advances by
   * two per record placed before the first flagged one, whose `k` is
   * reported; `nk` is kept when no placed record is flagged.
   */
  method FirstFlaggedSlot(placed: seq<Neighbor>, nk: int) returns (nkOut: int)
    ensures nkOut == if FirstFlagged(placed).Some? then 2 * FirstFlagged(placed).value else nk
  {
    nkOut := nk;
    var k := 0;
    var updated := true;
    for j := 0 to |placed|
      invariant updated <==> FirstFlagged(placed[..j]).None?
      invariant updated ==> k == 2 * j && nkOut == nk
      invariant !updated ==> nkOut == 2 * FirstFlagged(placed[..j]).value
    {
      assert placed[..j + 1][..j] == placed[..j];
      if updated {
        if placed[j].flag {
          nkOut := k;
          updated := false;
        } else {
          k := k + 1;
        }
      }
      k := k + 1;
    }
    assert placed[..|placed|] == placed;
  }

  /** Pushing `p` onto a prefix of a hull keeps the turn invariant when the last turn is left. */
  lemma ConvexPush(h: seq<Neighbor>, h2: seq<Neighbor>, p: Neighbor)
    requires TwoD(h) && |p.distances| >= 2
    requires |h2| <= |h| && h2 == h[..|h2|]
    requires |h2| >= 2 ==> CrossValue(h2[|h2| - 2], h2[|h2| - 1], p) > 0
    ensures TwoD(h2 + [p])
    ensures Convex(h) ==> Convex(h2 + [p])
  {
    var t := h2 + [p];
    if Convex(h) {
      forall i | 0 <= i < |t| - 2
        ensures CrossValue(t[i], t[i + 1], t[i + 2]) > 0
      {
        if i + 2 < |h2| {
          assert t[i] == h[i] && t[i + 1] == h[i + 1] && t[i + 2] == h[i + 2];
        }
      }
    }
  }

  class SkylineQueue {
    var pool: seq<Neighbor>
    var m: nat
    var numLayer: nat
    var numDimensions: nat

    ghost predicate Valid()
      reads this
    {
      numDimensions >= 1
    }

    constructor Default()
      ensures Valid()
      ensures pool == [] && m == 0 && numLayer == 0 && numDimensions == 2
    {
      pool, m, numLayer, numDimensions := [], 0, 0, 2;
    }

    constructor Make(m: nat, d: nat)
      ensures pool == [] && this.m == m && numLayer == 0 && numDimensions == d
    {
      pool, this.m, numLayer, numDimensions := [], m, 0, d;
    }

    /** `MultiVectorSkylineQueue(m, d)`: invalid_argument when d < 1. */
    static method Create(m: nat, d: nat) returns (r: Result<SkylineQueue>)
      ensures r.Ok? <==> d >= 1
      ensures r.Err? ==> r.error == InvalidArgument
      ensures r.Ok? ==> fresh(r.value) && r.value.Valid()
      ensures r.Ok? ==> r.value.pool == [] && r.value.m == m && r.value.numLayer == 0 && r.value.numDimensions == d
    {
      if d < 1 {
        return Err(InvalidArgument);
      }
      var q := new SkylineQueue.Make(m, d);
      return Ok(q);
    }

    /** The copy constructor copies the settings and the layer count, not the pool. */
    constructor Copy(other: SkylineQueue)
      ensures other.Valid() ==> Valid()
      ensures m == other.m && numLayer == other.numLayer && numDimensions == other.numDimensions && pool == []
    {
      pool := [];
      m, numLayer, numDimensions := other.m, other.numLayer, other.numDimensions;
    }

    method SetNumDimensions(d: nat) returns (status: Status)
      requires Valid()
      modifies this
      ensures Valid()
      ensures status.Done? <==> d >= 1
      ensures status.Failed? ==> status.error == InvalidArgument && numDimensions == old(numDimensions)
      ensures status.Done? ==> numDimensions == d
      ensures pool == old(pool) && m == old(m) && numLayer == old(numLayer)
    {
      if d < 1 {
        return Failed(InvalidArgument);
      }
      numDimensions := d;
      return Done;
    }

    /** `cross(O, A, B)`: only defined for two objectives; invalid_argument otherwise. */
    function Cross(o: Neighbor, a: Neighbor, b: Neighbor): (r: Result<int>)
      reads this
      requires numDimensions == 2 ==> |o.distances| >= 2 && |a.distances| >= 2 && |b.distances| >= 2
      ensures r.Ok? <==> numDimensions == 2
      ensures r.Err? ==> r.error == InvalidArgument
      ensures r.Ok? ==> r.value == CrossValue(o, a, b)
    {
      if numDimensions != 2 then Err(InvalidArgument) else Ok(CrossValue(o, a, b))
    }

    /**
     * The `while` of `findConvexHull` for one point `p`: pop the hull top
     * into `remain` while the top two and `p` do not turn with `cross > 0`.
     */
    method PopNonLeft(hull: seq<Neighbor>, remain: seq<Neighbor>, p: Neighbor)
      returns (hullOut: seq<Neighbor>, remainOut: seq<Neighbor>)
      requires numDimensions == 2 && TwoD(hull) && |p.distances| >= 2
      ensures multiset(hullOut) + multiset(remainOut) == multiset(hull) + multiset(remain)
      ensures |remain| <= |remainOut| && remainOut[..|remain|] == remain
      ensures |hullOut| <= |hull| && hullOut == hull[..|hullOut|]
      ensures hull != [] ==> hullOut != []
      ensures |hullOut| >= 2 ==> CrossValue(hullOut[|hullOut| - 2], hullOut[|hullOut| - 1], p) > 0
      ensures forall k: nat :: |hullOut| < k <= |hull| ==> FailsTurn(hull, k, p)
      ensures hullOut == hull[..Kept(hull, p)] && remainOut == remain + Reversed(hull[Kept(hull, p)..])
    {
      hullOut, remainOut := hull, remain;
      assert hull[..|hull|] == hull && hull[|hull|..] == [];
      while |hullOut| >= 2 && Cross(hullOut[|hullOut| - 2], hullOut[|hullOut| - 1], p).value <= 0
        invariant PopInv(hull, remain, p, hullOut, remainOut)
        decreases |hullOut|
      {
        assert FailsTurn(hullOut, |hullOut|, p);
        PopStep(hull, remain, p, hullOut, remainOut);
        remainOut := remainOut + [hullOut[|hullOut| - 1]];
        hullOut := hullOut[..|hullOut| - 1];
      }
      assert !FailsTurn(hullOut, |hullOut|, p);
      PopExit(hull, remain, p, hullOut, remainOut);
      PopsResult(hull, remain, p);
    }

    /** One step of `findConvexHull`: the pops for `p`, then the push of `p`. */
    method AddToHull(hull: seq<Neighbor>, remain: seq<Neighbor>, p: Neighbor)
      returns (hullOut: seq<Neighbor>, remainOut: seq<Neighbor>)
      requires numDimensions == 2 && TwoD(hull) && |p.distances| >= 2
      ensures multiset(hullOut) + multiset(remainOut) == multiset(hull) + multiset(remain) + multiset{p}
      ensures |remain| <= |remainOut| && remainOut[..|remain|] == remain
      ensures TwoD(hullOut) && (Convex(hull) ==> Convex(hullOut))
      ensures hullOut != [] && hullOut[|hullOut| - 1] == p
      ensures hullOut[0] == if hull == [] then p else hull[0]
      ensures hullOut == hull[..Kept(hull, p)] + [p] && remainOut == remain + Reversed(hull[Kept(hull, p)..])
    {
      var kept;
      kept, remainOut := PopNonLeft(hull, remain, p);
      hullOut := kept + [p];
      PushPopMultiset(hull, remain, Kept(hull, p), p, multiset(hull) + multiset(remain));
      ConvexPush(hull, kept, p);
      assert hull != [] ==> hullOut[0] == kept[0] == hull[0];
    }

    /**
     * `findConvexHull(points, convex_hull, remain_points)`: the stack pass of
     * a monotone chain. Each point pops the hull top into `remain` while the
     * top two and the point fail to turn with `cross > 0`, then is pushed.
     * invalid_argument when D is not 2, before any change.
     */
    method FindConvexHull(points: seq<Neighbor>, hull: seq<Neighbor>, remain: seq<Neighbor>)
      returns (status: Status, hullOut: seq<Neighbor>, remainOut: seq<Neighbor>)
      requires numDimensions == 2 ==> TwoD(points) && TwoD(hull)
      ensures status.Done? <==> numDimensions == 2
      ensures status.Failed? ==> status.error == InvalidArgument && hullOut == hull && remainOut == remain
      ensures status.Done? ==> multiset(hullOut) + multiset(remainOut) == multiset(hull) + multiset(remain) + multiset(points)
      ensures status.Done? ==> |remain| <= |remainOut| && remainOut[..|remain|] == remain
      ensures status.Done? && Convex(hull) ==> Convex(hullOut)
      ensures status.Done? && points != [] ==> hullOut != [] && hullOut[|hullOut| - 1] == points[|points| - 1]
      ensures status.Done? && hull != [] ==> hullOut != [] && hullOut[0] == hull[0]
      ensures status.Done? && hull == [] && points != [] ==> hullOut != [] && hullOut[0] == points[0]
      ensures status.Done? ==> hullOut == Chain(hull, points) && remainOut == remain + ChainPopped(hull, points)
    {
      if numDimensions != 2 {
        return Failed(InvalidArgument), hull, remain;
      }
      hullOut, remainOut := hull, remain;
      assert points[..0] == [];
      for i := 0 to |points|
        invariant TwoD(points[..i])
        invariant hullOut == Chain(hull, points[..i]) && remainOut == remain + ChainPopped(hull, points[..i])
      {
        ChainSnoc(hull, points, i);
        AppendAssoc(remain, ChainPopped(hull, points[..i]), Reversed(hullOut[Kept(hullOut, points[i])..]));
        hullOut, remainOut := AddToHull(hullOut, remainOut, points[i]);
      }
      assert points[..|points|] == points;
      ChainResult(hull, remain, points);
      return Done, hullOut, remainOut;
    }

    /**
     * `initQueue(insert_points)`: the peeling of `initNeighbor` without the
     * outlier swap and without sorting, so the pool keeps the round order.
     */
    method InitQueue(input: seq<Neighbor>) returns (status: Status, rest: seq<Neighbor>)
      requires Valid()
      modifies this
      ensures Valid() && m == old(m) && numDimensions == old(numDimensions)
      ensures status.Done? <==> input == [] || HasDim(input, Key, numDimensions)
      ensures status.Failed? ==> (status.error == InvalidArgument && rest == input
                && pool == old(pool) && numLayer == old(numLayer))
      ensures status.Done? ==> (rest == []
                && pool == old(pool) + Relayer(Peel(input, Key), FreshTag)
                && numLayer == |Peel(input, Key)|)
    {
      if input != [] {
        var ok := CheckDims(input, Key, numDimensions);
        if !ok {
          return Failed(InvalidArgument), input;
        }
      }
      var rounds, last;
      pool, rounds, last := PeelRounds(input, Key, numDimensions, FreshTag, pool, []);
      numLayer := rounds;
      return Done, [];
    }

    /**
     * `updateNeighbor(nk)`: the capped re-peel of `MultiVectorGPS` (without
     * the outlier swap) that also reports, through `nk`, twice the position
     * of the first flagged record placed; `nk` is unchanged when none is.
     */
    method UpdateNeighbor(nk: int) returns (status: Status, nkOut: int)
      requires Valid()
      modifies this
      ensures Valid() && m == old(m) && numDimensions == old(numDimensions)
      ensures status.Done? <==> m == 0 || old(pool) == [] || HasDim(old(pool), Key, numDimensions)
      ensures status.Failed? ==> (status.error == InvalidArgument
                && pool == [] && numLayer == old(numLayer) && nkOut == nk)
      ensures status.Done? ==>
                var layers := PeelCapped(SortByDist(old(pool), Key), Key, 0, m);
                && pool == Relayer(layers, KeepTag)
                && numLayer == |layers|
      ensures status.Done? ==>
                nkOut == if FirstFlagged(pool).Some? then 2 * FirstFlagged(pool).value else nk
    {
      var candidate := pool;
      pool := [];
      SortKeepsDim(candidate, Key, numDimensions);
      candidate := SortByDist(candidate, Key);
      if m > 0 && candidate != [] {
        var ok := CheckDims(candidate, Key, numDimensions);
        if !ok {
          return Failed(InvalidArgument), nk;
        }
      }
      var rounds, last;
      pool, rounds, last := PeelRoundsCapped(candidate, Key, numDimensions, KeepTag, m, []);
      numLayer := rounds;
      nkOut := FirstFlaggedSlot(pool, nk);
      return Done, nkOut;
    }

    /** `clear()`: empties the pool and resets the layer count. */
    method Clear()
      modifies this
      ensures pool == [] && numLayer == 0
      ensures m == old(m) && numDimensions == old(numDimensions)
    {
      pool, numLayer := [], 0;
    }
  }
}
