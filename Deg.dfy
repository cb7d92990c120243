/**
 * `multi_vector_deg.h`: the neighbour record with a per-weight pruning
 * bitmap (`MultiVectorDEGNeighbor`), the pool `MultiVectorDEG` and the queue
 * `MultiVectorDEGSkylineQueue`.
 */
module Deg {
  import opened Wrappers
  import opened Points
  import opened Skyline
  import opened Sorting
  import opened Layering
  import opened Neighbors
  import opened WeightLattice
  import opened Bitmap

  // ---------------------------------------------------------------------------
  // MultiVectorDEGNeighbor

  class DegNeighbor {
    const id: nat
    const distances: seq<int>
    const flag: bool
    const layer: int
    /** `num_weight_combinations_`: how many bits of the bitmap are meaningful. */
    const numWeights: nat
    /** `pruning_bitmap_`: bit `i % 64` of word `i / 64` is the state of weight combination `i`. */
    const bitmap: array<bv64>

    /** The bitmap has ceil(n / 64) words, as the constructor sizes it. */
    predicate Valid()
    {
      bitmap.Length == (numWeights + 63) / 64
    }

    /** Every word is zero, as after construction. */
    predicate Cleared()
      reads bitmap
    {
      forall w :: 0 <= w < bitmap.Length ==> bitmap[w] == 0
    }

    /** The pruning state of weight combination `i`. */
    predicate Pruned(i: nat)
      reads bitmap
      requires Valid() && i < numWeights
    {
      WordInRange(i, numWeights);
      On(bitmap[i / 64], i)
    }

    /** `MultiVectorDEGNeighbor(id, distances, n, f, layer)`: ceil(n / 64) zero words, nothing pruned. */
    constructor (id: nat, distances: seq<int>, numWeights: nat, flag: bool, layer: int)
      ensures this.id == id && this.distances == distances && this.numWeights == numWeights
      ensures this.flag == flag && this.layer == layer
      ensures Valid() && fresh(bitmap) && Cleared()
      ensures forall i :: 0 <= i < numWeights ==> !Pruned(i)
    {
      this.id, this.distances, this.numWeights := id, distances, numWeights;
      this.flag, this.layer := flag, layer;
      bitmap := new bv64[(numWeights + 63) / 64](_ => 0);
      new;
      forall i | 0 <= i < numWeights
        ensures !Pruned(i)
      {
        OnZero(i);
      }
    }

    /** `getDistance(dim)`: the distance for objective `dim`, or out_of_range. */
    function GetDistance(dim: nat): (r: Result<int>)
      ensures r.Ok? <==> dim < |distances|
      ensures r.Ok? ==> r.value == distances[dim]
      ensures r.Err? ==> r.error == OutOfRange
    {
      Neighbors.GetDistance(Core(this), dim)
    }

    /** `isPruned(i)`: the state of weight combination `i`, or out_of_range. */
    function IsPruned(i: nat): (r: Result<bool>)
      reads bitmap
      requires Valid()
      ensures r.Ok? <==> i < numWeights
      ensures r.Ok? ==> r.value == Pruned(i)
      ensures r.Err? ==> r.error == OutOfRange
    {
      if i >= numWeights then Err(OutOfRange) else Ok(Pruned(i))
    }

    /**
     * `setPruned(i, pruned)`: sets or clears bit `i` in place; out_of_range,
     * with no change, when `i >= n`. No other weight combination changes
     * state, and no other word changes at all.
     */
    method SetPruned(i: nat, pruned: bool) returns (status: Status)
      requires Valid()
      modifies bitmap
      ensures status.Done? <==> i < numWeights
      ensures status.Failed? ==> status.error == OutOfRange && bitmap[..] == old(bitmap[..])
      ensures status.Done? ==> IsPruned(i) == Ok(pruned)
      ensures status.Done? ==> forall j :: 0 <= j < numWeights && j != i ==> Pruned(j) == old(Pruned(j))
      ensures forall w :: 0 <= w < bitmap.Length && w != i / 64 ==> bitmap[w] == old(bitmap[w])
    {
      if i >= numWeights {
        return Failed(OutOfRange);
      }
      WordInRange(i, numWeights);
      var word := i / 64;
      var bit := Bit(i);
      ghost var before := bitmap[..];
      bitmap[word] := Written(bitmap[word], bit, pruned);
      assert bitmap[..] == before[word := Written(before[word], bit, pruned)];
      WriteFrame(before, i, pruned);
      return Done;
    }
  }

  /** What a DEG record shares with `MultiVectorNeighbor`: everything but the bitmap. */
  function Core(n: DegNeighbor): Neighbor
  {
    Neighbor(n.id, n.distances, n.flag, n.layer)
  }

  /** The view `findSkyline`, `operator<` and `operator==` take of a DEG record. */
  function DegKey(n: DegNeighbor): Point
  {
    Key(Core(n))
  }

  /** The record `initNeighbor`/`initQueue` rebuild for a point of round `l`: flag set. */
  function DegFreshTag(x: DegNeighbor, l: nat): Neighbor
  {
    FreshTag(Core(x), l)
  }

  /** The record `updateNeighbor` rebuilds for a point of round `l`: flag kept. */
  function DegKeepTag(x: DegNeighbor, l: nat): Neighbor
  {
    KeepTag(Core(x), l)
  }

  function Tag(keepFlags: bool): (DegNeighbor, nat) -> Neighbor
  {
    if keepFlags then DegKeepTag else DegFreshTag
  }

  /** The id scan of `insert` over DEG records is `HasId` on their view. */
  lemma CoreIds(s: seq<DegNeighbor>, id: nat)
    ensures HasId(Map(Core, s), id) <==> exists i :: 0 <= i < |s| && s[i].id == id
  {
    forall i | 0 <= i < |s|
      ensures Map(Core, s)[i].id == s[i].id
    {
      assert Map(Core, s)[i] == Core(s[i]);
    }
  }

  /** A record the pool classes build with `emplace_back`: well-formed, `n` weight bits, all clear. */
  predicate Rebuilt(n: DegNeighbor, numWeights: nat)
    reads n.bitmap
  {
    n.Valid() && n.numWeights == numWeights && n.Cleared()
  }

  /** Every record of `s` is `Rebuilt`. */
  predicate AllRebuilt(s: seq<DegNeighbor>, numWeights: nat)
    reads set x | x in s :: x.bitmap
  {
    forall x :: x in s ==> Rebuilt(x, numWeights)
  }

  // ---------------------------------------------------------------------------
  // The peeling loops over DEG records

  /**
   * The `emplace_back` loop of one round: for every skyline record a new
   * record with the same id and distances, `n` clear weight bits, layer `l`
   * and the flag set (or kept, for `updateNeighbor`). The caller appends
   * `layer` to its pool.
   */
  method EmplaceLayer(skyline: seq<DegNeighbor>, l: nat, keepFlags: bool, numWeights: nat)
    returns (layer: seq<DegNeighbor>)
    ensures |layer| == |skyline|
    ensures Map(Core, layer) == TagAll(skyline, l, Tag(keepFlags))
    ensures forall x :: x in layer ==> fresh(x) && fresh(x.bitmap)
    ensures AllRebuilt(layer, numWeights)
  {
    layer := [];
    for k := 0 to |skyline|
      invariant |layer| == k
      invariant forall j :: 0 <= j < k ==> Core(layer[j]) == Tag(keepFlags)(skyline[j], l)
      invariant forall x :: x in layer ==> fresh(x) && fresh(x.bitmap)
      invariant AllRebuilt(layer, numWeights)
    {
      var x := skyline[k];
      var n := new DegNeighbor(x.id, x.distances, numWeights, if keepFlags then x.flag else true, l);
      layer := layer + [n];
    }
  }

  /** One round: `findSkyline` on what is left, then the skyline emplaced with layer `l`. */
  method EmplaceRound(cur: seq<DegNeighbor>, key: DegNeighbor -> Point, d: nat, keepFlags: bool, numWeights: nat, l: nat)
    returns (layer: seq<DegNeighbor>, skyline: seq<DegNeighbor>, remain: seq<DegNeighbor>)
    requires cur != [] && HasDim(cur, key, d)
    ensures skyline == Front(cur, key) && remain == Rest(cur, key)
    ensures HasDim(remain, key, d) && |remain| < |cur|
    ensures |layer| == |skyline|
    ensures Map(Core, layer) == TagAll(skyline, l, Tag(keepFlags))
    ensures forall x :: x in layer ==> fresh(x) && fresh(x.bitmap)
    ensures AllRebuilt(layer, numWeights)
  {
    var status;
    status, skyline, remain := FindSkyline(cur, key, d, [], []);
    assert [] + Front(cur, key) == Front(cur, key) && [] + Rest(cur, key) == Rest(cur, key);
    SkylineNonEmpty(cur, key);
    RestHasDim(cur, key, d);
    layer := EmplaceLayer(skyline, l, keepFlags, numWeights);
  }

  /** Appending a round's records extends the view of the records by that round's tagged layer. */
  lemma AppendLayer(added: seq<DegNeighbor>, layer: seq<DegNeighbor>,
                    done: seq<seq<DegNeighbor>>, skyline: seq<DegNeighbor>, tag: (DegNeighbor, nat) -> Neighbor)
    requires Map(Core, added) == Relayer(done, tag)
    requires Map(Core, layer) == TagAll(skyline, |done|, tag)
    ensures Map(Core, added + layer) == Relayer(done + [skyline], tag)
  {
    MapConcat(Core, added, layer);
    RelayerSnoc(done, skyline, tag);
  }

  /**
   * What holds between rounds of the `initNeighbor`/`initQueue` loop: `done`
   * are the rounds so far, `cur` what is left to peel, `added` the records
   * emplaced for `done`, `lastOut` the last of them (`last` before any).
   */
  ghost predicate FullInv(input: seq<DegNeighbor>, key: DegNeighbor -> Point, d: nat, last: seq<DegNeighbor>,
                          cur: seq<DegNeighbor>, added: seq<DegNeighbor>, rounds: nat, lastOut: seq<DegNeighbor>,
                          done: seq<seq<DegNeighbor>>)
  {
    && HasDim(cur, key, d)
    && done + Peel(cur, key) == Peel(input, key)
    && rounds == |done|
    && Map(Core, added) == Relayer(done, DegFreshTag)
    && lastOut == if done == [] then last else done[|done| - 1]
  }

  /** One round of the `initNeighbor`/`initQueue` loop. */
  method FullRoundStep(input: seq<DegNeighbor>, key: DegNeighbor -> Point, d: nat, numWeights: nat, last: seq<DegNeighbor>,
                       cur: seq<DegNeighbor>, added: seq<DegNeighbor>, rounds: nat, lastOut: seq<DegNeighbor>,
                       ghost done: seq<seq<DegNeighbor>>)
    returns (cur': seq<DegNeighbor>, added': seq<DegNeighbor>, rounds': nat, lastOut': seq<DegNeighbor>,
             ghost done': seq<seq<DegNeighbor>>)
    requires cur != [] && FullInv(input, key, d, last, cur, added, rounds, lastOut, done)
    requires AllRebuilt(added, numWeights)
    ensures FullInv(input, key, d, last, cur', added', rounds', lastOut', done') && |cur'| < |cur|
    ensures AllRebuilt(added', numWeights)
    ensures forall x :: x in added' ==> x in added || (fresh(x) && fresh(x.bitmap))
  {
    var layer, skyline;
    layer, skyline, cur' := EmplaceRound(cur, key, d, false, numWeights, rounds);
    PeelAdvance(done, cur, key, Peel(input, key));
    AppendLayer(added, layer, done, skyline, Tag(false));
    added', rounds', lastOut', done' := added + layer, rounds + 1, skyline, done + [skyline];
  }

  /**
   * The loop of `initNeighbor`/`initQueue` over DEG records: peel until
   * nothing is left, emplacing every skyline record with the flag set and its
   * round as layer; `added` is what the pool gains, in emplacement order.
   * `lastOut` is the last round's skyline (`last` if none).
   */
  method EmplaceRounds(input: seq<DegNeighbor>, key: DegNeighbor -> Point, d: nat, numWeights: nat, last: seq<DegNeighbor>)
    returns (added: seq<DegNeighbor>, rounds: nat, lastOut: seq<DegNeighbor>)
    requires HasDim(input, key, d)
    ensures Map(Core, added) == Relayer(Peel(input, key), DegFreshTag)
    ensures forall x :: x in added ==> fresh(x) && fresh(x.bitmap)
    ensures AllRebuilt(added, numWeights)
    ensures rounds == |Peel(input, key)|
    ensures lastOut == if input == [] then last else Peel(input, key)[rounds - 1]
  {
    var cur := input;
    added, rounds, lastOut := [], 0, last;
    ghost var done: seq<seq<DegNeighbor>> := [];
    while cur != []
      invariant FullInv(input, key, d, last, cur, added, rounds, lastOut, done)
      invariant forall x :: x in added ==> fresh(x) && fresh(x.bitmap)
      invariant AllRebuilt(added, numWeights)
      decreases |cur|
    {
      cur, added, rounds, lastOut, done := FullRoundStep(input, key, d, numWeights, last, cur, added, rounds, lastOut, done);
    }
    assert done == Peel(input, key);
  }

  /** What holds between rounds of the `updateNeighbor` loop, as `FullInv` for the capped peel. */
  ghost predicate CappedInv(candidate: seq<DegNeighbor>, key: DegNeighbor -> Point, d: nat, cap: nat, last: seq<DegNeighbor>,
                            cur: seq<DegNeighbor>, pool: seq<DegNeighbor>, rounds: nat, lastOut: seq<DegNeighbor>,
                            done: seq<seq<DegNeighbor>>)
  {
    && (cap > 0 && cur != [] ==> HasDim(cur, key, d))
    && done + PeelCapped(cur, key, |pool|, cap) == PeelCapped(candidate, key, 0, cap)
    && rounds == |done|
    && Map(Core, pool) == Relayer(done, DegKeepTag)
    && lastOut == if done == [] then last else done[|done| - 1]
  }

  /** One round of the `updateNeighbor` loop. */
  method CappedRoundStep(candidate: seq<DegNeighbor>, key: DegNeighbor -> Point, d: nat, numWeights: nat, cap: nat,
                         last: seq<DegNeighbor>, cur: seq<DegNeighbor>, pool: seq<DegNeighbor>, rounds: nat,
                         lastOut: seq<DegNeighbor>, ghost done: seq<seq<DegNeighbor>>)
    returns (cur': seq<DegNeighbor>, pool': seq<DegNeighbor>, rounds': nat, lastOut': seq<DegNeighbor>,
             ghost done': seq<seq<DegNeighbor>>)
    requires |pool| < cap && cur != [] && CappedInv(candidate, key, d, cap, last, cur, pool, rounds, lastOut, done)
    requires AllRebuilt(pool, numWeights)
    ensures CappedInv(candidate, key, d, cap, last, cur', pool', rounds', lastOut', done') && |cur'| < |cur|
    ensures AllRebuilt(pool', numWeights)
    ensures forall x :: x in pool' ==> x in pool || (fresh(x) && fresh(x.bitmap))
  {
    var layer, skyline;
    layer, skyline, cur' := EmplaceRound(cur, key, d, true, numWeights, rounds);
    CappedRound(done, cur, key, |pool|, cap, PeelCapped(candidate, key, 0, cap));
    AppendLayer(pool, layer, done, skyline, Tag(true));
    pool', rounds', lastOut', done' := pool + layer, rounds + 1, skyline, done + [skyline];
  }

  /**
   * The loop of `updateNeighbor` over DEG records: from an empty pool, peel
   * `candidate` while the pool holds fewer than `cap` records, keeping flags.
   */
  method EmplaceRoundsCapped(candidate: seq<DegNeighbor>, key: DegNeighbor -> Point, d: nat, numWeights: nat, cap: nat, last: seq<DegNeighbor>)
    returns (poolOut: seq<DegNeighbor>, rounds: nat, lastOut: seq<DegNeighbor>)
    requires cap > 0 && candidate != [] ==> HasDim(candidate, key, d)
    ensures Map(Core, poolOut) == Relayer(PeelCapped(candidate, key, 0, cap), DegKeepTag)
    ensures forall x :: x in poolOut ==> fresh(x) && fresh(x.bitmap)
    ensures AllRebuilt(poolOut, numWeights)
    ensures rounds == |PeelCapped(candidate, key, 0, cap)|
    ensures lastOut == if rounds == 0 then last else PeelCapped(candidate, key, 0, cap)[rounds - 1]
  {
    var cur := candidate;
    poolOut, rounds, lastOut := [], 0, last;
    ghost var done: seq<seq<DegNeighbor>> := [];
    while |poolOut| < cap && cur != []
      invariant CappedInv(candidate, key, d, cap, last, cur, poolOut, rounds, lastOut, done)
      invariant forall x :: x in poolOut ==> fresh(x) && fresh(x.bitmap)
      invariant AllRebuilt(poolOut, numWeights)
      decreases |cur|
    {
      cur, poolOut, rounds, lastOut, done := CappedRoundStep(candidate, key, d, numWeights, cap, last, cur, poolOut, rounds, lastOut, done);
    }
    PeelCappedStop(cur, key, |poolOut|, cap);
    assert done == PeelCapped(candidate, key, 0, cap);
  }

  // ---------------------------------------------------------------------------
  // MultiVectorDEG

  class MultiVectorDeg {
    var pool: seq<DegNeighbor>
    var outlier: seq<DegNeighbor>
    var m: nat
    var numLayer: nat
    var numDimensions: nat
    /** `weight_combinations_`, in tenths. */
    var weightCombinations: seq<seq<nat>>
    var numWeightCombinations: nat

    /** 1 <= D <= MAX_VECTOR_DIM, and the weight table is the one generated for D. */
    ghost predicate Valid()
      reads this
    {
      1 <= numDimensions <= MaxVectorDim
      && weightCombinations == Lattice(numDimensions)
      && numWeightCombinations == |weightCombinations|
    }

    /** The default constructor: two objectives, no capacity, the 11 weight pairs. */
    constructor Default()
      ensures Valid()
      ensures pool == [] && outlier == [] && m == 0 && numLayer == 0 && numDimensions == 2
    {
      var table := GenerateWeightCombinations(2);
      pool, outlier, m, numLayer, numDimensions := [], [], 0, 0, 2;
      weightCombinations, numWeightCombinations := table, |table|;
    }

    constructor Make(m: nat, d: nat)
      ensures pool == [] && outlier == [] && this.m == m && numLayer == 0 && numDimensions == d
      ensures weightCombinations == Lattice(d) && numWeightCombinations == |Lattice(d)|
    {
      var table := GenerateWeightCombinations(d);
      pool, outlier, this.m, numLayer, numDimensions := [], [], m, 0, d;
      weightCombinations, numWeightCombinations := table, |table|;
    }

    /** `MultiVectorDEG(m, s, q, d)`: invalid_argument unless 1 <= d <= MAX_VECTOR_DIM. */
    static method Create(m: nat, d: nat) returns (r: Result<MultiVectorDeg>)
      ensures r.Ok? <==> 1 <= d <= MaxVectorDim
      ensures r.Err? ==> r.error == InvalidArgument
      ensures r.Ok? ==> fresh(r.value) && r.value.Valid()
      ensures r.Ok? ==> r.value.pool == [] && r.value.outlier == [] && r.value.m == m
                        && r.value.numLayer == 0 && r.value.numDimensions == d
    {
      if d < 1 || d > MaxVectorDim {
        return Err(InvalidArgument);
      }
      var g := new MultiVectorDeg.Make(m, d);
      return Ok(g);
    }

    /** `initializeWeightCombinations()`: the table for the current D, and its size. */
    method InitializeWeightCombinations()
      modifies this
      ensures weightCombinations == Lattice(numDimensions) && numWeightCombinations == |weightCombinations|
      ensures pool == old(pool) && outlier == old(outlier) && m == old(m)
      ensures numLayer == old(numLayer) && numDimensions == old(numDimensions)
    {
      weightCombinations := GenerateWeightCombinations(numDimensions);
      numWeightCombinations := |weightCombinations|;
    }

    /** `setNumDimensions(d)`: invalid_argument outside 1..MAX_VECTOR_DIM; otherwise D and the table change. */
    method SetNumDimensions(d: nat) returns (status: Status)
      requires Valid()
      modifies this
      ensures Valid()
      ensures status.Done? <==> 1 <= d <= MaxVectorDim
      ensures status.Failed? ==> (status.error == InvalidArgument && numDimensions == old(numDimensions)
                && numWeightCombinations == old(numWeightCombinations))
      ensures status.Done? ==> numDimensions == d
      ensures pool == old(pool) && outlier == old(outlier) && m == old(m) && numLayer == old(numLayer)
    {
      if d < 1 || d > MaxVectorDim {
        return Failed(InvalidArgument);
      }
      numDimensions := d;
      InitializeWeightCombinations();
      return Done;
    }

    /**
     * `getWeightIndex(weights)`: SIZE_MAX (here `None`) when the length is
     * not D; otherwise the first table entry equal to `weights` entry by
     * entry, or SIZE_MAX when there is none.
     */
    method GetWeightIndex(weights: seq<nat>) returns (r: Option<nat>)
      requires Valid()
      ensures |weights| != numDimensions ==> r == None
      ensures |weights| == numDimensions ==> r == FirstIndex(weightCombinations, weights)
    {
      if |weights| != numDimensions {
        return None;
      }
      LatticeSpec(numDimensions);
      for i := 0 to |weightCombinations|
        invariant forall k :: 0 <= k < i ==> weightCombinations[k] != weights
      {
        assert weightCombinations[i] in Lattice(numDimensions);
        var matched := true;
        for j := 0 to numDimensions
          invariant matched <==> weightCombinations[i][..j] == weights[..j]
        {
          if weightCombinations[i][j] != weights[j] {
            matched := false;
            break;
          }
          assert weightCombinations[i][..j + 1] == weightCombinations[i][..j] + [weights[j]];
          assert weights[..j + 1] == weights[..j] + [weights[j]];
        }
        assert matched ==> weightCombinations[i] == weights by {
          assert weightCombinations[i][..numDimensions] == weightCombinations[i];
          assert weights[..numDimensions] == weights;
        }
        if matched {
          return Some(i);
        }
      }
      return None;
    }

    /**
     * `initNeighbor(insert_points)`: peels the input into Pareto layers and
     * emplaces, for every point, a new record with the flag set, its round as
     * layer and a clear bitmap of `num_weight_combinations_` bits; the last
     * round's skyline goes to `outlier_`, the rounds are counted and the pool
     * is sorted. `added` names the new records. A point of the wrong length
     * throws in the first round, before anything changes.
     */
    method InitNeighbor(input: seq<DegNeighbor>) returns (status: Status, rest: seq<DegNeighbor>, ghost added: seq<DegNeighbor>)
      requires Valid()
      modifies this
      ensures Valid() && m == old(m) && numDimensions == old(numDimensions)
      ensures numWeightCombinations == old(numWeightCombinations)
      ensures status.Done? <==> input == [] || HasDim(input, DegKey, numDimensions)
      ensures status.Failed? ==> (status.error == InvalidArgument && rest == input
                && pool == old(pool) && outlier == old(outlier) && numLayer == old(numLayer))
      ensures status.Done? ==> (rest == []
                && Map(Core, added) == Relayer(Peel(input, DegKey), DegFreshTag)
                && pool == SortByDist(old(pool) + added, DegKey)
                && (forall x :: x in added ==> fresh(x) && fresh(x.bitmap))
                && AllRebuilt(added, numWeightCombinations)
                && numLayer == |Peel(input, DegKey)|
                && outlier == (if input == [] then old(outlier) else Peel(input, DegKey)[numLayer - 1]))
    {
      added := [];
      if input != [] {
        var ok := CheckDims(input, DegKey, numDimensions);
        if !ok {
          return Failed(InvalidArgument), input, added;
        }
      }
      var emplaced, rounds;
      emplaced, rounds, outlier := EmplaceRounds(input, DegKey, numDimensions, numWeightCombinations, outlier);
      added := emplaced;
      numLayer := rounds;
      pool := SortByDist(pool + emplaced, DegKey);
      return Done, [], added;
    }

    /**
     * `updateNeighbor()`: moves the pool out, sorts it and re-peels it from
     * layer 0 while the pool holds fewer than M records; every record is
     * emplaced anew with its flag kept and a clear bitmap, so pruning state
     * does not survive an update. A record of the wrong length throws in the
     * first round, after the pool was moved out, so the pool is left empty.
     */
    method UpdateNeighbor() returns (status: Status)
      requires Valid()
      modifies this
      ensures Valid() && m == old(m) && numDimensions == old(numDimensions)
      ensures numWeightCombinations == old(numWeightCombinations)
      ensures status.Done? <==> m == 0 || old(pool) == [] || HasDim(old(pool), DegKey, numDimensions)
      ensures status.Failed? ==> (status.error == InvalidArgument
                && pool == [] && outlier == old(outlier) && numLayer == old(numLayer))
      ensures status.Done? ==>
                var layers := PeelCapped(SortByDist(old(pool), DegKey), DegKey, 0, m);
                && Map(Core, pool) == Relayer(layers, DegKeepTag)
                && (forall x :: x in pool ==> fresh(x) && fresh(x.bitmap))
                && AllRebuilt(pool, numWeightCombinations)
                && numLayer == |layers|
                && outlier == (if numLayer == 0 then old(outlier) else layers[numLayer - 1])
    {
      var candidate := pool;
      pool := [];
      SortKeepsDim(candidate, DegKey, numDimensions);
      candidate := SortByDist(candidate, DegKey);
      if m > 0 && candidate != [] {
        var ok := CheckDims(candidate, DegKey, numDimensions);
        if !ok {
          return Failed(InvalidArgument);
        }
      }
      var rounds;
      pool, rounds, outlier := EmplaceRoundsCapped(candidate, DegKey, numDimensions, numWeightCombinations, m, outlier);
      numLayer := rounds;
      return Done;
    }

    /**
     * `insert(id, distances)`: invalid_argument on a length mismatch; a no-op
     * when the id is already pooled or pending; otherwise a new record (flag
     * set, layer 0, clear bitmap) waits in `outlier_`.
     */
    method Insert(id: nat, distances: seq<int>) returns (status: Status)
      modifies this
      ensures status.Done? <==> |distances| == numDimensions
      ensures status.Failed? ==> status.error == InvalidArgument
      ensures pool == old(pool) && numLayer == old(numLayer) && m == old(m) && numDimensions == old(numDimensions)
      ensures weightCombinations == old(weightCombinations) && numWeightCombinations == old(numWeightCombinations)
      ensures status.Failed? || HasId(Map(Core, pool), id) || HasId(Map(Core, old(outlier)), id) ==>
                outlier == old(outlier)
      ensures status.Done? && !HasId(Map(Core, pool), id) && !HasId(Map(Core, old(outlier)), id) ==>
                (|outlier| == |old(outlier)| + 1 && outlier[..|old(outlier)|] == old(outlier)
                 && Core(outlier[|old(outlier)|]) == Neighbor(id, distances, true, 0)
                 && fresh(outlier[|old(outlier)|]) && Rebuilt(outlier[|old(outlier)|], numWeightCombinations))
    {
      if |distances| != numDimensions {
        return Failed(InvalidArgument);
      }
      for i := 0 to |pool|
        invariant forall j :: 0 <= j < i ==> pool[j].id != id
      {
        if pool[i].id == id {
          CoreIds(pool, id);
          return Done;
        }
      }
      for i := 0 to |outlier|
        invariant forall j :: 0 <= j < i ==> outlier[j].id != id
      {
        if outlier[i].id == id {
          CoreIds(outlier, id);
          return Done;
        }
      }
      CoreIds(pool, id);
      CoreIds(outlier, id);
      var n := new DegNeighbor(id, distances, numWeightCombinations, true, 0);
      outlier := outlier + [n];
      return Done;
    }

    /** `clear()`: empties the pool and the pending records and resets the layer count. */
    method Clear()
      modifies this
      ensures pool == [] && outlier == [] && numLayer == 0
      ensures m == old(m) && numDimensions == old(numDimensions)
      ensures weightCombinations == old(weightCombinations) && numWeightCombinations == old(numWeightCombinations)
    {
      pool, outlier, numLayer := [], [], 0;
    }

    /**
     * `calculatePruningStatus(neighbor, i)`: false for an index outside the
     * table; otherwise the record's own bit, which throws out_of_range when
     * the record has fewer weight bits than the table.
     */
    function CalculatePruningStatus(neighbor: DegNeighbor, idx: nat): (r: Result<bool>)
      reads this, neighbor.bitmap
      requires neighbor.Valid()
      ensures r.Err? <==> idx < numWeightCombinations && idx < |weightCombinations| && idx >= neighbor.numWeights
      ensures r.Err? ==> r.error == OutOfRange
      ensures r == Ok(true) <==> (idx < numWeightCombinations && idx < |weightCombinations|
                                  && idx < neighbor.numWeights && neighbor.Pruned(idx))
    {
      if idx >= numWeightCombinations || idx >= |weightCombinations| then Ok(false)
      else neighbor.IsPruned(idx)
    }

    /**
     * `setPruningStatus(neighbor, i, pruned)`: out_of_range for an index
     * outside the table, otherwise `setPruned` on the record, after which
     * `calculatePruningStatus` reports the new state.
     */
    method SetPruningStatus(neighbor: DegNeighbor, idx: nat, pruned: bool) returns (status: Status)
      requires neighbor.Valid()
      modifies neighbor.bitmap
      ensures status.Done? <==> idx < numWeightCombinations && idx < neighbor.numWeights
      ensures status.Failed? ==> status.error == OutOfRange && neighbor.bitmap[..] == old(neighbor.bitmap[..])
      ensures status.Done? ==> forall j :: 0 <= j < neighbor.numWeights && j != idx ==>
                                  neighbor.Pruned(j) == old(neighbor.Pruned(j))
      ensures status.Done? && Valid() ==> CalculatePruningStatus(neighbor, idx) == Ok(pruned)
      ensures forall w :: 0 <= w < neighbor.bitmap.Length && w != idx / 64 ==> neighbor.bitmap[w] == old(neighbor.bitmap[w])
    {
      if idx >= numWeightCombinations {
        return Failed(OutOfRange);
      }
      status := neighbor.SetPruned(idx, pruned);
    }

    /** A record emplaced by this pool reports no weight combination as pruned. */
    lemma RebuiltUnpruned(neighbor: DegNeighbor, idx: nat)
      requires Rebuilt(neighbor, numWeightCombinations)
      ensures CalculatePruningStatus(neighbor, idx) == Ok(false)
    {
      if idx < numWeightCombinations && idx < |weightCombinations| {
        WordInRange(idx, numWeightCombinations);
        assert neighbor.bitmap[idx / 64] == 0;
        OnZero(idx);
      }
    }
  }

  // ---------------------------------------------------------------------------
  // MultiVectorDEGSkylineQueue

  class DegSkylineQueue {
    var pool: seq<DegNeighbor>
    var m: nat
    var numLayer: nat
    var numDimensions: nat
    var numWeightCombinations: nat

    ghost predicate Valid()
      reads this
    {
      1 <= numDimensions <= MaxVectorDim
    }

    /** The default constructor: two objectives, but no weight combinations counted. */
    constructor Default()
      ensures Valid()
      ensures pool == [] && m == 0 && numLayer == 0 && numDimensions == 2 && numWeightCombinations == 0
    {
      pool, m, numLayer, numDimensions, numWeightCombinations := [], 0, 0, 2, 0;
    }

    constructor Make(m: nat, d: nat)
      ensures pool == [] && this.m == m && numLayer == 0 && numDimensions == d
      ensures numWeightCombinations == |Lattice(d)|
    {
      var table := GenerateWeightCombinations(d);
      pool, this.m, numLayer, numDimensions, numWeightCombinations := [], m, 0, d, |table|;
    }

    /** `MultiVectorDEGSkylineQueue(m, d)`: invalid_argument unless 1 <= d <= MAX_VECTOR_DIM. */
    static method Create(m: nat, d: nat) returns (r: Result<DegSkylineQueue>)
      ensures r.Ok? <==> 1 <= d <= MaxVectorDim
      ensures r.Err? ==> r.error == InvalidArgument
      ensures r.Ok? ==> fresh(r.value) && r.value.Valid()
      ensures r.Ok? ==> r.value.pool == [] && r.value.m == m && r.value.numLayer == 0
                        && r.value.numDimensions == d && r.value.numWeightCombinations == |Lattice(d)|
    {
      if d < 1 || d > MaxVectorDim {
        return Err(InvalidArgument);
      }
      var q := new DegSkylineQueue.Make(m, d);
      return Ok(q);
    }

    /**
     * `initQueue(insert_points)`: the layering of `initNeighbor`, appended in
     * peeling order (no sort and no `outlier_`). A point of the wrong length
     * throws in the first round, before anything changes.
     */
    method InitQueue(input: seq<DegNeighbor>) returns (status: Status, rest: seq<DegNeighbor>, ghost added: seq<DegNeighbor>)
      requires Valid()
      modifies this
      ensures Valid() && m == old(m) && numDimensions == old(numDimensions)
      ensures numWeightCombinations == old(numWeightCombinations)
      ensures status.Done? <==> input == [] || HasDim(input, DegKey, numDimensions)
      ensures status.Failed? ==> (status.error == InvalidArgument && rest == input
                && pool == old(pool) && numLayer == old(numLayer))
      ensures status.Done? ==> (rest == []
                && Map(Core, added) == Relayer(Peel(input, DegKey), DegFreshTag)
                && pool == old(pool) + added
                && (forall x :: x in added ==> fresh(x) && fresh(x.bitmap))
                && AllRebuilt(added, numWeightCombinations)
                && numLayer == |Peel(input, DegKey)|)
    {
      added := [];
      if input != [] {
        var ok := CheckDims(input, DegKey, numDimensions);
        if !ok {
          return Failed(InvalidArgument), input, added;
        }
      }
      var emplaced, rounds, last;
      emplaced, rounds, last := EmplaceRounds(input, DegKey, numDimensions, numWeightCombinations, []);
      added := emplaced;
      numLayer := rounds;
      pool := pool + emplaced;
      return Done, [], added;
    }
  }

  // ---------------------------------------------------------------------------
  // What the DEG pool operations promise

  /** A DEG record with its layer forgotten. */
  function DegUnlayered(x: DegNeighbor): Neighbor
  {
    Unlayered(Core(x))
  }

  /** A view of the records' `Core` is a view of the records. */
  lemma MapCore<V>(s: seq<DegNeighbor>, g: Neighbor -> V, h: DegNeighbor -> V)
    requires forall x :: g(Core(x)) == h(x)
    ensures Map(g, Map(Core, s)) == Map(h, s)
  {
  }

  /**
   * After `initNeighbor` on a DEG pool: the pool is sorted and is the old
   * records plus the new ones; the new records carry every input point's id
   * and distances exactly once, all flagged, with a layer below the round
   * count, and their layers never decrease in the order they were emplaced.
   */
  lemma DegInitNeighborPool(p0: seq<DegNeighbor>, added: seq<DegNeighbor>, xs: seq<DegNeighbor>)
    requires Map(Core, added) == Relayer(Peel(xs, DegKey), DegFreshTag)
    ensures Sorted(SortByDist(p0 + added, DegKey), DegKey)
    ensures multiset(SortByDist(p0 + added, DegKey)) == multiset(p0) + multiset(added)
    ensures multiset(Map(DegKey, added)) == multiset(Map(DegKey, xs))
    ensures forall i :: 0 <= i < |added| ==> added[i].flag && 0 <= added[i].layer < |Peel(xs, DegKey)|
    ensures forall i, j :: 0 <= i <= j < |added| ==> added[i].layer <= added[j].layer
  {
    SortByDistCorrect(p0 + added, DegKey);
    DegAddedPoints(added, xs);
    DegAddedTags(added, xs);
  }

  /** The new records of `initNeighbor` are the input points, each once. */
  lemma DegAddedPoints(added: seq<DegNeighbor>, xs: seq<DegNeighbor>)
    requires Map(Core, added) == Relayer(Peel(xs, DegKey), DegFreshTag)
    ensures multiset(Map(DegKey, added)) == multiset(Map(DegKey, xs))
  {
    var ls := Peel(xs, DegKey);
    MapCore(added, Key, DegKey);
    RelayerViews(ls, DegFreshTag, Key, DegKey);
    PeelPartition(xs, DegKey);
    MapSameMultiset(DegKey, Flatten(ls), xs);
  }

  /** The new records of `initNeighbor` are flagged, and their layers are the rounds, in order. */
  lemma DegAddedTags(added: seq<DegNeighbor>, xs: seq<DegNeighbor>)
    requires Map(Core, added) == Relayer(Peel(xs, DegKey), DegFreshTag)
    ensures forall i :: 0 <= i < |added| ==> added[i].flag && 0 <= added[i].layer < |Peel(xs, DegKey)|
    ensures forall i, j :: 0 <= i <= j < |added| ==> added[i].layer <= added[j].layer
  {
    var ls := Peel(xs, DegKey);
    var r := Relayer(ls, DegFreshTag);
    RelayerLayers(ls, DegFreshTag, Layer);
    var flagOf := (n: Neighbor) => n.flag;
    var yes := (x: DegNeighbor) => true;
    RelayerViews(ls, DegFreshTag, flagOf, yes);
    forall i | 0 <= i < |added|
      ensures added[i].flag && added[i].layer == r[i].layer
    {
      assert Core(added[i]) == Map(Core, added)[i] == r[i];
      assert Map(flagOf, r)[i] == Map(yes, Flatten(ls))[i];
    }
  }

  /**
   * After `updateNeighbor` on a DEG pool: the records are a sub-multiset of
   * the old pool up to their layer (flags kept); if any record was dropped
   * the pool reached M, and when the old pool fits in M nothing is dropped.
   */
  lemma DegUpdateNeighborPool(p0: seq<DegNeighbor>, p: seq<DegNeighbor>, cap: nat)
    requires Map(Core, p) == Relayer(PeelCapped(SortByDist(p0, DegKey), DegKey, 0, cap), DegKeepTag)
    ensures multiset(Map(DegUnlayered, p)) <= multiset(Map(DegUnlayered, p0))
    ensures |p| < |p0| ==> |p| >= cap
    ensures |p0| <= cap ==> multiset(Map(DegUnlayered, p)) == multiset(Map(DegUnlayered, p0))
  {
    var sorted := SortByDist(p0, DegKey);
    var layers := PeelCapped(sorted, DegKey, 0, cap);
    SortByDistCorrect(p0, DegKey);
    MapCore(p, Unlayered, DegUnlayered);
    RelayerViews(layers, DegKeepTag, Unlayered, DegUnlayered);
    RelayerLength(layers, DegKeepTag);
    assert |p| == |Map(Core, p)|;
    PeelCappedSubMultiset(sorted, DegKey, 0, cap);
    PeelCappedFull(sorted, DegKey, 0, cap);
    MapSubMultiset(DegUnlayered, Flatten(layers), sorted);
    MapSameMultiset(DegUnlayered, sorted, p0);
    assert |sorted| == |multiset(sorted)| == |multiset(p0)| == |p0|;
    if |p0| <= cap {
      PeelCappedAll(sorted, DegKey, 0, cap);
      PeelPartition(sorted, DegKey);
      MapSameMultiset(DegUnlayered, Flatten(layers), sorted);
    }
  }

  /** After `updateNeighbor` on a DEG pool: layers never decrease, and within a layer records are in `operator<` order. */
  lemma DegUpdateNeighborOrder(p0: seq<DegNeighbor>, p: seq<DegNeighbor>, cap: nat)
    requires Map(Core, p) == Relayer(PeelCapped(SortByDist(p0, DegKey), DegKey, 0, cap), DegKeepTag)
    ensures forall i, j :: 0 <= i <= j < |p| ==> p[i].layer <= p[j].layer
    ensures forall i, j :: 0 <= i < j < |p| && p[i].layer == p[j].layer ==> !LexLess(p[j].distances, p[i].distances)
  {
    var sorted := SortByDist(p0, DegKey);
    var layers := PeelCapped(sorted, DegKey, 0, cap);
    var r := Relayer(layers, DegKeepTag);
    SortByDistCorrect(p0, DegKey);
    PeelCappedSorted(sorted, DegKey, 0, cap);
    RelayerLayers(layers, DegKeepTag, Layer);
    RelayerSortedWithinLayers(layers, DegKeepTag, Layer, Key, DegKey);
    forall i | 0 <= i < |p|
      ensures p[i].layer == r[i].layer && p[i].distances == r[i].distances
    {
      assert Core(p[i]) == Map(Core, p)[i] == r[i];
    }
  }
}
