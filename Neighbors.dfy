/**
 * `MultiVectorNeighbor`: a candidate neighbour with an id, one distance per
 * objective, a flag and the layer it was peeled in. Its `operator<` and
 * `operator==` look only at the id and the distances, which is its `Key`.
 */
module Neighbors {
  import opened Wrappers
  import opened Points
  import opened Skyline

  datatype Neighbor = Neighbor(id: nat, distances: seq<int>, flag: bool, layer: int)

  /** The part of a record that dominance, `operator<` and `operator==` look at. */
  function Key(n: Neighbor): Point
  {
    Point(n.id, n.distances)
  }

  /** `getDistance(dim)`: the distance for objective `dim`, or out_of_range. */
  function GetDistance(n: Neighbor, dim: nat): (r: Result<int>)
    ensures r.Ok? <==> dim < |n.distances|
    ensures r.Ok? ==> r.value == n.distances[dim]
    ensures r.Err? ==> r.error == OutOfRange
  {
    if dim >= |n.distances| then Err(OutOfRange) else Ok(n.distances[dim])
  }

  /** Some record of `s` has id `id`. */
  predicate HasId(s: seq<Neighbor>, id: nat)
  {
    exists i :: 0 <= i < |s| && s[i].id == id
  }

  /** The record `initNeighbor`/`initQueue` append for a point of round `l`: flag set. */
  function FreshTag(x: Neighbor, l: nat): Neighbor
  {
    Neighbor(x.id, x.distances, true, l)
  }

  /** The record `updateNeighbor` appends for a point of round `l`: flag kept. */
  function KeepTag(x: Neighbor, l: nat): Neighbor
  {
    Neighbor(x.id, x.distances, x.flag, l)
  }

  /** A record with its layer erased: what a re-peel must preserve. */
  function Unlayered(x: Neighbor): Neighbor
  {
    x.(layer := 0)
  }

  function Layer(x: Neighbor): int
  {
    x.layer
  }

  /**
   * The position of the first flagged record, which `updateNeighbor(nk)`
   * tracks.
   */
  function FirstFlagged(s: seq<Neighbor>): (r: Option<nat>)
    ensures r.Some? ==> r.value < |s| && s[r.value].flag && forall i :: 0 <= i < r.value ==> !s[i].flag
    ensures r.None? ==> forall i :: 0 <= i < |s| ==> !s[i].flag
  {
    if s == [] then None
    else
      var r := FirstFlagged(s[..|s| - 1]);
      if r.Some? then r
      else if s[|s| - 1].flag then Some(|s| - 1)
      else None
  }

  /** The five points of the DEG tests, with ids 0..4. */
  function FivePoints(): seq<Neighbor>
  {
    [Neighbor(0, [10, 20], true, 0), Neighbor(1, [5, 30], true, 0),
     Neighbor(2, [15, 10], true, 0), Neighbor(3, [8, 15], true, 0),
     Neighbor(4, [20, 25], true, 0)]
  }

  lemma NotDominatesAt(q: seq<int>, p: seq<int>, k: nat)
    requires k < |q| && k < |p| && q[k] > p[k]
    ensures !Dominates(q, p)
  {
  }

  /** (8,15) dominates (10,20). */
  lemma FirstPointDominated()
    ensures !Undominated(FivePoints()[0], FivePoints(), Key)
  {
    var pts := FivePoints();
    assert Key(pts[3]).dist[0] < Key(pts[0]).dist[0];
    assert Dominates(Key(pts[3]).dist, Key(pts[0]).dist);
  }

  /** (10,20) dominates (20,25). */
  lemma LastPointDominated()
    ensures !Undominated(FivePoints()[4], FivePoints(), Key)
  {
    var pts := FivePoints();
    assert Key(pts[0]).dist[0] < Key(pts[4]).dist[0];
    assert Dominates(Key(pts[0]).dist, Key(pts[4]).dist);
  }

  /** (5,30) has the smallest first distance. */
  lemma SecondPointUndominated()
    ensures Undominated(FivePoints()[1], FivePoints(), Key)
  {
    var pts := FivePoints();
    forall j | 0 <= j < 5 && j != 1
      ensures !Dominates(Key(pts[j]).dist, Key(pts[1]).dist)
    {
      NotDominatesAt(Key(pts[j]).dist, Key(pts[1]).dist, 0);
    }
  }

  /** (15,10) has the smallest second distance. */
  lemma ThirdPointUndominated()
    ensures Undominated(FivePoints()[2], FivePoints(), Key)
  {
    var pts := FivePoints();
    forall j | 0 <= j < 5 && j != 2
      ensures !Dominates(Key(pts[j]).dist, Key(pts[2]).dist)
    {
      NotDominatesAt(Key(pts[j]).dist, Key(pts[2]).dist, 1);
    }
  }

  /** (8,15) beats every other point in one of its distances. */
  lemma FourthPointUndominated()
    ensures Undominated(FivePoints()[3], FivePoints(), Key)
  {
    var pts := FivePoints();
    forall j | 0 <= j < 5 && j != 3
      ensures !Dominates(Key(pts[j]).dist, Key(pts[3]).dist)
    {
      NotDominatesAt(Key(pts[j]).dist, Key(pts[3]).dist, if j == 1 then 1 else 0);
    }
  }

  /** Splitting five records of which the middle three are undominated. */
  lemma SplitFive<T>(p0: T, p1: T, p2: T, p3: T, p4: T, key: T -> Point)
    requires var all := [p0, p1, p2, p3, p4];
             !Undominated(p0, all, key) && Undominated(p1, all, key) && Undominated(p2, all, key)
             && Undominated(p3, all, key) && !Undominated(p4, all, key)
    ensures Front([p0, p1, p2, p3, p4], key) == [p1, p2, p3]
    ensures Rest([p0, p1, p2, p3, p4], key) == [p0, p4]
  {
    var all := [p0, p1, p2, p3, p4];
    SplitFour(p0, p1, p2, p3, all, key);
    assert all == [p0, p1, p2, p3] + [p4];
    KeepDropSnoc([p0, p1, p2, p3], p4, all, key);
  }

  /** The first four of those five records, split against all five. */
  lemma SplitFour<T>(p0: T, p1: T, p2: T, p3: T, all: seq<T>, key: T -> Point)
    requires !Undominated(p0, all, key) && Undominated(p1, all, key) && Undominated(p2, all, key)
             && Undominated(p3, all, key)
    ensures Keep([p0, p1, p2, p3], all, key) == [p1, p2, p3]
    ensures Drop([p0, p1, p2, p3], all, key) == [p0]
  {
    assert [p0, p1, p2, p3] == [p0, p1, p2] + [p3];
    assert [p0, p1, p2] == [p0, p1] + [p2];
    assert [p0, p1] == [p0] + [p1];
    assert [p0] == [] + [p0];
    KeepDropSnoc([], p0, all, key);
    KeepDropSnoc([p0], p1, all, key);
    KeepDropSnoc([p0, p1], p2, all, key);
    KeepDropSnoc([p0, p1, p2], p3, all, key);
  }

  /**
   * The five-point example of the DEG tests: (10,20), (5,30), (15,10),
   * (8,15), (20,25) have skyline ids 1, 2, 3 and rest ids 0, 4.
   */
  lemma FivePointExample()
    ensures Front(FivePoints(), Key) == [FivePoints()[1], FivePoints()[2], FivePoints()[3]]
    ensures Rest(FivePoints(), Key) == [FivePoints()[0], FivePoints()[4]]
  {
    var pts := FivePoints();
    FirstPointDominated();
    SecondPointUndominated();
    ThirdPointUndominated();
    FourthPointUndominated();
    LastPointDominated();
    assert pts == [pts[0], pts[1], pts[2], pts[3], pts[4]];
    SplitFive(pts[0], pts[1], pts[2], pts[3], pts[4], Key);
  }
}
