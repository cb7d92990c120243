/**
 * What the selection algorithms see of a neighbour record: its id and its
 * vector of per-objective distances, plus the two relations the headers
 * define on those vectors (the lexicographic `operator<` and Pareto dominance).
 */
module Points {

  /** The id and distance vector of a neighbour (either struct of the headers). */
  datatype Point = Point(id: nat, dist: seq<int>)

  /**
   * `operator<` of both neighbour structs: lexicographic comparison of the
   * distance vectors, where a proper prefix is the smaller one.
   */
  predicate LexLess(a: seq<int>, b: seq<int>)
    decreases |a|
  {
    if a == [] || b == [] then |a| < |b|
    else if a[0] != b[0] then a[0] < b[0]
    else LexLess(a[1..], b[1..])
  }

  /** `operator<` is a strict total order on distance vectors. */
  lemma {:induction false} LexLessIrreflexive(a: seq<int>)
    ensures !LexLess(a, a)
  {
    if a != [] {
      LexLessIrreflexive(a[1..]);
    }
  }

  lemma {:induction false} LexLessTransitive(a: seq<int>, b: seq<int>, c: seq<int>)
    requires LexLess(a, b) && LexLess(b, c)
    ensures LexLess(a, c)
    decreases |a|
  {
    if a != [] && b != [] && c != [] && a[0] == b[0] && b[0] == c[0] {
      LexLessTransitive(a[1..], b[1..], c[1..]);
    }
  }

  lemma {:induction false} LexLessTotal(a: seq<int>, b: seq<int>)
    ensures a == b || LexLess(a, b) || LexLess(b, a)
    decreases |a|
  {
    if a != [] && b != [] && a[0] == b[0] {
      LexLessTotal(a[1..], b[1..]);
      if a[1..] == b[1..] {
        assert a == [a[0]] + a[1..] && b == [b[0]] + b[1..];
      }
    }
  }

  /**
   * `operator==` (same id and same distances) is consistent with `operator<`:
   * equal records are never ordered, and records that are not ordered either
   * way have the same distances (their ids may still differ).
   */
  lemma EqualityAgreesWithOrder(a: Point, b: Point)
    ensures a == b ==> !LexLess(a.dist, b.dist) && !LexLess(b.dist, a.dist)
    ensures !LexLess(a.dist, b.dist) && !LexLess(b.dist, a.dist) ==> a.dist == b.dist
  {
    LexLessIrreflexive(a.dist);
    LexLessTotal(a.dist, b.dist);
  }

  /**
   * `q` dominates `p` (lower is better): no worse in any dimension and
   * strictly better in one. The headers only compare vectors of the same length D.
   */
  predicate Dominates(q: seq<int>, p: seq<int>)
  {
    && |q| == |p|
    && (forall k :: 0 <= k < |p| ==> q[k] <= p[k])
    && (exists k :: 0 <= k < |p| && q[k] < p[k])
  }

  function Sum(s: seq<int>): int
  {
    if s == [] then 0 else s[0] + Sum(s[1..])
  }

  lemma {:induction false} SumNoGreater(q: seq<int>, p: seq<int>)
    requires |q| == |p|
    requires forall k :: 0 <= k < |p| ==> q[k] <= p[k]
    ensures Sum(q) <= Sum(p)
    decreases |p|
  {
    if p != [] {
      SumNoGreater(q[1..], p[1..]);
    }
  }

  /** Dominance strictly lowers the total distance, so it admits no cycles. */
  lemma {:induction false} DominatesLowersSum(q: seq<int>, p: seq<int>)
    requires Dominates(q, p)
    ensures Sum(q) < Sum(p)
    decreases |p|
  {
    if q[0] < p[0] {
      SumNoGreater(q[1..], p[1..]);
    } else {
      var k :| 0 <= k < |p| && q[k] < p[k];
      assert q[1..][k - 1] < p[1..][k - 1];
      DominatesLowersSum(q[1..], p[1..]);
    }
  }

  /** Dominance is a strict partial order: irreflexive, asymmetric and transitive. */
  lemma DominanceIsStrictOrder(p: seq<int>, q: seq<int>, r: seq<int>)
    ensures !Dominates(p, p)
    ensures Dominates(p, q) ==> !Dominates(q, p)
    ensures Dominates(p, q) && Dominates(q, r) ==> Dominates(p, r)
  {
    if Dominates(p, q) && Dominates(q, r) {
      var k :| 0 <= k < |q| && p[k] < q[k];
      assert p[k] < r[k];
    }
    if Dominates(p, q) && Dominates(q, p) {
      DominatesLowersSum(p, q);
      DominatesLowersSum(q, p);
    }
  }
}
