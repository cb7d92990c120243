/**
 * The discrete weight lattice of `multi_vector_deg.h`: every vector of D
 * weights in steps of 0.1 that sum to 1. Weights are written in integer
 * tenths, so a weight vector is a `seq<nat>` summing to 10 and the lattice
 * is the list of compositions of 10 into D parts, in lexicographic order.
 */
module WeightLattice {
  import opened Wrappers
  import opened Points
  import opened Sorting

  /** `MAX_VECTOR_DIM`: the DEG classes accept 1..8 objectives. */
  const MaxVectorDim: nat := 8

  /** `WEIGHT_STEPS`: a weight is one of 0, 1, ..., 10 tenths. */
  const WeightSteps: nat := 11

  /** Every table entry extended at the front by `p`. */
  function Prefixed(p: seq<nat>, ls: seq<seq<nat>>): (r: seq<seq<nat>>)
    ensures |r| == |ls|
  {
    seq(|ls|, i requires 0 <= i < |ls| => p + ls[i])
  }

  /**
   * The vectors of `k` tenths summing to `t`, in lexicographic order: the
   * order in which the backtracker emits them.
   */
  function Compositions(k: nat, t: nat): seq<seq<nat>>
    requires k >= 1
    decreases k, t + 2
  {
    if k == 1 then [[t]] else Choices(k, t, t + 1)
  }

  /** Those of the compositions of `t` into `k >= 2` parts whose first part is below `w`. */
  function Choices(k: nat, t: nat, w: nat): seq<seq<nat>>
    requires k >= 2 && w <= t + 1
    decreases k, w
  {
    if w == 0 then [] else Choices(k, t, w - 1) + Prefixed([w - 1], Compositions(k - 1, t - (w - 1)))
  }

  /** `generateWeightCombinations(D)`: nothing for D = 0, `[[1.0]]` for D = 1, else the compositions of 10. */
  function Lattice(d: nat): seq<seq<nat>>
  {
    if d == 0 then [] else Compositions(d, 10)
  }

  /** The view under which `std::sort` orders weight vectors (lexicographically). */
  function WeightKey(w: seq<nat>): Point
  {
    Point(0, w)
  }

  /** `std::unique`: each run of equal adjacent entries collapsed to its first. */
  function Dedup(s: seq<seq<nat>>): seq<seq<nat>>
  {
    if |s| <= 1 then s
    else if s[|s| - 1] == s[|s| - 2] then Dedup(s[..|s| - 1])
    else Dedup(s[..|s| - 1]) + [s[|s| - 1]]
  }

  predicate StrictlySorted(ls: seq<seq<nat>>)
  {
    forall i, j :: 0 <= i < j < |ls| ==> LexLess(ls[i], ls[j])
  }

  // ---------------------------------------------------------------------------
  // Table algebra

  lemma PrefixedConcat(p: seq<nat>, a: seq<seq<nat>>, b: seq<seq<nat>>)
    ensures Prefixed(p, a + b) == Prefixed(p, a) + Prefixed(p, b)
  {
  }

  lemma PrefixedPrefixed(p: seq<nat>, w: nat, ls: seq<seq<nat>>)
    ensures Prefixed(p, Prefixed([w], ls)) == Prefixed(p + [w], ls)
  {
    forall i | 0 <= i < |ls|
      ensures Prefixed(p, Prefixed([w], ls))[i] == Prefixed(p + [w], ls)[i]
    {
      assert p + ([w] + ls[i]) == (p + [w]) + ls[i];
    }
  }

  lemma PrefixedEmpty(ls: seq<seq<nat>>)
    ensures Prefixed([], ls) == ls
  {
    forall i | 0 <= i < |ls|
      ensures Prefixed([], ls)[i] == ls[i]
    {
      assert [] + ls[i] == ls[i];
    }
  }

  lemma PrefixedMember(w: nat, ls: seq<seq<nat>>, c: seq<nat>)
    ensures c in Prefixed([w], ls) <==> c != [] && c[0] == w && c[1..] in ls
  {
    if c != [] && c[0] == w && c[1..] in ls {
      var i :| 0 <= i < |ls| && ls[i] == c[1..];
      assert Prefixed([w], ls)[i] == c;
    }
    if c in Prefixed([w], ls) {
      var i :| 0 <= i < |ls| && Prefixed([w], ls)[i] == c;
      assert c[1..] == ls[i];
    }
  }

  // ---------------------------------------------------------------------------
  // What the lattice is

  /** A composition is exactly a vector of `k` tenths that sum to `t`. */
  lemma {:induction false} CompositionsMembers(k: nat, t: nat, c: seq<nat>)
    requires k >= 1
    ensures c in Compositions(k, t) <==> |c| == k && Sum(c) == t
    decreases k, t + 2
  {
    if k == 1 {
      if |c| == 1 {
        assert c == [c[0]];
        assert Sum(c) == c[0] + Sum([]);
      }
    } else {
      ChoicesMembers(k, t, t + 1, c);
      if |c| == k && Sum(c) == t {
        SumBoundsHead(c);
      }
    }
  }

  lemma {:induction false} ChoicesMembers(k: nat, t: nat, w: nat, c: seq<nat>)
    requires k >= 2 && w <= t + 1
    ensures c in Choices(k, t, w) <==> |c| == k && Sum(c) == t && c[0] < w
    decreases k, w
  {
    if w > 0 {
      ChoicesMembers(k, t, w - 1, c);
      PrefixedMember(w - 1, Compositions(k - 1, t - (w - 1)), c);
      if c != [] {
        assert Sum(c) == c[0] + Sum(c[1..]);
        if c[0] == w - 1 {
          CompositionsMembers(k - 1, t - (w - 1), c[1..]);
        }
      }
    }
  }

  lemma SumBoundsHead(c: seq<nat>)
    requires c != []
    ensures c[0] <= Sum(c)
  {
    SumNonNegative(c[1..]);
  }

  lemma {:induction false} SumNonNegative(c: seq<nat>)
    ensures Sum(c) >= 0
  {
    if c != [] {
      SumNonNegative(c[1..]);
    }
  }

  /** The compositions come out in strictly increasing lexicographic order. */
  lemma {:induction false} CompositionsStrictlySorted(k: nat, t: nat)
    requires k >= 1
    ensures StrictlySorted(Compositions(k, t))
    decreases k, t + 2
  {
    if k > 1 {
      ChoicesStrictlySorted(k, t, t + 1);
    }
  }

  lemma {:induction false} ChoicesStrictlySorted(k: nat, t: nat, w: nat)
    requires k >= 2 && w <= t + 1
    ensures StrictlySorted(Choices(k, t, w))
    decreases k, w
  {
    if w > 0 {
      var a := Choices(k, t, w - 1);
      var tail := Compositions(k - 1, t - (w - 1));
      var b := Prefixed([w - 1], tail);
      ChoicesStrictlySorted(k, t, w - 1);
      CompositionsStrictlySorted(k - 1, t - (w - 1));
      var r := a + b;
      forall i, j | 0 <= i < j < |r|
        ensures LexLess(r[i], r[j])
      {
        if j < |a| {
        } else if i >= |a| {
          var x, y := tail[i - |a|], tail[j - |a|];
          assert r[i] == [w - 1] + x && r[j] == [w - 1] + y;
          assert r[i][1..] == x && r[j][1..] == y;
        } else {
          assert a[i] in a;
          ChoicesMembers(k, t, w - 1, a[i]);
          assert r[j] == [w - 1] + tail[j - |a|];
        }
      }
    }
  }

  lemma StrictlySortedIsSorted(ls: seq<seq<nat>>)
    requires StrictlySorted(ls)
    ensures Sorted(ls, WeightKey)
  {
    forall i, j | 0 <= i < j < |ls|
      ensures !LexLess(WeightKey(ls[j]).dist, WeightKey(ls[i]).dist)
    {
      if LexLess(ls[j], ls[i]) {
        LexLessTransitive(ls[i], ls[j], ls[i]);
        LexLessIrreflexive(ls[i]);
      }
    }
  }

  /** `std::sort` leaves an already ordered table as it is. */
  lemma {:induction false} SortSortedIdentity<T>(xs: seq<T>, key: T -> Point)
    requires Sorted(xs, key)
    ensures SortByDist(xs, key) == xs
  {
    if xs != [] {
      SortSortedIdentity(xs[1..], key);
      assert xs == [xs[0]] + xs[1..];
    }
  }

  /** `std::unique` leaves a table without adjacent repeats as it is. */
  lemma {:induction false} DedupIdentity(s: seq<seq<nat>>)
    requires forall i :: 0 < i < |s| ==> s[i - 1] != s[i]
    ensures Dedup(s) == s
  {
    if |s| > 1 {
      DedupIdentity(s[..|s| - 1]);
      assert s[..|s| - 1] + [s[|s| - 1]] == s;
    }
  }

  /**
   * The table of `generateWeightCombinations(D)` for D >= 1: exactly the
   * length-D vectors of tenths that sum to 1.0, strictly increasing and so
   * free of duplicates; for D = 1 it is `[[1.0]]`.
   */
  lemma LatticeSpec(d: nat)
    requires d >= 1
    ensures forall c: seq<nat> :: c in Lattice(d) <==> |c| == d && Sum(c) == 10
    ensures StrictlySorted(Lattice(d))
    ensures forall i, j :: 0 <= i < j < |Lattice(d)| ==> Lattice(d)[i] != Lattice(d)[j]
    ensures d == 1 ==> Lattice(d) == [[10]]
  {
    forall c: seq<nat>
      ensures c in Lattice(d) <==> |c| == d && Sum(c) == 10
    {
      CompositionsMembers(d, 10, c);
    }
    CompositionsStrictlySorted(d, 10);
    forall i, j | 0 <= i < j < |Lattice(d)|
      ensures Lattice(d)[i] != Lattice(d)[j]
    {
      LexLessIrreflexive(Lattice(d)[i]);
    }
  }

  // ---------------------------------------------------------------------------
  // Sizes: 11, 66 and 286 entries for two, three and four objectives

  lemma {:induction false} ChoicesSize2(t: nat, w: nat)
    requires w <= t + 1
    ensures |Choices(2, t, w)| == w
  {
    if w > 0 {
      ChoicesSize2(t, w - 1);
    }
  }

  lemma {:induction false} ChoicesSize3(t: nat, w: nat)
    requires w <= t + 1
    ensures 2 * |Choices(3, t, w)| == (t + 1) * (t + 2) - (t + 1 - w) * (t + 2 - w)
  {
    if w > 0 {
      ChoicesSize3(t, w - 1);
      var a := t - (w - 1);
      ChoicesSize2(a, a + 1);
      StepIdentity2(a);
    }
  }

  lemma StepIdentity2(a: int)
    ensures (a + 1) * (a + 2) - a * (a + 1) == 2 * (a + 1)
  {
  }

  lemma {:induction false} ChoicesSize4(t: nat, w: nat)
    requires w <= t + 1
    ensures 6 * |Choices(4, t, w)| == (t + 1) * (t + 2) * (t + 3) - (t + 1 - w) * (t + 2 - w) * (t + 3 - w)
  {
    if w > 0 {
      var a := t - (w - 1);
      ChoicesSize4(t, w - 1);
      ChoicesSize3(a, a + 1);
      var prev, here := |Choices(4, t, w - 1)|, |Choices(3, a, a + 1)|;
      assert |Choices(4, t, w)| == prev + here;
      StepArithmetic4(t, w, a, prev, here);
    }
  }

  /** The arithmetic of one step of `ChoicesSize4`, stated in the terms its two size facts use. */
  lemma StepArithmetic4(t: int, w: int, a: int, prev: int, here: int)
    requires a == t - (w - 1)
    requires 6 * prev == (t + 1) * (t + 2) * (t + 3) - (t + 1 - (w - 1)) * (t + 2 - (w - 1)) * (t + 3 - (w - 1))
    requires 2 * here == (a + 1) * (a + 2) - (a + 1 - (a + 1)) * (a + 2 - (a + 1))
    ensures 6 * (prev + here) == (t + 1) * (t + 2) * (t + 3) - (t + 1 - w) * (t + 2 - w) * (t + 3 - w)
  {
    StepIdentity3(a);
  }

  lemma StepIdentity3(a: int)
    ensures (a + 1) * (a + 2) * (a + 3) - a * (a + 1) * (a + 2) == 3 * ((a + 1) * (a + 2))
  {
  }

  /** How many compositions of `t` there are into one to four parts. */
  lemma CompositionsSizes(t: nat)
    ensures |Compositions(1, t)| == 1
    ensures |Compositions(2, t)| == t + 1
    ensures 2 * |Compositions(3, t)| == (t + 1) * (t + 2)
    ensures 6 * |Compositions(4, t)| == (t + 1) * (t + 2) * (t + 3)
  {
    ChoicesSize2(t, t + 1);
    ChoicesSize3(t, t + 1);
    ChoicesSize4(t, t + 1);
  }

  /** The table sizes the DEG tests expect: 1, 11, 66 and 286 entries for one to four objectives. */
  lemma LatticeSizes(d: nat)
    requires 1 <= d <= 4
    ensures |Lattice(d)| == [1, 11, 66, 286][d - 1]
  {
    // Quantified over `t` so that the table for t = 10 is not unfolded entry by entry.
    forall t: nat
      ensures |Compositions(1, t)| == 1 && |Compositions(2, t)| == t + 1
              && 2 * |Compositions(3, t)| == (t + 1) * (t + 2)
              && 6 * |Compositions(4, t)| == (t + 1) * (t + 2) * (t + 3)
    {
      CompositionsSizes(t);
    }
  }

  // ---------------------------------------------------------------------------
  // generateWeightCombinations

  /**
   * The recursive `backtrack(dim, current_sum, remaining)` lambda: with
   * `current` holding the first `dim` weights, appends to `result` every
   * completion of `current` to D weights summing to 10 tenths. The range
   * checks of the source (the last weight within [0, 1], the remaining
   * weight within reach of the remaining dimensions) always pass on tenths,
   * so they are not branches here.
   */
  method Backtrack(d: nat, dim: nat, current: seq<nat>, sum: nat, result: seq<seq<nat>>)
    returns (out: seq<seq<nat>>)
    requires dim < d && |current| == dim && sum <= 10
    ensures out == result + Prefixed(current, Compositions(d - dim, 10 - sum))
    decreases d - dim
  {
    if dim == d - 1 {
      var last := 10 - sum;
      assert Prefixed(current, [[last]]) == [current + [last]];
      return result + [current + [last]];
    }
    out := result;
    var w: nat := 0;
    while w <= 10 && sum + w <= 10
      invariant sum + w <= 11
      invariant out == result + Prefixed(current, Choices(d - dim, 10 - sum, w))
    {
      out := Backtrack(d, dim + 1, current + [w], sum + w, out);
      PrefixedPrefixed(current, w, Compositions(d - dim - 1, 10 - sum - w));
      PrefixedConcat(current, Choices(d - dim, 10 - sum, w), Prefixed([w], Compositions(d - dim - 1, 10 - sum - w)));
      w := w + 1;
    }
  }

  /**
   * `generateWeightCombinations(D)`: the lattice, by backtracking followed
   * by sort and unique (which change nothing, the backtracker's output
   * being strictly increasing already).
   */
  method GenerateWeightCombinations(d: nat) returns (r: seq<seq<nat>>)
    ensures r == Lattice(d)
  {
    if d == 0 {
      return [];
    }
    if d == 1 {
      return [[10]];
    }
    r := Backtrack(d, 0, [], 0, []);
    PrefixedEmpty(Compositions(d, 10));
    CompositionsStrictlySorted(d, 10);
    StrictlySortedIsSorted(r);
    SortSortedIdentity(r, WeightKey);
    r := SortByDist(r, WeightKey);
    forall i | 0 < i < |r|
      ensures r[i - 1] != r[i]
    {
      LexLessIrreflexive(r[i - 1]);
    }
    DedupIdentity(r);
    r := Dedup(r);
  }

  // ---------------------------------------------------------------------------
  // Lookup

  /** The first position of `w` in `table`, which `getWeightIndex` scans for. */
  function FirstIndex(table: seq<seq<nat>>, w: seq<nat>): (r: Option<nat>)
    ensures r.Some? ==> r.value < |table| && table[r.value] == w
                        && forall i :: 0 <= i < r.value ==> table[i] != w
    ensures r.None? ==> w !in table
  {
    if table == [] then None
    else
      var r := FirstIndex(table[..|table| - 1], w);
      if r.Some? then Some(r.value)
      else if table[|table| - 1] == w then Some(|table| - 1)
      else None
  }

  /**
   * Looking up any lattice entry finds its own position; a vector of the
   * right length is found exactly when its tenths sum to 1.0.
   */
  lemma LookupRoundTrip(d: nat, i: nat)
    requires d >= 1 && i < |Lattice(d)|
    ensures FirstIndex(Lattice(d), Lattice(d)[i]) == Some(i)
  {
    LatticeSpec(d);
  }

  lemma LookupFindsExactlyTheLattice(d: nat, w: seq<nat>)
    requires d >= 1 && |w| == d
    ensures FirstIndex(Lattice(d), w).Some? <==> Sum(w) == 10
  {
    LatticeSpec(d);
  }

  // ---------------------------------------------------------------------------
  // getWeightCombinationIndex

  /** The base-11 numeral whose digits are the tenths, most significant first. */
  function Numeral(ws: seq<nat>): nat
  {
    if ws == [] then 0 else Numeral(ws[..|ws| - 1]) * WeightSteps + ws[|ws| - 1]
  }

  function Pow11(n: nat): nat
  {
    if n == 0 then 1 else WeightSteps * Pow11(n - 1)
  }

  /** `getWeightCombinationIndex(weights)`: the accumulator loop `index = index * 11 + tenths`. */
  method GetWeightCombinationIndex(ws: seq<nat>) returns (index: nat)
    ensures index == Numeral(ws)
  {
    index := 0;
    for i := 0 to |ws|
      invariant index == Numeral(ws[..i])
    {
      assert ws[..i + 1][..i] == ws[..i];
      index := index * WeightSteps + ws[i];
    }
    assert ws[..|ws|] == ws;
  }

  predicate Digits(ws: seq<nat>)
  {
    forall i :: 0 <= i < |ws| ==> ws[i] <= 10
  }

  /** With digits 0..10 the index of a length-n vector stays below 11^n. */
  lemma {:induction false} NumeralBound(ws: seq<nat>)
    requires Digits(ws)
    ensures Numeral(ws) < Pow11(|ws|)
  {
    if ws != [] {
      var init := ws[..|ws| - 1];
      NumeralBound(init);
      assert Numeral(ws) <= (Pow11(|init|) - 1) * 11 + 10;
    }
  }

  /** The "unique index" promise: equal-length vectors of tenths with equal indices are equal. */
  lemma {:induction false} NumeralInjective(a: seq<nat>, b: seq<nat>)
    requires |a| == |b| && Digits(a) && Digits(b)
    requires Numeral(a) == Numeral(b)
    ensures a == b
  {
    if a != [] {
      var n := |a| - 1;
      var qa, qb := Numeral(a[..n]), Numeral(b[..n]);
      DivModUnique(qa, a[n], qb, b[n]);
      NumeralInjective(a[..n], b[..n]);
      assert a == a[..n] + [a[n]] && b == b[..n] + [b[n]];
    }
  }

  lemma DivModUnique(qa: nat, ra: nat, qb: nat, rb: nat)
    requires ra <= 10 && rb <= 10
    requires qa * 11 + ra == qb * 11 + rb
    ensures qa == qb && ra == rb
  {
    assert (qa - qb) * 11 == rb - ra;
  }
}
