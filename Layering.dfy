/**
 * The layer-peeling loops of `initNeighbor`, `updateNeighbor` and `initQueue`:
 * repeat `findSkyline` on what is left, stamping every skyline record with the
 * round number. `Peel` runs until the input is empty; `PeelCapped` also stops
 * once the pool holds `cap` records. `Relayer` is the sequence of records the
 * loops append, one layer after the other.
 */
module Layering {
  import opened Points
  import opened Skyline
  import opened Sorting

  /** The successive skylines of `xs`: layer 0 is its skyline, layer 1 the skyline of the rest, ... */
  function Peel<T>(xs: seq<T>, key: T -> Point): seq<seq<T>>
    decreases |xs|
  {
    if xs == [] then []
    else
      SkylineNonEmpty(xs, key);
      [Front(xs, key)] + Peel(Rest(xs, key), key)
  }

  /**
   * The layers peeled while the pool, which already holds `have` records,
   * holds fewer than `cap`: a whole layer is added even when it overshoots.
   */
  function PeelCapped<T>(xs: seq<T>, key: T -> Point, have: nat, cap: nat): seq<seq<T>>
    decreases |xs|
  {
    if have >= cap || xs == [] then []
    else
      SkylineNonEmpty(xs, key);
      [Front(xs, key)] + PeelCapped(Rest(xs, key), key, have + |Front(xs, key)|, cap)
  }

  function Flatten<T>(ls: seq<seq<T>>): seq<T>
  {
    if ls == [] then [] else Flatten(ls[..|ls| - 1]) + ls[|ls| - 1]
  }

  /** The records of one round, each rebuilt by `tag` with layer `l`. */
  function TagAll<T, U>(xs: seq<T>, l: nat, tag: (T, nat) -> U): seq<U>
  {
    seq(|xs|, i requires 0 <= i < |xs| => tag(xs[i], l))
  }

  /** What the peeling loops append to the pool: every layer, tagged with its round. */
  function Relayer<T, U>(ls: seq<seq<T>>, tag: (T, nat) -> U): seq<U>
  {
    if ls == [] then [] else Relayer(ls[..|ls| - 1], tag) + TagAll(ls[|ls| - 1], |ls| - 1, tag)
  }

  // ---------------------------------------------------------------------------
  // Flatten

  lemma {:induction false} FlattenConcat<T>(a: seq<seq<T>>, b: seq<seq<T>>)
    ensures Flatten(a + b) == Flatten(a) + Flatten(b)
    decreases |b|
  {
    if b == [] {
      assert a + b == a;
    } else {
      var p, x := b[..|b| - 1], b[|b| - 1];
      assert b == p + [x];
      assert a + b == (a + p) + [x];
      FlattenConcat(a, p);
    }
  }

  lemma FlattenCons<T>(x: seq<T>, ls: seq<seq<T>>)
    ensures Flatten([x] + ls) == x + Flatten(ls)
  {
    FlattenConcat([x], ls);
    assert Flatten([x]) == Flatten([x][..0]) + x;
  }

  /** Sorting the pool changes neither whether it is empty nor whether every record has `d` distances. */
  lemma SortKeepsDim<T>(xs: seq<T>, key: T -> Point, d: nat)
    ensures SortByDist(xs, key) == [] <==> xs == []
    ensures HasDim(SortByDist(xs, key), key, d) <==> HasDim(xs, key, d)
  {
    SortByDistCorrect(xs, key);
    HasDimPermutation(xs, SortByDist(xs, key), key, d);
    if xs != [] {
      assert xs[0] in multiset(SortByDist(xs, key));
    }
  }

  // ---------------------------------------------------------------------------
  // What peeling produces

  /** Every input record lands in exactly one layer, and no layer is empty. */
  lemma {:induction false} PeelPartition<T>(xs: seq<T>, key: T -> Point)
    ensures multiset(Flatten(Peel(xs, key))) == multiset(xs)
    ensures |Peel(xs, key)| <= |xs|
    ensures forall l :: 0 <= l < |Peel(xs, key)| ==> Peel(xs, key)[l] != []
  {
    PeelMultiset(xs, key);
    PeelShape(xs, key);
  }

  lemma {:induction false} PeelMultiset<T>(xs: seq<T>, key: T -> Point)
    ensures multiset(Flatten(Peel(xs, key))) == multiset(xs)
    decreases |xs|
  {
    if xs != [] {
      var front, rest := Front(xs, key), Rest(xs, key);
      assert Peel(xs, key) == [front] + Peel(rest, key);
      SkylineNonEmpty(xs, key);
      FrontRestCount(xs, key);
      PeelMultiset(rest, key);
      FlattenCons(front, Peel(rest, key));
    }
  }

  lemma {:induction false} PeelShape<T>(xs: seq<T>, key: T -> Point)
    ensures |Peel(xs, key)| <= |xs|
    ensures forall l :: 0 <= l < |Peel(xs, key)| ==> Peel(xs, key)[l] != []
    decreases |xs|
  {
    if xs != [] {
      var front, rest := Front(xs, key), Rest(xs, key);
      assert Peel(xs, key) == [front] + Peel(rest, key);
      SkylineNonEmpty(xs, key);
      FrontRestCount(xs, key);
      PeelShape(rest, key);
    }
  }

  /**
   * The onion property: every record of layer `l > 0` is dominated by some
   * record of layer `l - 1`, which is why it was not peeled one round earlier.
   */
  lemma {:induction false} PeelOnion<T>(xs: seq<T>, key: T -> Point, l: nat, x: T)
    requires 0 < l < |Peel(xs, key)|
    requires x in Peel(xs, key)[l]
    ensures exists y :: y in Peel(xs, key)[l - 1] && Dominates(key(y).dist, key(x).dist)
    decreases |xs|
  {
    var r := Rest(xs, key);
    SkylineNonEmpty(xs, key);
    assert Peel(xs, key) == [Front(xs, key)] + Peel(r, key);
    assert x in Peel(r, key)[l - 1];
    if l == 1 {
      assert Peel(r, key)[0] == Front(r, key);
      KeepMembers(r, r, key, x);
      RestDominatedBySkyline(xs, key, x);
    } else {
      PeelOnion(r, key, l - 1, x);
    }
  }

  /**
   * When no record is dominated by a record with another id (an antichain, or
   * records all sharing one id), a non-empty input peels into one layer
   * holding all of it.
   */
  lemma PeelNoDominance<T>(xs: seq<T>, key: T -> Point)
    requires xs != []
    requires forall i, j :: 0 <= i < |xs| && 0 <= j < |xs| && key(xs[i]).id != key(xs[j]).id
                            ==> !Dominates(key(xs[i]).dist, key(xs[j]).dist)
    ensures Peel(xs, key) == [xs]
  {
    KeepAll(xs, xs, key);
    assert Rest(xs, key) == [];
  }

  lemma {:induction false} KeepAll<T>(xs: seq<T>, all: seq<T>, key: T -> Point)
    requires forall i :: 0 <= i < |xs| ==> Undominated(xs[i], all, key)
    ensures Keep(xs, all, key) == xs && Drop(xs, all, key) == []
  {
    if xs != [] {
      var n := |xs| - 1;
      KeepAll(xs[..n], all, key);
      assert xs == xs[..n] + [xs[n]];
    }
  }

  /** A chain with distinct ids, each record dominating the next, peels into one layer per record. */
  lemma {:induction false} PeelChain<T>(xs: seq<T>, key: T -> Point)
    requires forall i, j :: 0 <= i < j < |xs| ==> key(xs[i]).id != key(xs[j]).id
    requires forall i :: 0 <= i < |xs| - 1 ==> Dominates(key(xs[i]).dist, key(xs[i + 1]).dist)
    ensures |Peel(xs, key)| == |xs|
    ensures forall l :: 0 <= l < |xs| ==> Peel(xs, key)[l] == [xs[l]]
    decreases |xs|
  {
    if xs != [] {
      ChainSplit(xs, key);
      PeelChain(xs[1..], key);
    }
  }

  lemma ChainSplit<T>(xs: seq<T>, key: T -> Point)
    requires xs != []
    requires forall i, j :: 0 <= i < j < |xs| ==> key(xs[i]).id != key(xs[j]).id
    requires forall i :: 0 <= i < |xs| - 1 ==> Dominates(key(xs[i]).dist, key(xs[i + 1]).dist)
    ensures Front(xs, key) == [xs[0]] && Rest(xs, key) == xs[1..]
  {
    ChainDominates(xs, key);
    assert Undominated(xs[0], xs, key) by {
      forall j | 0 <= j < |xs| && key(xs[j]).id != key(xs[0]).id
        ensures !Dominates(key(xs[j]).dist, key(xs[0]).dist)
      {
        DominanceIsStrictOrder(key(xs[0]).dist, key(xs[j]).dist, key(xs[0]).dist);
      }
    }
    forall i | 0 < i < |xs|
      ensures !Undominated(xs[i], xs, key)
    {
      assert key(xs[0]).id != key(xs[i]).id;
    }
    ChainKeepDrop(xs, xs, key);
  }

  lemma ChainKeepDrop<T>(xs: seq<T>, all: seq<T>, key: T -> Point)
    requires xs != [] && Undominated(xs[0], all, key)
    requires forall i :: 0 < i < |xs| ==> !Undominated(xs[i], all, key)
    ensures Keep(xs, all, key) == [xs[0]] && Drop(xs, all, key) == xs[1..]
  {
    ChainKeep(xs, all, key);
    ChainDrop(xs, all, key);
  }

  lemma {:induction false} ChainKeep<T>(xs: seq<T>, all: seq<T>, key: T -> Point)
    requires xs != [] && Undominated(xs[0], all, key)
    requires forall i :: 0 < i < |xs| ==> !Undominated(xs[i], all, key)
    ensures Keep(xs, all, key) == [xs[0]]
  {
    var p, x := xs[..|xs| - 1], xs[|xs| - 1];
    assert xs == p + [x];
    if p != [] {
      assert forall i :: 0 < i < |p| ==> p[i] == xs[i];
      ChainKeep(p, all, key);
    }
  }

  lemma {:induction false} ChainDrop<T>(xs: seq<T>, all: seq<T>, key: T -> Point)
    requires xs != [] && Undominated(xs[0], all, key)
    requires forall i :: 0 < i < |xs| ==> !Undominated(xs[i], all, key)
    ensures Drop(xs, all, key) == xs[1..]
  {
    var p, x := xs[..|xs| - 1], xs[|xs| - 1];
    assert xs == p + [x];
    if p != [] {
      assert forall i :: 0 < i < |p| ==> p[i] == xs[i];
      ChainDrop(p, all, key);
      assert p[1..] + [x] == xs[1..];
    }
  }

  lemma {:induction false} ChainDominates<T>(xs: seq<T>, key: T -> Point)
    requires forall i :: 0 <= i < |xs| - 1 ==> Dominates(key(xs[i]).dist, key(xs[i + 1]).dist)
    ensures forall j :: 0 < j < |xs| ==> Dominates(key(xs[0]).dist, key(xs[j]).dist)
    decreases |xs|
  {
    if |xs| > 2 {
      ChainDominates(xs[1..], key);
      forall j | 1 < j < |xs|
        ensures Dominates(key(xs[0]).dist, key(xs[j]).dist)
      {
        assert xs[1..][j - 1] == xs[j];
        DominanceIsStrictOrder(key(xs[0]).dist, key(xs[1]).dist, key(xs[j]).dist);
      }
    }
  }

  // ---------------------------------------------------------------------------
  // Sortedness survives peeling

  lemma {:induction false} KeepDropSorted<T>(xs: seq<T>, all: seq<T>, key: T -> Point)
    requires Sorted(xs, key)
    ensures Sorted(Keep(xs, all, key), key) && Sorted(Drop(xs, all, key), key)
  {
    if xs != [] {
      var n := |xs| - 1;
      assert Sorted(xs[..n], key);
      KeepDropSorted(xs[..n], all, key);
      forall y | y in Keep(xs[..n], all, key)
        ensures !LexLess(key(xs[n]).dist, key(y).dist)
      {
        KeepMembers(xs[..n], all, key, y);
        var k :| 0 <= k < n && xs[..n][k] == y;
      }
      forall y | y in Drop(xs[..n], all, key)
        ensures !LexLess(key(xs[n]).dist, key(y).dist)
      {
        KeepMembers(xs[..n], all, key, y);
        var k :| 0 <= k < n && xs[..n][k] == y;
      }
      SnocSorted(Keep(xs[..n], all, key), xs[n], key);
      SnocSorted(Drop(xs[..n], all, key), xs[n], key);
    }
  }

  lemma SnocSorted<T>(s: seq<T>, x: T, key: T -> Point)
    requires Sorted(s, key)
    requires forall y :: y in s ==> !LexLess(key(x).dist, key(y).dist)
    ensures Sorted(s + [x], key)
  {
    var t := s + [x];
    forall i, j | 0 <= i < j < |t|
      ensures !LexLess(key(t[j]).dist, key(t[i]).dist)
    {
      if j == |s| {
        assert t[i] in s;
      }
    }
  }

  /** Peeling a sorted input leaves every layer sorted. */
  lemma {:induction false} PeelSorted<T>(xs: seq<T>, key: T -> Point)
    requires Sorted(xs, key)
    ensures forall l :: 0 <= l < |Peel(xs, key)| ==> Sorted(Peel(xs, key)[l], key)
    decreases |xs|
  {
    if xs != [] {
      SkylineNonEmpty(xs, key);
      KeepDropSorted(xs, xs, key);
      PeelSorted(Rest(xs, key), key);
    }
  }

  // ---------------------------------------------------------------------------
  // The capacity rule of updateNeighbor

  /** The capped loop runs the same rounds as the full one, only fewer of them. */
  lemma {:induction false} PeelCappedIsPrefix<T>(xs: seq<T>, key: T -> Point, have: nat, cap: nat)
    ensures |PeelCapped(xs, key, have, cap)| <= |Peel(xs, key)|
    ensures PeelCapped(xs, key, have, cap) == Peel(xs, key)[..|PeelCapped(xs, key, have, cap)|]
    decreases |xs|
  {
    if !(have >= cap || xs == []) {
      var f := Front(xs, key);
      SkylineNonEmpty(xs, key);
      PeelCappedIsPrefix(Rest(xs, key), key, have + |f|, cap);
      var m := |PeelCapped(Rest(xs, key), key, have + |f|, cap)|;
      assert ([f] + Peel(Rest(xs, key), key))[..m + 1] == [f] + Peel(Rest(xs, key), key)[..m];
    }
  }

  /** The capped loop only ever takes records of its input. */
  lemma PeelCappedSubMultiset<T>(xs: seq<T>, key: T -> Point, have: nat, cap: nat)
    ensures multiset(Flatten(PeelCapped(xs, key, have, cap))) <= multiset(xs)
  {
    var pc := PeelCapped(xs, key, have, cap);
    var p := Peel(xs, key);
    PeelCappedIsPrefix(xs, key, have, cap);
    assert p == pc + p[|pc|..];
    FlattenConcat(pc, p[|pc|..]);
    PeelPartition(xs, key);
  }

  /** The capacity rule, first half: each layer was started while the pool held fewer than `cap` records. */
  lemma {:induction false} PeelCappedStartsBelow<T>(xs: seq<T>, key: T -> Point, have: nat, cap: nat)
    ensures forall i :: 0 <= i < |PeelCapped(xs, key, have, cap)| ==>
              have + |Flatten(PeelCapped(xs, key, have, cap)[..i])| < cap
    decreases |xs|
  {
    if !(have >= cap || xs == []) {
      var ls := PeelCapped(xs, key, have, cap);
      var f := Front(xs, key);
      var r := Rest(xs, key);
      SkylineNonEmpty(xs, key);
      var ls' := PeelCapped(r, key, have + |f|, cap);
      assert ls == [f] + ls';
      PeelCappedStartsBelow(r, key, have + |f|, cap);
      forall i | 0 <= i < |ls|
        ensures have + |Flatten(ls[..i])| < cap
      {
        if i > 0 {
          assert ls[..i] == [f] + ls'[..i - 1];
          FlattenCons(f, ls'[..i - 1]);
        } else {
          assert ls[..i] == [];
        }
      }
    }
  }

  /** The capacity rule, second half: if any record was left out, the pool reached `cap`. */
  lemma {:induction false} PeelCappedFull<T>(xs: seq<T>, key: T -> Point, have: nat, cap: nat)
    ensures |Flatten(PeelCapped(xs, key, have, cap))| < |xs| ==>
              have + |Flatten(PeelCapped(xs, key, have, cap))| >= cap
    decreases |xs|
  {
    if !(have >= cap || xs == []) {
      var f := Front(xs, key);
      var r := Rest(xs, key);
      SkylinePartition(xs, key);
      SkylineNonEmpty(xs, key);
      PeelCappedFull(r, key, have + |f|, cap);
      FlattenCons(f, PeelCapped(r, key, have + |f|, cap));
    }
  }

  /** With room for every record, the capped loop peels everything. */
  lemma {:induction false} PeelCappedAll<T>(xs: seq<T>, key: T -> Point, have: nat, cap: nat)
    requires have + |xs| <= cap
    ensures PeelCapped(xs, key, have, cap) == Peel(xs, key)
    decreases |xs|
  {
    if xs != [] {
      FrontRestCount(xs, key);
      SkylineNonEmpty(xs, key);
      PeelCappedAll(Rest(xs, key), key, have + |Front(xs, key)|, cap);
    }
  }

  /** Peeling a sorted input under a cap leaves every layer sorted. */
  lemma PeelCappedSorted<T>(xs: seq<T>, key: T -> Point, have: nat, cap: nat)
    requires Sorted(xs, key)
    ensures forall l :: 0 <= l < |PeelCapped(xs, key, have, cap)| ==> Sorted(PeelCapped(xs, key, have, cap)[l], key)
  {
    PeelSorted(xs, key);
    PeelCappedIsPrefix(xs, key, have, cap);
  }

  // ---------------------------------------------------------------------------
  // Relayer

  /** Whatever the tag keeps of a record is kept, in order, for every record of every layer. */
  lemma {:induction false} RelayerViews<T, U, V>(ls: seq<seq<T>>, tag: (T, nat) -> U, g: U -> V, h: T -> V)
    requires forall x, l :: g(tag(x, l)) == h(x)
    ensures Map(g, Relayer(ls, tag)) == Map(h, Flatten(ls))
  {
    if ls != [] {
      var n := |ls| - 1;
      RelayerViews(ls[..n], tag, g, h);
      MapConcat(g, Relayer(ls[..n], tag), TagAll(ls[n], n, tag));
      MapConcat(h, Flatten(ls[..n]), ls[n]);
    }
  }

  lemma {:induction false} RelayerLength<T, U>(ls: seq<seq<T>>, tag: (T, nat) -> U)
    ensures |Relayer(ls, tag)| == |Flatten(ls)|
  {
    if ls != [] {
      RelayerLength(ls[..|ls| - 1], tag);
    }
  }

  /**
   * The layer numbers the loops write: when `lay` reads back the layer a tag
   * stamps, they never decrease along the appended records and stay below the
   * number of rounds.
   */
  lemma {:induction false} RelayerLayers<T, U>(ls: seq<seq<T>>, tag: (T, nat) -> U, lay: U -> int)
    requires forall x, l :: lay(tag(x, l)) == l
    ensures forall i, j :: 0 <= i <= j < |Relayer(ls, tag)| ==> lay(Relayer(ls, tag)[i]) <= lay(Relayer(ls, tag)[j])
    ensures forall i :: 0 <= i < |Relayer(ls, tag)| ==> 0 <= lay(Relayer(ls, tag)[i]) < |ls|
  {
    if ls != [] {
      var n := |ls| - 1;
      RelayerLayers(ls[..n], tag, lay);
      var r := Relayer(ls, tag);
      var p := Relayer(ls[..n], tag);
      assert r == p + TagAll(ls[n], n, tag);
      assert forall i :: |p| <= i < |r| ==> lay(r[i]) == n;
    }
  }

  /** Within one layer, the appended records keep the order of the (sorted) layer. */
  lemma {:induction false} RelayerSortedWithinLayers<T, U>(ls: seq<seq<T>>, tag: (T, nat) -> U, lay: U -> int,
                                                            ukey: U -> Point, key: T -> Point)
    requires forall x, l :: lay(tag(x, l)) == l && ukey(tag(x, l)).dist == key(x).dist
    requires forall l :: 0 <= l < |ls| ==> Sorted(ls[l], key)
    ensures forall i, j :: 0 <= i < j < |Relayer(ls, tag)| && lay(Relayer(ls, tag)[i]) == lay(Relayer(ls, tag)[j])
              ==> !LexLess(ukey(Relayer(ls, tag)[j]).dist, ukey(Relayer(ls, tag)[i]).dist)
  {
    if ls != [] {
      var n := |ls| - 1;
      var r := Relayer(ls, tag);
      var p := Relayer(ls[..n], tag);
      var t := TagAll(ls[n], n, tag);
      assert r == p + t;
      RelayerSortedWithinLayers(ls[..n], tag, lay, ukey, key);
      RelayerLayers(ls[..n], tag, lay);
      forall i, j | 0 <= i < j < |r| && lay(r[i]) == lay(r[j])
        ensures !LexLess(ukey(r[j]).dist, ukey(r[i]).dist)
      {
        if j >= |p| && i >= |p| {
          assert ukey(r[j]).dist == key(ls[n][j - |p|]).dist;
          assert ukey(r[i]).dist == key(ls[n][i - |p|]).dist;
        }
      }
    }
  }

  // ---------------------------------------------------------------------------
  // The peeling loops

  lemma PeelCappedStep<T>(cur: seq<T>, key: T -> Point, have: nat, cap: nat)
    requires have < cap && cur != []
    ensures PeelCapped(cur, key, have, cap) == [Front(cur, key)] + PeelCapped(Rest(cur, key), key, have + |Front(cur, key)|, cap)
  {
  }

  lemma PeelCappedStop<T>(cur: seq<T>, key: T -> Point, have: nat, cap: nat)
    requires have >= cap || cur == []
    ensures PeelCapped(cur, key, have, cap) == []
  {
  }

  lemma CappedRound<T>(done: seq<seq<T>>, cur: seq<T>, key: T -> Point, have: nat, cap: nat, all: seq<seq<T>>)
    requires have < cap && cur != [] && done + PeelCapped(cur, key, have, cap) == all
    ensures (done + [Front(cur, key)]) + PeelCapped(Rest(cur, key), key, have + |Front(cur, key)|, cap) == all
  {
    PeelCappedStep(cur, key, have, cap);
  }

  /** A round of the full peel moves its first layer from what is left to what is done. */
  lemma PeelAdvance<T>(done: seq<seq<T>>, cur: seq<T>, key: T -> Point, all: seq<seq<T>>)
    requires cur != [] && done + Peel(cur, key) == all
    ensures (done + [Front(cur, key)]) + Peel(Rest(cur, key), key) == all
  {
    assert Peel(cur, key) == [Front(cur, key)] + Peel(Rest(cur, key), key);
  }

  lemma RelayerSnoc<T, U>(done: seq<seq<T>>, s: seq<T>, tag: (T, nat) -> U)
    ensures Relayer(done + [s], tag) == Relayer(done, tag) + TagAll(s, |done|, tag)
  {
    assert (done + [s])[..|done|] == done;
  }

  lemma RelayerSnocAfter<T, U>(pool: seq<U>, done: seq<seq<T>>, s: seq<T>, tag: (T, nat) -> U)
    ensures pool + Relayer(done + [s], tag) == (pool + Relayer(done, tag)) + TagAll(s, |done|, tag)
  {
    RelayerSnoc(done, s, tag);
  }

  /**
   * One round of the peeling loops: `findSkyline` on what is left, then the
   * skyline records appended to the pool with layer `l`.
   */
  method PeelRound<T, U>(cur: seq<T>, key: T -> Point, d: nat, tag: (T, nat) -> U, l: nat, pool: seq<U>)
    returns (poolOut: seq<U>, skyline: seq<T>, remain: seq<T>)
    requires cur != [] && HasDim(cur, key, d)
    ensures skyline == Front(cur, key) && remain == Rest(cur, key)
    ensures HasDim(remain, key, d) && |remain| < |cur|
    ensures poolOut == pool + TagAll(skyline, l, tag)
    ensures |poolOut| == |pool| + |skyline|
  {
    var status;
    status, skyline, remain := FindSkyline(cur, key, d, [], []);
    assert [] + Front(cur, key) == Front(cur, key) && [] + Rest(cur, key) == Rest(cur, key);
    SkylineNonEmpty(cur, key);
    RestHasDim(cur, key, d);
    poolOut := pool;
    for k := 0 to |skyline|
      invariant poolOut == pool + TagAll(skyline[..k], l, tag)
    {
      assert TagAll(skyline[..k + 1], l, tag) == TagAll(skyline[..k], l, tag) + [tag(skyline[k], l)];
      poolOut := poolOut + [tag(skyline[k], l)];
    }
    assert skyline[..|skyline|] == skyline;
  }

  /**
   * What holds between rounds of the `initNeighbor`/`initQueue` loop: `done`
   * are the rounds so far, `cur` what is left to peel, `poolOut` the pool
   * with `done` appended, `lastOut` the last round (`last` before any).
   */
  ghost predicate RoundsInv<T, U>(input: seq<T>, key: T -> Point, d: nat, tag: (T, nat) -> U, pool: seq<U>, last: seq<T>,
                                  cur: seq<T>, poolOut: seq<U>, rounds: nat, lastOut: seq<T>, done: seq<seq<T>>)
  {
    && HasDim(cur, key, d)
    && done + Peel(cur, key) == Peel(input, key)
    && rounds == |done|
    && poolOut == pool + Relayer(done, tag)
    && lastOut == if done == [] then last else done[|done| - 1]
  }

  /** One round of the `initNeighbor`/`initQueue` loop. */
  method RoundsStep<T, U>(input: seq<T>, key: T -> Point, d: nat, tag: (T, nat) -> U, pool: seq<U>, last: seq<T>,
                          cur: seq<T>, poolOut: seq<U>, rounds: nat, lastOut: seq<T>, ghost done: seq<seq<T>>)
    returns (cur': seq<T>, poolOut': seq<U>, rounds': nat, lastOut': seq<T>, ghost done': seq<seq<T>>)
    requires cur != [] && RoundsInv(input, key, d, tag, pool, last, cur, poolOut, rounds, lastOut, done)
    ensures RoundsInv(input, key, d, tag, pool, last, cur', poolOut', rounds', lastOut', done') && |cur'| < |cur|
  {
    var skyline;
    PeelAdvance(done, cur, key, Peel(input, key));
    poolOut', skyline, cur' := PeelRound(cur, key, d, tag, rounds, poolOut);
    RelayerSnocAfter(pool, done, skyline, tag);
    rounds', lastOut', done' := rounds + 1, skyline, done + [skyline];
  }

  /**
   * The loop of `initNeighbor`/`initQueue`: run `findSkyline` on what is left
   * until nothing is, appending `tag(x, l)` for every skyline record `x` of
   * round `l`. `lastOut` is the last round's skyline, which the pool classes
   * swap into `outlier_`; it is `last` when there is no round.
   */
  method PeelRounds<T, U>(input: seq<T>, key: T -> Point, d: nat, tag: (T, nat) -> U, pool: seq<U>, last: seq<T>)
    returns (poolOut: seq<U>, rounds: nat, lastOut: seq<T>)
    requires HasDim(input, key, d)
    ensures poolOut == pool + Relayer(Peel(input, key), tag)
    ensures rounds == |Peel(input, key)|
    ensures lastOut == if input == [] then last else Peel(input, key)[|Peel(input, key)| - 1]
  {
    var cur := input;
    poolOut, rounds, lastOut := pool, 0, last;
    ghost var done: seq<seq<T>> := [];
    while cur != []
      invariant RoundsInv(input, key, d, tag, pool, last, cur, poolOut, rounds, lastOut, done)
      decreases |cur|
    {
      cur, poolOut, rounds, lastOut, done := RoundsStep(input, key, d, tag, pool, last, cur, poolOut, rounds, lastOut, done);
    }
    assert done == Peel(input, key);
  }

  /** What holds between rounds of the `updateNeighbor` loop, as `RoundsInv` for the capped peel. */
  ghost predicate CappedRoundsInv<T, U>(candidate: seq<T>, key: T -> Point, d: nat, tag: (T, nat) -> U, cap: nat, last: seq<T>,
                                        cur: seq<T>, poolOut: seq<U>, rounds: nat, lastOut: seq<T>, done: seq<seq<T>>)
  {
    && (cap > 0 && cur != [] ==> HasDim(cur, key, d))
    && done + PeelCapped(cur, key, |poolOut|, cap) == PeelCapped(candidate, key, 0, cap)
    && rounds == |done|
    && poolOut == Relayer(done, tag)
    && lastOut == if done == [] then last else done[|done| - 1]
  }

  /** One round of the `updateNeighbor` loop. */
  method CappedRoundsStep<T, U>(candidate: seq<T>, key: T -> Point, d: nat, tag: (T, nat) -> U, cap: nat, last: seq<T>,
                                cur: seq<T>, poolOut: seq<U>, rounds: nat, lastOut: seq<T>, ghost done: seq<seq<T>>)
    returns (cur': seq<T>, poolOut': seq<U>, rounds': nat, lastOut': seq<T>, ghost done': seq<seq<T>>)
    requires |poolOut| < cap && cur != [] && CappedRoundsInv(candidate, key, d, tag, cap, last, cur, poolOut, rounds, lastOut, done)
    ensures CappedRoundsInv(candidate, key, d, tag, cap, last, cur', poolOut', rounds', lastOut', done') && |cur'| < |cur|
  {
    var skyline;
    CappedRound(done, cur, key, |poolOut|, cap, PeelCapped(candidate, key, 0, cap));
    poolOut', skyline, cur' := PeelRound(cur, key, d, tag, rounds, poolOut);
    RelayerSnoc(done, skyline, tag);
    rounds', lastOut', done' := rounds + 1, skyline, done + [skyline];
  }

  /**
   * The loop of `updateNeighbor`: the same rounds over `candidate`, starting
   * from an empty pool, while the pool holds fewer than `cap` records.
   */
  method PeelRoundsCapped<T, U>(candidate: seq<T>, key: T -> Point, d: nat, tag: (T, nat) -> U, cap: nat, last: seq<T>)
    returns (poolOut: seq<U>, rounds: nat, lastOut: seq<T>)
    requires cap > 0 && candidate != [] ==> HasDim(candidate, key, d)
    ensures poolOut == Relayer(PeelCapped(candidate, key, 0, cap), tag)
    ensures rounds == |PeelCapped(candidate, key, 0, cap)|
    ensures lastOut == if rounds == 0 then last else PeelCapped(candidate, key, 0, cap)[rounds - 1]
  {
    var cur := candidate;
    poolOut, rounds, lastOut := [], 0, last;
    ghost var done: seq<seq<T>> := [];
    while |poolOut| < cap && cur != []
      invariant CappedRoundsInv(candidate, key, d, tag, cap, last, cur, poolOut, rounds, lastOut, done)
      decreases |cur|
    {
      cur, poolOut, rounds, lastOut, done := CappedRoundsStep(candidate, key, d, tag, cap, last, cur, poolOut, rounds, lastOut, done);
    }
    PeelCappedStop(cur, key, |poolOut|, cap);
    assert done == PeelCapped(candidate, key, 0, cap);
  }
}
