/**
 * The bit arithmetic of the DEG pruning bitmap: weight combination `i` lives
 * in bit `i % 64` of 64-bit word `i / 64`.
 */
module Bitmap {
  /** `1ULL << b`. */
  function Mask(b: bv7): bv64
    requires b < 64
  {
    (1 as bv64) << b
  }

  /** The bit of word `i / 64` that holds the pruning state of weight combination `i`. */
  function Bit(i: nat): (b: bv7)
    ensures b < 64
  {
    SmallBit(i % 64);
    (i % 64) as bv7
  }

  /** The word after `|= (1ULL << b)` (pruned) or `&= ~(1ULL << b)` (not pruned). */
  function Written(w: bv64, b: bv7, pruned: bool): bv64
    requires b < 64
  {
    if pruned then w | Mask(b) else w & !Mask(b)
  }

  lemma SameBit(w: bv64, b: bv7, pruned: bool)
    requires b < 64
    ensures (Written(w, b, pruned) & Mask(b) != 0) == pruned
  {
  }

  lemma ZeroWord(b: bv7)
    requires b < 64
    ensures 0 & Mask(b) == 0
  {
  }

  lemma OtherBitOr(w: bv64, b: bv7, c: bv7)
    requires b < 64 && c < 64 && b != c
    ensures ((w | Mask(b)) & Mask(c) != 0) == (w & Mask(c) != 0)
  {
  }

  lemma OtherBitAndNot(w: bv64, b: bv7, c: bv7)
    requires b < 64 && c < 64 && b != c
    ensures ((w & !Mask(b)) & Mask(c) != 0) == (w & Mask(c) != 0)
  {
  }

  /** Writing bit `b` leaves every other bit `c` of the word as it was. */
  lemma OtherBitKept(w: bv64, b: bv7, c: bv7, pruned: bool)
    requires b < 64 && c < 64 && b != c
    ensures (Written(w, b, pruned) & Mask(c) != 0) == (w & Mask(c) != 0)
  {
    if pruned {
      OtherBitOr(w, b, c);
    } else {
      OtherBitAndNot(w, b, c);
    }
  }

  /** Bit `i % 64` of word `w` is set: the state of weight combination `i` when `w` is its word. */
  predicate On(w: bv64, i: nat)
  {
    w & Mask(Bit(i)) != 0
  }

  /** A zero word has no bit set. */
  lemma OnZero(i: nat)
    ensures !On(0, i)
  {
    ZeroWord(Bit(i));
  }

  /** After writing bit `i`, bit `i` reads as written. */
  lemma OnWritten(before: bv64, i: nat, pruned: bool)
    ensures On(Written(before, Bit(i), pruned), i) == pruned
  {
    SameBit(before, Bit(i), pruned);
  }

  /** After writing bit `i`, every other bit `j` of the same word reads as before. */
  lemma OnKept(before: bv64, i: nat, j: nat, pruned: bool)
    requires j != i && j / 64 == i / 64
    ensures On(Written(before, Bit(i), pruned), j) == On(before, j)
  {
    DistinctBits(i, j);
    OtherBitKept(before, Bit(i), Bit(j), pruned);
  }

  /**
   * Writing bit `i` into a bitmap (a sequence of words): bit `i` reads as
   * written and every other bit as before.
   */
  lemma WriteFrame(ws: seq<bv64>, i: nat, pruned: bool)
    requires i / 64 < |ws|
    ensures var after := ws[i / 64 := Written(ws[i / 64], Bit(i), pruned)];
            && On(after[i / 64], i) == pruned
            && forall j: nat :: j != i && j / 64 < |ws| ==> On(after[j / 64], j) == On(ws[j / 64], j)
  {
    var after := ws[i / 64 := Written(ws[i / 64], Bit(i), pruned)];
    OnWritten(ws[i / 64], i, pruned);
    forall j: nat | j != i && j / 64 < |ws|
      ensures On(after[j / 64], j) == On(ws[j / 64], j)
    {
      if j / 64 == i / 64 {
        OnKept(ws[i / 64], i, j, pruned);
      }
    }
  }

  lemma DistinctBits(i: nat, j: nat)
    requires i != j && i / 64 == j / 64
    ensures Bit(i) != Bit(j)
  {
    DistinctRemainders(i, j);
    DistinctSmall(i % 64, j % 64);
  }

  lemma DistinctRemainders(i: nat, j: nat)
    requires i != j && i / 64 == j / 64
    ensures i % 64 != j % 64
  {
    assert i == 64 * (i / 64) + i % 64;
    assert j == 64 * (j / 64) + j % 64;
  }

  lemma DistinctSmall(b: nat, c: nat)
    requires b < 64 && c < 64 && b != c
    ensures (b as bv7) != (c as bv7)
  {
    SmallRoundTrip(b);
    SmallRoundTrip(c);
  }

  lemma SmallRoundTrip(b: nat)
    requires b < 64
    ensures (b as bv7) as int == b
  {
  }

  lemma SmallBit(b: nat)
    requires b < 64
    ensures (b as bv7) < 64
  {
  }

  lemma WordInRange(i: nat, n: nat)
    requires i < n
    ensures i / 64 < (n + 63) / 64
  {
  }

}
