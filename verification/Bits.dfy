/** Bit-level arithmetic of `clz.h` on non-negative words, written out on naturals.
    A word is a natural number below 2^32; bit k is its k-th binary digit. */
module Bits {

  function Pow2(k: nat): (r: nat)
    ensures r >= 1
  {
    if k == 0 then 1 else 2 * Pow2(k - 1)
  }

  /** The value of bit k of w. */
  predicate Bit(w: nat, k: nat) {
    if k == 0 then w % 2 == 1 else Bit(w / 2, k - 1)
  }

  /** w | (1 << k) */
  function OrBit(w: nat, k: nat): nat {
    if k == 0 then w / 2 * 2 + 1 else OrBit(w / 2, k - 1) * 2 + w % 2
  }

  /** w & ~(1 << k) */
  function AndNotBit(w: nat, k: nat): nat {
    if k == 0 then w / 2 * 2 else AndNotBit(w / 2, k - 1) * 2 + w % 2
  }

  /** ~((1 << k) - 1) & w */
  function KeepFrom(w: nat, k: nat): nat {
    if k == 0 then w else KeepFrom(w / 2, k - 1) * 2
  }

  /** Number of binary digits of w: `NUMBITS`. */
  function BitLength(w: nat): nat {
    if w == 0 then 0 else 1 + BitLength(w / 2)
  }

  /** Leading zeroes of a 32-bit word. */
  function CLZ(w: nat): int {
    32 - BitLength(w)
  }

  /** ~w & (w - 1) on 32 bits, for a non-zero w: the ones below its lowest set bit. */
  function LowMask(w: nat): nat
    requires w > 0
  {
    if w % 2 == 1 then 0 else LowMask(w / 2) * 2 + 1
  }

  /** Trailing zeroes, by the formula of `clz.h`. */
  function CTZ(w: nat): int
    requires w > 0
  {
    32 - CLZ(LowMask(w))
  }

  lemma {:induction false} BitOfOr(w: nat, k: nat, j: nat)
    ensures Bit(OrBit(w, k), j) <==> j == k || Bit(w, j)
  {
    if k == 0 {
      if j > 0 { assert (w / 2 * 2 + 1) / 2 == w / 2; }
    } else {
      var x := OrBit(w / 2, k - 1);
      assert (x * 2 + w % 2) / 2 == x;
      if j > 0 { BitOfOr(w / 2, k - 1, j - 1); }
    }
  }

  lemma {:induction false} BitOfAndNot(w: nat, k: nat, j: nat)
    ensures Bit(AndNotBit(w, k), j) <==> j != k && Bit(w, j)
  {
    if k == 0 {
      if j > 0 { assert (w / 2 * 2) / 2 == w / 2; }
    } else {
      var x := AndNotBit(w / 2, k - 1);
      assert (x * 2 + w % 2) / 2 == x;
      if j > 0 { BitOfAndNot(w / 2, k - 1, j - 1); }
    }
  }

  lemma {:induction false} BitOfKeep(w: nat, k: nat, j: nat)
    ensures Bit(KeepFrom(w, k), j) <==> j >= k && Bit(w, j)
  {
    if k > 0 {
      assert KeepFrom(w / 2, k - 1) * 2 / 2 == KeepFrom(w / 2, k - 1);
      if j > 0 { BitOfKeep(w / 2, k - 1, j - 1); }
    }
  }

  /** Or-ing and masking a bit below n keeps the word below 2^n. */
  lemma {:induction false} WordBounds(w: nat, k: nat, n: nat)
    requires w < Pow2(n) && k < n
    ensures OrBit(w, k) < Pow2(n) && AndNotBit(w, k) < Pow2(n) && KeepFrom(w, k) < Pow2(n)
  {
    var half := Pow2(n - 1);
    assert w / 2 < half;
    if k > 0 {
      WordBounds(w / 2, k - 1, n - 1);
      DoubleBelow(OrBit(w / 2, k - 1), w % 2, half);
      DoubleBelow(AndNotBit(w / 2, k - 1), w % 2, half);
      DoubleBelow(KeepFrom(w / 2, k - 1), 0, half);
    } else {
      DoubleBelow(w / 2, 1, half);
    }
  }

  lemma DoubleBelow(x: nat, b: nat, half: nat)
    requires x < half && b <= 1
    ensures x * 2 + b < 2 * half
  {
  }

  /** A word is at least 1 << k exactly when one of its bits at or above k is set. */
  lemma {:induction false} HighBit(w: nat, k: nat) returns (j: nat)
    requires w >= Pow2(k)
    ensures j >= k && Bit(w, j)
  {
    if k > 0 {
      j := HighBit(w / 2, k - 1);
      j := j + 1;
    } else if w % 2 == 1 {
      j := 0;
    } else {
      j := HighBit(w / 2, 0);
      j := j + 1;
    }
  }

  lemma {:induction false} NoHighBit(w: nat, k: nat, j: nat)
    requires w < Pow2(k) && j >= k
    ensures !Bit(w, j)
  {
    if k > 0 {
      NoHighBit(w / 2, k - 1, j - 1);
    } else if j > 0 {
      NoHighBit(w / 2, 0, j - 1);
    }
  }

  /** CTZ finds the lowest set bit. */
  lemma {:induction false} LowestBit(w: nat)
    requires w > 0
    ensures 0 <= CTZ(w) && Bit(w, CTZ(w))
    ensures forall j: nat :: j < CTZ(w) ==> !Bit(w, j)
  {
    if w % 2 == 0 {
      LowestBit(w / 2);
      assert (LowMask(w / 2) * 2 + 1) / 2 == LowMask(w / 2);
      assert CTZ(w) == CTZ(w / 2) + 1;
    }
  }

  lemma {:induction false} BitLengthIs(w: nat, k: nat)
    requires Pow2(k) <= w < Pow2(k + 1)
    ensures BitLength(w) == k + 1
  {
    if k > 0 { BitLengthIs(w / 2, k - 1); }
  }

  /** The highest set bit of a non-zero word is NUMBITS(w) - 1. */
  lemma {:induction false} HighestBit(w: nat)
    requires w > 0
    ensures Bit(w, BitLength(w) - 1)
    ensures forall j: nat :: j >= BitLength(w) ==> !Bit(w, j)
  {
    if w > 1 { HighestBit(w / 2); }
    forall j: nat | j >= BitLength(w)
      ensures !Bit(w, j)
    {
      if w > 1 { assert !Bit(w / 2, j - 1); } else { NoHighBit(w, 1, j); }
    }
  }
}
