/** Powers of two, the C bit operators `^` and `&` on unsigned numbers, and the
    alignment facts the allocators need. */
module Bits {

  function Pow2(n: nat): (r: nat)
    ensures r >= 1
  {
    if n == 0 then 1 else 2 * Pow2(n - 1)
  }

  /** Bitwise exclusive or. */
  function Xor(a: nat, b: nat): nat {
    if a == 0 && b == 0 then 0 else (a + b) % 2 + 2 * Xor(a / 2, b / 2)
  }

  /** Bitwise and. */
  function And(a: nat, b: nat): nat {
    if a == 0 || b == 0 then 0 else (a % 2) * (b % 2) + 2 * And(a / 2, b / 2)
  }

  lemma {:induction false} XorZero(a: nat)
    ensures Xor(a, 0) == a
  {
    if a != 0 { XorZero(a / 2); }
  }

  lemma {:induction false} Pow2Monotone(j: nat, k: nat)
    requires j <= k
    ensures Pow2(j) <= Pow2(k)
  {
    if j < k { Pow2Monotone(j, k - 1); }
  }

  lemma {:induction false} Pow2Strict(j: nat, k: nat)
    requires j < k
    ensures 2 * Pow2(j) <= Pow2(k)
  {
    if j + 1 < k { Pow2Strict(j, k - 1); }
  }

  lemma Pow2Injective(j: nat, k: nat)
    requires Pow2(j) == Pow2(k)
    ensures j == k
  {
    if j < k { Pow2Strict(j, k); }
    if k < j { Pow2Strict(k, j); }
  }

  /** Halving the number and the block size leaves the block number unchanged. */
  lemma HalfQuotient(i: nat, p: nat)
    requires p >= 1
    ensures i / (2 * p) == (i / 2) / p
    ensures i % (2 * p) == i % 2 + 2 * ((i / 2) % p)
  {
    var h := i / 2;
    var q, r := h / p, h % p;
    assert h == q * p + r;
    assert i == q * (2 * p) + (i % 2 + 2 * r) by {
      assert q * (2 * p) == 2 * (q * p);
    }
    DivModUnique(i, 2 * p, q, i % 2 + 2 * r);
  }

  lemma DivModUnique(i: int, d: int, q: int, r: int)
    requires d >= 1 && 0 <= r < d && i == q * d + r
    ensures i / d == q && i % d == r
  {
    var q', r' := i / d, i % d;
    assert i == q' * d + r';
    if q' < q { MulLe(q' + 1, q, d); }
    if q < q' { MulLe(q + 1, q', d); }
  }

  lemma MulLe(a: int, b: int, d: int)
    requires a <= b && d >= 0
    ensures a * d <= b * d
  {
    assert (b - a) * d >= 0;
  }

  /** `i ^ (1 << k)` flips bit k: it moves by 2^k, up when the bit is clear, down when it is set. */
  lemma {:induction false} XorFlipsBit(i: nat, k: nat)
    ensures Xor(i, Pow2(k)) == if (i / Pow2(k)) % 2 == 0 then i + Pow2(k) else i - Pow2(k)
  {
    hide Xor;
    if k == 0 {
      XorOne(i);
    } else {
      XorFlipsBit(i / 2, k - 1);
      FlipsBitAbove(i, Pow2(k - 1));
    }
  }

  lemma XorOne(i: nat)
    ensures Xor(i, 1) == (if i % 2 == 0 then i + 1 else i - 1) && i / 1 == i
  {
    hide Xor;
    XorStep(i, 1);
    XorZero(i / 2);
  }

  /** What flipping bit p does to i / 2, flipping bit 2 p does to i. */
  lemma FlipsBitAbove(i: nat, p: nat)
    requires p >= 1 && Xor(i / 2, p) == if (i / 2 / p) % 2 == 0 then i / 2 + p else i / 2 - p
    ensures Xor(i, 2 * p) == if (i / (2 * p)) % 2 == 0 then i + 2 * p else i - 2 * p
  {
    hide Xor;
    HalfQuotient(i, p);
    XorStep(i, 2 * p);
    EvenShift(i, p);
    var h, q := i / 2, i / 2 / p;
    assert i / (2 * p) == q;
    assert Xor(i, 2 * p) == i % 2 + 2 * Xor(h, p);
  }

  lemma EvenShift(i: nat, p: nat)
    ensures (i + 2 * p) % 2 == i % 2 && (2 * p) / 2 == p && i == i % 2 + 2 * (i / 2)
  {
  }

  /** `i & ((1 << k) - 1)` is the remainder modulo 2^k. */
  lemma {:induction false} AndMaskIsMod(i: nat, k: nat)
    ensures And(i, Pow2(k) - 1) == i % Pow2(k)
  {
    if k > 0 {
      var p := Pow2(k - 1);
      HalfQuotient(i, p);
      AndMaskIsMod(i / 2, k - 1);
      assert (2 * p - 1) % 2 == 1 && (2 * p - 1) / 2 == p - 1;
      assert i == 0 ==> i % Pow2(k) == 0;
    }
  }

  // ----- alignment -----

  /** i is a multiple of 2^k. */
  predicate Aligned(i: nat, k: nat) {
    k == 0 || (i % 2 == 0 && Aligned(i / 2, k - 1))
  }

  lemma {:induction false} AlignedIsMod(i: nat, k: nat)
    ensures Aligned(i, k) <==> i % Pow2(k) == 0
  {
    if k > 0 {
      AlignedIsMod(i / 2, k - 1);
      HalfQuotient(i, Pow2(k - 1));
    }
  }

  /** A number aligned to 2^k is aligned to every smaller power. */
  lemma {:induction false} AlignedDown(i: nat, j: nat, k: nat)
    requires j <= k && Aligned(i, k)
    ensures Aligned(i, j)
  {
    if j > 0 { AlignedDown(i / 2, j - 1, k - 1); }
  }

  /** Two different multiples of 2^k are at least 2^k apart. */
  lemma {:induction false} AlignedGap(a: nat, b: nat, k: nat)
    requires Aligned(a, k) && Aligned(b, k) && a < b
    ensures a + Pow2(k) <= b
  {
    if k > 0 { AlignedGap(a / 2, b / 2, k - 1); }
  }

  /** The end of an aligned block is aligned. */
  lemma {:induction false} AlignedEnd(a: nat, k: nat)
    requires Aligned(a, k)
    ensures Aligned(a + Pow2(k), k)
  {
    if k > 0 {
      AlignedEnd(a / 2, k - 1);
      assert (a + Pow2(k)) / 2 == a / 2 + Pow2(k - 1);
    }
  }

  /** Of two aligned blocks that share a page, the one of smaller order lies inside the other. */
  lemma AlignedNested(a: nat, j: nat, h: nat, k: nat, i: nat)
    requires j <= k && Aligned(a, j) && Aligned(h, k)
    requires a <= i < a + Pow2(j) && h <= i < h + Pow2(k)
    ensures h <= a && a + Pow2(j) <= h + Pow2(k)
    ensures j == k ==> a == h
  {
    AlignedEnd(h, k);
    AlignedDown(h, j, k);
    AlignedDown(h + Pow2(k), j, k);
    if a < h { AlignedGap(a, h, j); }
    AlignedGap(a, h + Pow2(k), j);
    if j == k && h < a { AlignedGap(h, a, j); }
  }

  /** The two halves of an aligned block are aligned. */
  lemma HalvesAligned(h: nat, k: nat)
    requires Aligned(h, k + 1)
    ensures Aligned(h, k) && Aligned(h + Pow2(k), k)
  {
    AlignedDown(h, k, k + 1);
    AlignedEnd(h, k);
  }

  // ----- the position of a buddy -----

  /** Xor undoes itself. */
  lemma XorParts(a: nat, b: nat)
    ensures Xor(a, b) % 2 == (a + b) % 2 && Xor(a, b) / 2 == Xor(a / 2, b / 2)
    ensures Xor(a, b) == (a + b) % 2 + 2 * Xor(a / 2, b / 2)
  {
    hide Xor;
    XorStep(a, b);
    DoubledPlus((a + b) % 2, Xor(a / 2, b / 2));
  }

  lemma XorStep(a: nat, b: nat)
    ensures Xor(a, b) == (a + b) % 2 + 2 * Xor(a / 2, b / 2)
  {
  }

  lemma DoubledPlus(e: nat, y: nat)
    requires e < 2
    ensures (e + 2 * y) % 2 == e && (e + 2 * y) / 2 == y
  {
  }

  lemma SumParity(a: nat, b: nat, x: nat)
    requires x % 2 == (a + b) % 2
    ensures (a + x) % 2 == b % 2 && b == b % 2 + 2 * (b / 2)
  {
  }

  lemma {:induction false} XorTwice(a: nat, b: nat)
    ensures Xor(a, Xor(a, b)) == b
  {
    if a != 0 || b != 0 {
      var x := Xor(a, b);
      XorParts(a, b);
      XorParts(a, x);
      XorTwice(a / 2, b / 2);
      SumParity(a, b, x);
    }
  }

  function Min(a: nat, b: nat): nat { if a < b then a else b }
  function Max(a: nat, b: nat): nat { if a < b then b else a }

  /** The two are the halves of one aligned block of order k + 1. */
  predicate AreBuddies(a: nat, b: nat, k: nat) {
    Max(a, b) == Min(a, b) + Pow2(k) && Aligned(Min(a, b), k + 1)
  }

  /** `a ^ (1 << k)` lies 2^k away, and the mask test on the lower of the two decides whether
      they are halves of one aligned block. */
  lemma BuddyPosition(a: nat, k: nat)
    ensures var b := Xor(a, Pow2(k));
            && Xor(a, b) == Pow2(k)
            && Max(a, b) == Min(a, b) + Pow2(k)
            && (And(Min(a, b), Pow2(k + 1) - 1) == 0 <==> AreBuddies(a, b, k))
  {
    XorFlipsBit(a, k);
    XorTwice(a, Pow2(k));
    var b := Xor(a, Pow2(k));
    AndMaskIsMod(Min(a, b), k + 1);
    AlignedIsMod(Min(a, b), k + 1);
    if a < Pow2(k) { DivModUnique(a, Pow2(k), 0, a); }
  }

  /** The other half of an aligned block is where `^` points. */
  lemma BuddyOf(a: nat, b: nat, k: nat)
    requires AreBuddies(a, b, k)
    ensures Xor(a, Pow2(k)) == b
  {
    var lo := Min(a, b);
    var p := Pow2(k);
    AlignedIsMod(lo, k + 1);
    HalfQuotientOdd(lo, p);
    XorFlipsBit(a, k);
  }

  lemma HalfQuotientOdd(lo: nat, p: nat)
    requires p >= 1 && lo % (2 * p) == 0
    ensures (lo / p) % 2 == 0 && ((lo + p) / p) % 2 == 1
  {
    var q := lo / (2 * p);
    assert lo == (2 * q) * p by { assert q * (2 * p) == (2 * q) * p; }
    assert lo + p == (2 * q + 1) * p;
    DivModUnique(lo, p, 2 * q, 0);
    DivModUnique(lo + p, p, 2 * q + 1, 0);
  }

  /** Below an aligned bound, flipping a lower bit stays below it. */
  lemma {:induction false} XorBelow(i: nat, k: nat, bound: nat)
    requires Aligned(bound, k + 1) && i < bound
    ensures Xor(i, Pow2(k)) < bound
  {
    if k == 0 {
      XorZero(i / 2);
    } else {
      XorBelow(i / 2, k - 1, bound / 2);
    }
  }

  /** Reduction to an unsigned 32-bit value. */
  function U32(x: int): (r: nat)
    ensures r < 0x1_0000_0000
  {
    x % 0x1_0000_0000
  }

  lemma Pow2Values()
    ensures Pow2(0) == 1 && Pow2(5) == 32 && Pow2(10) == 1024 && Pow2(12) == 4096 && Pow2(16) == 0x1_0000
             && Pow2(31) == 0x8000_0000
  {
    assert Pow2(4) == 16;
    assert Pow2(8) == 256;
    assert Pow2(12) == 4096;
    assert Pow2(16) == 0x1_0000;
    assert Pow2(20) == 0x10_0000;
    assert Pow2(24) == 0x100_0000;
    assert Pow2(28) == 0x1000_0000;
  }

  lemma U32Add(x: int, d: int)
    ensures U32(U32(x) + d) == U32(x + d)
  {
  }

  lemma Pow2Double(k: nat)
    ensures Pow2(k + 1) == 2 * Pow2(k)
  {
  }

  // ----- bits of a word -----

  /** Bitwise or. */
  function Or(a: nat, b: nat): nat {
    if a == 0 && b == 0 then 0 else (if a % 2 == 1 || b % 2 == 1 then 1 else 0) + 2 * Or(a / 2, b / 2)
  }

  /** Bit k of w. */
  predicate Bit(w: nat, k: nat) {
    if k == 0 then w % 2 == 1 else Bit(w / 2, k - 1)
  }

  lemma {:induction false} BitOfZero(k: nat)
    ensures !Bit(0, k)
  {
    if k > 0 { BitOfZero(k - 1); }
  }

  lemma {:induction false} BitOfPow2(m: nat, k: nat)
    ensures Bit(Pow2(m), k) <==> k == m
  {
    if m == 0 {
      if k > 0 { BitOfZero(k - 1); }
    } else if k > 0 {
      BitOfPow2(m - 1, k - 1);
    }
  }

  lemma {:induction false} BitOfOr(a: nat, b: nat, k: nat)
    ensures Bit(Or(a, b), k) <==> Bit(a, k) || Bit(b, k)
  {
    if a == 0 && b == 0 {
      BitOfZero(k);
    } else if k > 0 {
      BitOfOr(a / 2, b / 2, k - 1);
    }
  }
}
