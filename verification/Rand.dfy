/** rand and srand: a 48-bit linear congruential generator that returns a number made of its upper 36 bits. */
module Rand {
  import opened Bits
  import opened Pages
  import opened Lcg

  const MULTIPLIER: nat := 0x5DEECE66D
  const INCREMENT: nat := 0xB
  const RAND_MAX: nat := 2147483647

  /** The number rand returns in state s. The macro do_div does not put its argument RAND_MAX + 1 in parentheses,
      so that the remainder is taken modulo RAND_MAX, and 1 is added to it. */
  function Out(s: nat): (r: nat)
    ensures 1 <= r <= RAND_MAX
  {
    (s / 4096) % RAND_MAX + 1
  }

  class Generator {
    var next: nat  // an unsigned long long

    ghost predicate Valid()
      reads this
    {
      next < Pow2(48)
    }

    constructor ()
      ensures Valid() && next == 1
    {
      next := 1;
      new;
      Pow2Strict(0, 48);
    }

    /** rand. */
    method Rand() returns (r: nat)
      modifies this
      ensures Valid() && next == Next(MULTIPLIER, INCREMENT, 48, old(next)) && r == Out(next)
    {
      hide Pow2, And;
      WordThenMask(next * MULTIPLIER + INCREMENT, 48, 64);
      next := And((next * MULTIPLIER + INCREMENT) % Pow2(64), Pow2(48) - 1);
      var result := next / Pow2(12);
      Pow2Values();
      r := result % RAND_MAX + 1;
    }

    /** srand. */
    method Srand(seed: nat)
      requires seed < 0x1_0000_0000
      modifies this
      ensures Valid() && next == seed
    {
      next := seed;
      Pow2Values();
      Pow2Monotone(32, 48);
      Pow2Double(31);
    }
  }

  /** The step in numbers: from 0 the state becomes 11, and neighbouring states move 25214903917 apart, modulo 2^48. */
  lemma StepInNumbers(x: nat)
    ensures Next(MULTIPLIER, INCREMENT, 48, 0) == 11
    ensures (Next(MULTIPLIER, INCREMENT, 48, x + 1) - Next(MULTIPLIER, INCREMENT, 48, x)) % 281474976710656
            == 25214903917
  {
    hide Pow2;
    PowerInNumbers();
    var a, m := 25214903917, 281474976710656;
    Apart(a * x + 11, a, m);
  }

  lemma PowerInNumbers()
    ensures Pow2(48) == 281474976710656
  {
    Pow2Values();
    Pow2Product(16, 16);
    Pow2Product(16, 32);
  }

  lemma Apart(y: nat, a: nat, m: nat)
    requires a < m
    ensures ((y + a) % m - y % m) % m == a
  {
    var q, r := y / m, y % m;
    assert y == q * m + r;
    ModAddMultiple(r + a, q, m);
    assert y + a == r + a + q * m;
    if r + a < m {
      DivModUnique(r + a, m, 0, r + a);
      DivModUnique(a, m, 0, a);
    } else {
      DivModUnique(r + a, m, 1, r + a - m);
      assert (r + a) % m - r == a - m;
      ModMinus(a, m);
    }
  }

  lemma ModMinus(a: nat, m: nat)
    requires a < m
    ensures (a - m) % m == a
  {
  }

  /** From the state the program starts in, or after srand(1), the first number is 6155983. */
  method FirstNumber() returns (r: nat)
    ensures r == 6155983
  {
    hide Pow2;
    PowerInNumbers();
    var generator := new Generator();
    r := generator.Rand();
  }

  /** A wrap-around of the wider word does not show after the mask. */
  lemma WordThenMask(x: nat, j: nat, k: nat)
    requires j <= k
    ensures And(x % Pow2(k), Pow2(j) - 1) == x % Pow2(j)
  {
    hide Pow2, And;
    AndMaskIsMod(x % Pow2(k), j);
    Pow2Divides(j, k);
    ModOfMod(x, Pow2(j), Pow2(k) / Pow2(j));
  }

  lemma {:induction false} Pow2Divides(j: nat, k: nat)
    requires j <= k
    ensures Pow2(k) == (Pow2(k) / Pow2(j)) * Pow2(j)
    decreases k - j
  {
    if j < k {
      Pow2Divides(j, k - 1);
      var q := Pow2(k - 1) / Pow2(j);
      assert Pow2(k) == (2 * q) * Pow2(j) by { MulAssoc(2, q, Pow2(j)); }
      DivModUnique(Pow2(k), Pow2(j), 2 * q, 0);
    } else {
      DivModUnique(Pow2(j), Pow2(j), 1, 0);
    }
  }

  lemma ModOfMod(x: nat, m: nat, f: nat)
    requires m >= 1 && f * m >= 1
    ensures (x % (f * m)) % m == x % m
  {
    var q, r := x / (f * m), x % (f * m);
    assert x == (q * f) * m + r by { MulAssoc(q, f, m); }
    ModAddMultiple(r, q * f, m);
  }

  // ----- how often each number is returned -----

  /** How many of n consecutive calls from state x return v. */
  function Hits(x: nat, n: nat, v: nat): nat {
    if n == 0 then 0
    else Hits(x, n - 1, v) + if Out(Iter(MULTIPLIER, INCREMENT, 48, x, n)) == v then 1 else 0
  }

  ghost function Select(states: set<nat>, v: nat): set<nat> {
    set s | s in states && Out(s) == v
  }

  /** How many states below n yield v. */
  function States(n: nat, v: nat): nat {
    if n == 0 then 0 else States(n - 1, v) + if Out(n - 1) == v then 1 else 0
  }

  lemma {:induction false} HitsAreVisits(x: nat, n: nat, v: nat)
    requires x < Pow2(48) && n <= Pow2(48)
    ensures Hits(x, n, v) == |Select(Visited(MULTIPLIER, INCREMENT, 48, x, n), v)|
  {
    hide Out, Iter, Pow2;
    if n == 0 {
      assert Select({}, v) == {};
    } else {
      HitsAreVisits(x, n - 1, v);
      var s := Iter(MULTIPLIER, INCREMENT, 48, x, n);
      var before := Visited(MULTIPLIER, INCREMENT, 48, x, n - 1);
      VisitedFresh(MULTIPLIER, INCREMENT, 48, x, n);
      SelectAdd(before, s, v);
    }
  }

  lemma SelectAdd(states: set<nat>, s: nat, v: nat)
    requires s !in states
    ensures |Select(states + {s}, v)| == |Select(states, v)| + if Out(s) == v then 1 else 0
  {
    hide Out;
    if Out(s) == v {
      assert Select(states + {s}, v) == Select(states, v) + {s};
    } else {
      assert Select(states + {s}, v) == Select(states, v);
    }
  }

  lemma {:induction false} StatesAreRange(n: nat, v: nat)
    ensures States(n, v) == |Select(Range(0, n), v)|
  {
    hide Out;
    if n == 0 {
      assert Select({}, v) == {};
    } else {
      StatesAreRange(n - 1, v);
      SelectAdd(Range(0, n - 1), n - 1, v);
    }
  }

  /** How many numbers below n leave the remainder v modulo m. */
  function Residues(n: nat, m: nat, v: nat): nat
    requires m >= 1
  {
    if n == 0 then 0 else Residues(n - 1, m, v) + if (n - 1) % m == v then 1 else 0
  }

  /** 4096 consecutive states share the bits that are returned. */
  lemma {:induction false} StatesByBlock(q: nat, r: nat, v: nat)
    requires r <= 4096
    requires v >= 1
    ensures States(4096 * q + r, v)
            == 4096 * Residues(q, RAND_MAX, v - 1) + if q % RAND_MAX == v - 1 then r else 0
    decreases q, r
  {
    if r > 0 {
      StatesByBlock(q, r - 1, v);
      DivModUnique(4096 * q + r - 1, 4096, q, r - 1);
    } else if q > 0 {
      StatesByBlock(q - 1, 4096, v);
    }
  }

  lemma {:induction false} ResiduesByRound(h: nat, r: nat, m: nat, v: nat)
    requires m >= 1 && v < m && r <= m
    ensures Residues(h * m + r, m, v) == h + if v < r then 1 else 0
    decreases h, r
  {
    if r > 0 {
      ResiduesByRound(h, r - 1, m, v);
      DivModUnique(h * m + r - 1, m, h, r - 1);
    } else if h > 0 {
      ResiduesByRound(h - 1, m, m, v);
      assert h * m == (h - 1) * m + m;
    }
  }

  /** How many of the 2^48 states yield v. */
  function Share(v: nat): nat {
    if v == 0 || v > RAND_MAX then 0 else if v <= 32 then 33 * 4096 else 32 * 4096
  }

  /** 2^36 is 32 rounds of RAND_MAX and 32 more, so the first 32 outputs get one block of states more than the rest. */
  lemma StatesPerOutput(v: nat)
    ensures States(Pow2(48), v) == Share(v)
  {
    hide Pow2, States, Residues, Out;
    if 1 <= v <= RAND_MAX {
      Pow2Values();
      Pow2Product(12, 36);
      Pow2Product(5, 31);
      StatesByBlock(Pow2(36), 0, v);
      ResiduesByRound(32, 32, RAND_MAX, v - 1);
    } else {
      NeverOut(Pow2(48), v);
    }
  }

  lemma {:induction false} NeverOut(n: nat, v: nat)
    requires v == 0 || v > RAND_MAX
    ensures States(n, v) == 0
  {
    if n > 0 { NeverOut(n - 1, v); }
  }

  lemma {:induction false} Pow2Product(j: nat, k: nat)
    ensures Pow2(j + k) == Pow2(j) * Pow2(k)
  {
    if j > 0 {
      Pow2Product(j - 1, k);
      assert j + k - 1 == (j - 1) + k;
      MulAssoc(2, Pow2(j - 1), Pow2(k));
    }
  }

  /** rand runs through a single cycle of all 2^48 states. */
  lemma RandSingleCycle(x: nat)
    requires x < Pow2(48)
    ensures Visited(MULTIPLIER, INCREMENT, 48, x, Pow2(48)) == Range(0, Pow2(48))
    ensures Iter(MULTIPLIER, INCREMENT, 48, x, Pow2(48)) == x
  {
    SingleCycle(MULTIPLIER, INCREMENT, 48, x);
  }

  /** What any 2^48 consecutive calls return: 0 never, the numbers from 1 to 32 each 33 * 4096 times, and the others
      up to RAND_MAX each 2^17 times. */
  lemma HitsPerPeriod(x: nat, v: nat)
    requires x < Pow2(48)
    ensures Hits(x, Pow2(48), v) == Share(v)
  {
    hide Pow2, Iter, Out, Hits, States, Visited;
    HitsAreVisits(x, Pow2(48), v);
    RandSingleCycle(x);
    StatesAreRange(Pow2(48), v);
    StatesPerOutput(v);
  }

  /** The numbers returned as often as each would be if all from 0 to RAND_MAX came equally often. */
  lemma EvenExactly(x: nat, v: nat)
    requires x < Pow2(48)
    ensures Hits(x, Pow2(48), v) == Pow2(17) <==> 33 <= v <= RAND_MAX
    ensures Pow2(48) == Pow2(17) * (RAND_MAX + 1)
  {
    hide Pow2, Hits;
    HitsPerPeriod(x, v);
    Pow2Values();
    Pow2Product(5, 12);
    Pow2Product(17, 31);
  }
}
