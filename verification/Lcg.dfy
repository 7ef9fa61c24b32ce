/** The period of a linear congruential generator modulo a power of two. */
module Lcg {
  import opened Bits
  import opened Pages

  function Pow(a: nat, n: nat): nat {
    if n == 0 then 1 else a * Pow(a, n - 1)
  }

  /** 1 + a + ... + a^(n-1). */
  function Geo(a: nat, n: nat): nat {
    if n == 0 then 0 else a * Geo(a, n - 1) + 1
  }

  /** One step of the generator modulo 2^k. */
  function Next(a: nat, c: nat, k: nat, x: nat): (r: nat)
    ensures r < Pow2(k)
  {
    (a * x + c) % Pow2(k)
  }

  function Iter(a: nat, c: nat, k: nat, x: nat, n: nat): nat {
    if n == 0 then x else Next(a, c, k, Iter(a, c, k, x, n - 1))
  }

  // ----- powers and geometric sums -----

  lemma MulAssoc(a: int, b: int, c: int)
    ensures a * (b * c) == (a * b) * c
  {
  }

  lemma MulSum(a: int, b: int, c: int)
    ensures a * (b + c) == a * b + a * c
  {
  }

  lemma {:induction false} PowAdd(a: nat, m: nat, n: nat)
    ensures Pow(a, m + n) == Pow(a, m) * Pow(a, n)
  {
    if m > 0 {
      PowAdd(a, m - 1, n);
      assert m + n - 1 == (m - 1) + n;
      MulAssoc(a, Pow(a, m - 1), Pow(a, n));
    }
  }

  lemma {:induction false} GeoAdd(a: nat, m: nat, n: nat)
    ensures Geo(a, m + n) == Pow(a, m) * Geo(a, n) + Geo(a, m)
  {
    if m > 0 {
      GeoAdd(a, m - 1, n);
      assert m + n - 1 == (m - 1) + n;
      var p, g, h := Pow(a, m - 1), Geo(a, n), Geo(a, m - 1);
      MulSum(a, p * g, h);
      MulAssoc(a, p, g);
    }
  }

  lemma {:induction false} GeoPow(a: nat, n: nat)
    requires a >= 1
    ensures Pow(a, n) == (a - 1) * Geo(a, n) + 1
  {
    if n > 0 {
      GeoPow(a, n - 1);
      PowIdentity(a, Geo(a, n - 1));
    }
  }

  lemma PowIdentity(a: int, g: int)
    ensures a * ((a - 1) * g + 1) == (a - 1) * (a * g + 1) + 1
  {
    MulSum(a, (a - 1) * g, 1);
    MulSum(a - 1, a * g, 1);
    MulAssoc(a, a - 1, g);
    MulAssoc(a - 1, a, g);
    assert a * (a - 1) == (a - 1) * a;
  }

  lemma {:induction false} PowMod4(a: nat, n: nat)
    requires a % 4 == 1
    ensures Pow(a, n) % 4 == 1
  {
    if n > 0 {
      PowMod4(a, n - 1);
      OneMod4(a, Pow(a, n - 1));
    }
  }

  lemma OneMod4(a: nat, p: nat)
    requires a % 4 == 1 && p % 4 == 1
    ensures (a * p) % 4 == 1
  {
    var q, r := a / 4, p / 4;
    MulSum(a, 4 * r, 1);
    MulAssoc(4, a, r);
    assert a * p == 4 * (a * r) + a by { assert p == 4 * r + 1; assert a * (4 * r) == 4 * (a * r); }
    Mod4Plus(a * r, q);
  }

  lemma Mod4Plus(x: int, q: int)
    ensures (4 * x + (4 * q + 1)) % 4 == 1
  {
  }

  lemma {:induction false} GeoParity(a: nat, n: nat)
    requires a % 2 == 1
    ensures Geo(a, n) % 2 == n % 2
  {
    if n > 0 {
      GeoParity(a, n - 1);
      var g := Geo(a, n - 1);
      OddProduct(a, g);
      NextParity(a * g, g, n);
    }
  }

  lemma NextParity(w: int, g: int, n: int)
    requires w % 2 == g % 2 == (n - 1) % 2
    ensures (w + 1) % 2 == n % 2
  {
  }

  lemma OddProduct(a: nat, g: nat)
    requires a % 2 == 1
    ensures (a * g) % 2 == g % 2
  {
    var q := a / 2;
    assert a * g == 2 * (q * g) + g by {
      assert a == 2 * q + 1 && (2 * q + 1) * g == (2 * q) * g + g;
      MulAssoc(2, q, g);
    }
    Mod2Plus(q * g, g);
  }

  lemma Mod2Plus(x: int, g: int)
    ensures (2 * x + g) % 2 == g % 2
  {
  }

  // ----- divisibility by powers of two -----

  lemma OddTimes(s: nat, u: nat)
    requires u % 2 == 1
    ensures (s * u) % 2 == s % 2
    ensures s % 2 == 0 ==> (s * u) / 2 == (s / 2) * u
  {
    var q := u / 2;
    assert s * u == 2 * (q * s) + s by { assert u == 2 * q + 1; assert s * (2 * q + 1) == 2 * (q * s) + s; }
    if s % 2 == 0 {
      var h := s / 2;
      assert s * u == 2 * (h * u) by { assert s == 2 * h; assert (2 * h) * u == 2 * (h * u); }
    }
  }

  /** An odd factor does not change by which power of two a number is divisible. */
  lemma {:induction false} OddFactor(s: nat, u: nat, k: nat)
    requires u % 2 == 1
    ensures Aligned(s * u, k) <==> Aligned(s, k)
  {
    if k > 0 {
      OddTimes(s, u);
      if s % 2 == 0 { OddFactor(s / 2, u, k - 1); }
    }
  }

  /** The geometric sum of n terms is divisible by the same powers of two as n. */
  lemma {:induction false} GeoAligned(a: nat, n: nat, k: nat)
    requires a % 4 == 1
    ensures Aligned(Geo(a, n), k) <==> Aligned(n, k)
  {
    if k > 0 {
      GeoParity(a, n);
      if n % 2 == 0 {
        var m := n / 2;
        var u := GeoDouble(a, m);
        GeoAligned(a, m, k - 1);
        OddFactor(Geo(a, m), u, k - 1);
      }
    }
  }

  lemma GeoDouble(a: nat, m: nat) returns (u: nat)
    requires a % 4 == 1
    ensures u % 2 == 1 && Geo(a, 2 * m) == 2 * (Geo(a, m) * u)
  {
    GeoAdd(a, m, m);
    PowMod4(a, m);
    var p, g := Pow(a, m), Geo(a, m);
    u := HalfOfNext(p);
    Regroup(p, g, u);
  }

  lemma HalfOfNext(p: nat) returns (u: nat)
    requires p % 4 == 1
    ensures p + 1 == 2 * u && u % 2 == 1
  {
    u := (p + 1) / 2;
  }

  lemma Regroup(p: nat, g: nat, u: nat)
    requires p + 1 == 2 * u
    ensures p * g + g == 2 * (g * u)
  {
    assert p * g + g == (p + 1) * g;
    assert (2 * u) * g == 2 * (u * g);
    assert u * g == g * u;
  }

  // ----- the state after n steps -----

  lemma ModStep(a: int, c: int, y: int, m: nat)
    requires m >= 1
    ensures (a * (y % m) + c) % m == (a * y + c) % m
  {
    var q, r := y / m, y % m;
    assert a * y + c == (a * q) * m + (a * r + c) by {
      assert y == q * m + r;
      assert a * (q * m + r) == (a * q) * m + a * r;
    }
    ModAddMultiple(a * r + c, a * q, m);
  }

  lemma ModAddMultiple(x: int, q: int, m: int)
    requires m >= 1
    ensures (q * m + x) % m == x % m
  {
    DivModUnique(q * m + x, m, q + x / m, x % m);
    assert (q + x / m) * m == q * m + (x / m) * m;
  }

  lemma StepIdentity(a: int, c: int, x: int, p: int, g: int)
    ensures a * (p * x + c * g) + c == (a * p) * x + c * (a * g + 1)
  {
    MulSum(a, p * x, c * g);
    MulAssoc(a, p, x);
    MulAssoc(a, c, g);
    MulAssoc(c, a, g);
    MulSum(c, a * g, 1);
  }

  lemma ReturnIdentity(a: int, c: int, x: int, g: int)
    ensures ((a - 1) * g + 1) * x + c * g == g * ((a - 1) * x + c) + x
  {
    MulAssoc(a - 1, g, x);
    MulAssoc(g, a - 1, x);
    MulSum(g, (a - 1) * x, c);
    assert ((a - 1) * g + 1) * x == ((a - 1) * g) * x + x;
  }

  lemma OddMultiplier(a: nat, c: nat, x: nat)
    requires a % 2 == 1 && c % 2 == 1
    ensures ((a - 1) * x + c) % 2 == 1
  {
    var h := (a - 1) / 2;
    assert a - 1 == 2 * h;
    MulAssoc(2, h, x);
  }

  lemma ClosedZero(a: nat, c: nat, x: nat, m: nat)
    requires x < m
    ensures (Pow(a, 0) * x + c * Geo(a, 0)) % m == x
  {
    assert Pow(a, 0) * x == x && c * Geo(a, 0) == 0;
    DivModUnique(x, m, 0, x);
  }

  /** n steps from x give a^n x + c (1 + a + ... + a^(n-1)) modulo 2^k. */
  lemma {:induction false} IterClosed(a: nat, c: nat, k: nat, x: nat, n: nat)
    requires x < Pow2(k)
    ensures Iter(a, c, k, x, n) == (Pow(a, n) * x + c * Geo(a, n)) % Pow2(k)
  {
    hide Pow2;
    if n == 0 {
      ClosedZero(a, c, x, Pow2(k));
    } else {
      IterClosed(a, c, k, x, n - 1);
      var p, g := Pow(a, n - 1), Geo(a, n - 1);
      ModStep(a, c, p * x + c * g, Pow2(k));
      StepIdentity(a, c, x, p, g);
    }
  }

  lemma {:induction false} IterAdd(a: nat, c: nat, k: nat, x: nat, m: nat, n: nat)
    ensures Iter(a, c, k, x, m + n) == Iter(a, c, k, Iter(a, c, k, x, m), n)
  {
    if n > 0 { IterAdd(a, c, k, x, m, n - 1); }
  }

  lemma {:induction false} IterBound(a: nat, c: nat, k: nat, x: nat, n: nat)
    requires x < Pow2(k)
    ensures Iter(a, c, k, x, n) < Pow2(k)
  {
  }

  /** The state returns after n steps exactly when 2^k divides n. */
  lemma ReturnsWhen(a: nat, c: nat, k: nat, x: nat, n: nat)
    requires a % 4 == 1 && c % 2 == 1 && x < Pow2(k)
    ensures Iter(a, c, k, x, n) == x <==> Aligned(n, k)
  {
    hide Pow, Geo, Iter, Aligned, Pow2;
    var g := Geo(a, n);
    var u := StepOf(a, c, x);
    IterReturns(a, c, k, x, n, u);
    var d := g * u;
    SameModulo(d, x, Pow2(k));
    AlignedIsMod(d, k);
    OddFactor(g, u, k);
    GeoAligned(a, n, k);
  }

  /** The first step moves by an odd number, (a - 1) x + c. */
  lemma StepOf(a: nat, c: nat, x: nat) returns (u: nat)
    requires a % 4 == 1 && c % 2 == 1
    ensures u % 2 == 1 && u == (a - 1) * x + c
  {
    OddMultiplier(a, c, x);
    u := StepSize(a - 1, c, x);
  }

  lemma StepSize(b: nat, c: nat, x: nat) returns (u: nat)
    ensures u == b * x + c
  {
    u := b * x + c;
  }

  lemma IterReturns(a: nat, c: nat, k: nat, x: nat, n: nat, u: nat)
    requires a >= 1 && u == (a - 1) * x + c && x < Pow2(k)
    ensures Iter(a, c, k, x, n) == (Geo(a, n) * u + x) % Pow2(k)
  {
    hide Pow, Geo, Iter, Pow2;
    IterClosed(a, c, k, x, n);
    GeoPow(a, n);
    ReturnIdentity(a, c, x, Geo(a, n));
  }

  lemma SameModulo(d: nat, x: nat, m: nat)
    requires m >= 1 && x < m
    ensures (d + x) % m == x <==> d % m == 0
  {
    var q, r := d / m, d % m;
    assert d == q * m + r;
    if r + x < m {
      DivModUnique(d + x, m, q, r + x);
    } else {
      assert (q + 1) * m == q * m + m;
      DivModUnique(d + x, m, q + 1, r + x - m);
    }
  }

  // ----- a single cycle -----

  lemma {:induction false} AlignedBound(n: nat, k: nat)
    requires 0 < n < Pow2(k)
    ensures !Aligned(n, k)
  {
    if k > 0 && n % 2 == 0 { AlignedBound(n / 2, k - 1); }
  }

  /** Within 2^k steps no state occurs twice. */
  lemma NoRepeat(a: nat, c: nat, k: nat, x: nat, i: nat, j: nat)
    requires a % 4 == 1 && c % 2 == 1 && x < Pow2(k) && 0 < j - i < Pow2(k)
    ensures Iter(a, c, k, x, i) != Iter(a, c, k, x, j)
  {
    IterAdd(a, c, k, x, i, j - i);
    IterBound(a, c, k, x, i);
    AlignedBound(j - i, k);
    ReturnsWhen(a, c, k, Iter(a, c, k, x, i), j - i);
  }

  /** The states after 1, ..., n steps. */
  ghost function Visited(a: nat, c: nat, k: nat, x: nat, n: nat): set<nat> {
    if n == 0 then {} else Visited(a, c, k, x, n - 1) + {Iter(a, c, k, x, n)}
  }

  lemma {:induction false} VisitedMembers(a: nat, c: nat, k: nat, x: nat, n: nat, s: nat) returns (i: nat)
    requires s in Visited(a, c, k, x, n)
    ensures 1 <= i <= n && s == Iter(a, c, k, x, i)
  {
    if s == Iter(a, c, k, x, n) { i := n; } else { i := VisitedMembers(a, c, k, x, n - 1, s); }
  }

  lemma {:induction false} VisitedCount(a: nat, c: nat, k: nat, x: nat, n: nat)
    requires a % 4 == 1 && c % 2 == 1 && x < Pow2(k) && n <= Pow2(k)
    ensures |Visited(a, c, k, x, n)| == n && Visited(a, c, k, x, n) <= Range(0, Pow2(k))
  {
    hide Iter, Pow2;
    if n > 0 {
      VisitedCount(a, c, k, x, n - 1);
      IterBound(a, c, k, x, n);
      VisitedFresh(a, c, k, x, n);
    }
  }

  lemma VisitedFresh(a: nat, c: nat, k: nat, x: nat, n: nat)
    requires a % 4 == 1 && c % 2 == 1 && x < Pow2(k) && 0 < n <= Pow2(k)
    ensures Iter(a, c, k, x, n) !in Visited(a, c, k, x, n - 1)
  {
    hide Iter, Visited, Pow2;
    if Iter(a, c, k, x, n) in Visited(a, c, k, x, n - 1) {
      var i := VisitedMembers(a, c, k, x, n - 1, Iter(a, c, k, x, n));
      NoRepeat(a, c, k, x, i, n);
    }
  }

  lemma FullSubset(s: set<nat>, t: set<nat>)
    requires s <= t && |s| == |t|
    ensures s == t
  {
    assert |t - s| == |t| - |s|;
  }

  /** From any state, the next 2^k states are all the states, and the last of them is the first again. */
  lemma SingleCycle(a: nat, c: nat, k: nat, x: nat)
    requires a % 4 == 1 && c % 2 == 1 && x < Pow2(k)
    ensures Visited(a, c, k, x, Pow2(k)) == Range(0, Pow2(k))
    ensures Iter(a, c, k, x, Pow2(k)) == x
  {
    VisitedCount(a, c, k, x, Pow2(k));
    RangeSize(0, Pow2(k));
    FullSubset(Visited(a, c, k, x, Pow2(k)), Range(0, Pow2(k)));
    AlignedIsMod(Pow2(k), k);
    DivModUnique(Pow2(k), Pow2(k), 1, 0);
    ReturnsWhen(a, c, k, x, Pow2(k));
  }
}
