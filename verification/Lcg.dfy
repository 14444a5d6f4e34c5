// The linear congruential generator of helper/lcg.c, and its full period.
//
// A C int is a 32-bit two's complement number and its multiplication is taken
// as wrapping; the mask with RAND_MAX then keeps the low 31 bits.
module Lcg {
  import opened Powers

  const MULTIPLIER := 1103515245
  const INCREMENT := 12345
  const TWO_31 := 0x8000_0000
  const TWO_32 := 0x1_0000_0000

  type int32 = x: int | -0x8000_0000 <= x < 0x8000_0000

  // Equality of the low 31 bits.
  predicate Congruent(x: int, y: int)
  {
    (x - y) % TWO_31 == 0
  }

  lemma CongruentChain(x: int, y: int, z: int)
    requires Congruent(x, y) && Congruent(y, z)
    ensures Congruent(x, z)
  {
  }

  lemma CongruentSum(x: int, x': int, y: int, y': int)
    requires Congruent(x, x') && Congruent(y, y')
    ensures Congruent(x + y, x' + y') && Congruent(x - y, x' - y')
  {
  }

  lemma CongruentSymmetric(x: int, y: int)
    ensures Congruent(x, y) <==> Congruent(y, x)
  {
  }

  lemma CongruentNear(x: int, y: int)
    requires y < x < y + TWO_31
    ensures !Congruent(x, y)
  {
  }

  lemma CongruentScale(x: int, y: int, k: int)
    requires Congruent(x, y)
    ensures Congruent(k * x, k * y)
  {
    var q := (x - y) / TWO_31;
    assert k * x - k * y == TWO_31 * (k * q);
  }

  // Wrapping of a mathematical integer to a C int.
  function WrapInt(x: int): (r: int32)
    ensures Congruent(r, x) && (r - x) % 0x1_0000_0000 == 0
  {
    var u := x % TWO_32;
    var r := if u < TWO_31 then u else u - TWO_32;
    MultipleOfBoth(r - x, if u < TWO_31 then -(x / TWO_32) else -(x / TWO_32) - 1);
    r
  }

  lemma MultipleOfBoth(d: int, k: int)
    requires d == TWO_32 * k
    ensures d % 0x1_0000_0000 == 0 && d % TWO_31 == 0
  {
    assert d == TWO_31 * (2 * k);
  }

  // lcg_rand_r: the product and the sum wrap as ints, the mask makes the
  // result unsigned and keeps its low 31 bits.
  function RandR(rseed: int32): (r: int32)
    ensures 0 <= r
    ensures Congruent(r, rseed * MULTIPLIER + INCREMENT)
  {
    var product := WrapInt(rseed * MULTIPLIER);
    var sum := WrapInt(product + INCREMENT);
    MaskKeepsLowBits(rseed * MULTIPLIER, product, sum);
    (sum % TWO_32) % TWO_31
  }

  lemma MaskKeepsLowBits(exact: int, product: int32, sum: int32)
    requires Congruent(product, exact) && Congruent(sum, product + INCREMENT)
    ensures 0 <= (sum % TWO_32) % TWO_31 < TWO_31
    ensures Congruent((sum % TWO_32) % TWO_31, exact + INCREMENT)
  {
    CongruentSum(product, exact, INCREMENT, INCREMENT);
    CongruentChain(sum, product + INCREMENT, exact + INCREMENT);
    CongruentChain((sum % TWO_32) % TWO_31, sum, exact + INCREMENT);
  }

  // The same in numbers.
  lemma RandRWritten(x: int32)
    ensures RandR(x) == (x * 1103515245 + 12345) % 0x8000_0000
  {
    var exact := x * 1103515245 + 12345;
    CongruentNumber(RandR(x), exact);
  }

  lemma CongruentNumber(r: int, x: int)
    requires 0 <= r < 0x8000_0000 && Congruent(r, x)
    ensures r == x % 0x8000_0000
  {
  }

  // The global generator: lcg_srand and lcg_rand over the static `rseed`.
  class Global {
    var rseed: int32

    constructor ()
      ensures rseed == 0
    {
      rseed := 0;
    }

    method Srand(x: int32)
      modifies this
      ensures rseed == x
    {
      rseed := x;
    }

    method Rand() returns (r: int32)
      modifies this
      ensures r == rseed == Iterate(1, old(rseed))
    {
      rseed := (WrapInt(WrapInt(rseed * MULTIPLIER) + INCREMENT) % TWO_32) % TWO_31;
      r := rseed;
    }
  }

  // The state reached from x by n calls.
  function Iterate(n: nat, x: int32): (r: int32)
    ensures n > 0 ==> 0 <= r
  {
    if n == 0 then x else RandR(Iterate(n - 1, x))
  }

  // ----- the affine map without any modulus -----

  function Affine(n: nat, x: int): int
  {
    if n == 0 then x else Affine(n - 1, x) * MULTIPLIER + INCREMENT
  }

  // 1 + a + a^2 + ... + a^(n-1) for the multiplier a.
  function Geometric(n: nat): int
  {
    if n == 0 then 0 else 1 + MULTIPLIER * Geometric(n - 1)
  }

  lemma {:induction false} IterateIsAffine(n: nat, x: int32)
    ensures Congruent(Iterate(n, x), Affine(n, x))
  {
    if n > 0 {
      IterateIsAffine(n - 1, x);
      var y, z := Iterate(n - 1, x), Affine(n - 1, x);
      CongruentScale(y, z, MULTIPLIER);
      CongruentSum(y * MULTIPLIER, z * MULTIPLIER, INCREMENT, INCREMENT);
      CongruentChain(RandR(y), y * MULTIPLIER + INCREMENT, z * MULTIPLIER + INCREMENT);
    }
  }

  lemma {:induction false} AffineDisplacement(n: nat, x: int)
    ensures Affine(n, x) - x == Geometric(n) * Step(x)
  {
    if n > 0 {
      AffineDisplacement(n - 1, x);
      var g, t := Geometric(n - 1), Step(x);
      assert Affine(n - 1, x) == x + g * t;
      assert (1 + MULTIPLIER * g) * t == t + MULTIPLIER * (g * t);
    }
  }

  lemma {:induction false} AffineAdds(m: nat, n: nat, x: int)
    ensures Affine(m + n, x) == Affine(n, Affine(m, x))
  {
    if n > 0 {
      AffineAdds(m, n - 1, x);
    }
  }

  lemma {:induction false} GeometricAdds(m: nat, n: nat)
    ensures Geometric(m + n)
         == Geometric(m) + Geometric(n) + (MULTIPLIER - 1) * (Geometric(m) * Geometric(n))
  {
    if n > 0 {
      GeometricAdds(m, n - 1);
      GeometricStep(Geometric(m), Geometric(n - 1));
    }
  }

  lemma GeometricStep(s: int, t: int)
    ensures 1 + MULTIPLIER * (s + t + (MULTIPLIER - 1) * (s * t))
         == s + (1 + MULTIPLIER * t) + (MULTIPLIER - 1) * (s * (1 + MULTIPLIER * t))
  {
    assert s * (1 + MULTIPLIER * t) == s + MULTIPLIER * (s * t);
  }

  // ----- divisibility by powers of two -----

  predicate DivisibleByPow2(k: nat, y: int)
  {
    k == 0 || (y % 2 == 0 && DivisibleByPow2(k - 1, y / 2))
  }

  lemma ModDouble(y: int, p: nat)
    requires p > 0
    ensures y % (2 * p) == 0 <==> y % 2 == 0 && (y / 2) % p == 0
  {
    if y % (2 * p) == 0 {
      var q := y / (2 * p);
      assert y == 2 * (p * q);
      assert y / 2 == p * q;
      MultipleMod(q, p);
    }
    if y % 2 == 0 && (y / 2) % p == 0 {
      var q := (y / 2) / p;
      assert y == (2 * p) * q;
      MultipleMod(q, 2 * p);
    }
  }

  lemma MultipleMod(q: int, p: nat)
    requires p > 0
    ensures (p * q) % p == 0
  {
    var d, r := (p * q) / p, (p * q) % p;
    assert r == p * (q - d);
    assert q - d == 0 by {
      assert q - d >= 1 ==> p * (q - d) >= p;
      assert q - d <= -1 ==> p * (q - d) <= p * -1;
    }
  }

  lemma {:induction false} DivisibleIsMod(k: nat, y: int)
    ensures DivisibleByPow2(k, y) <==> y % Pow2(k) == 0
  {
    if k > 0 {
      DivisibleIsMod(k - 1, y / 2);
      ModDouble(y, Pow2(k - 1));
    }
  }

  lemma {:induction false} OddFactor(k: nat, u: int, y: int)
    requires u % 2 == 1
    ensures DivisibleByPow2(k, u * y) <==> DivisibleByPow2(k, y)
  {
    if k > 0 {
      var h := u / 2;
      assert u == 2 * h + 1;
      assert u * y == 2 * (h * y) + y;
      if y % 2 == 0 {
        var z := y / 2;
        assert y == 2 * z;
        assert u * y == 2 * (u * z);
        OddFactor(k - 1, u, z);
      }
    }
  }

  lemma DivisibleDouble(k: nat, z: int)
    requires k > 0
    ensures DivisibleByPow2(k, 2 * z) <==> DivisibleByPow2(k - 1, z)
  {
    assert (2 * z) / 2 == z && (2 * z) % 2 == 0;
  }

  // Doubling the length doubles the sum, up to an odd factor.
  lemma GeometricDoubles(m: nat) returns (u: int)
    ensures u % 2 == 1
    ensures Geometric(m + m) == 2 * (u * Geometric(m))
  {
    GeometricAdds(m, m);
    u := OddCofactor(Geometric(m), Geometric(m + m));
  }

  lemma OddCofactor(s: int, g: int) returns (u: int)
    requires g == s + s + (MULTIPLIER - 1) * (s * s)
    ensures u % 2 == 1
    ensures g == 2 * (u * s)
  {
    u := 1 + 551757622 * s;
    assert u * s == s + 551757622 * (s * s);
  }

  // The geometric sum has exactly as many factors two as its length.
  lemma {:induction false} GeometricDivisibility(k: nat, n: nat)
    ensures DivisibleByPow2(k, Geometric(n)) <==> DivisibleByPow2(k, n)
  {
    if k > 0 {
      var m := n / 2;
      var u := GeometricDoubles(m);
      var even := u * Geometric(m);
      if n == 2 * m {
        DivisibleDouble(k, even);
        OddFactor(k - 1, u, Geometric(m));
        GeometricDivisibility(k - 1, m);
        DivisibleDouble(k, m);
      } else {
        assert n == m + m + 1;
        assert Geometric(n) == 2 * (MULTIPLIER * even) + 1;
      }
    }
  }

  lemma Pow2At31()
    ensures Pow2(31) == TWO_31
  {
    assert Pow2(8) == 256;
    assert Pow2(16) == 65536;
    assert Pow2(24) == 0x100_0000;
  }

  // The step returns to a state after n more calls exactly when n is a
  // multiple of 2^31.
  lemma Recurrence(n: nat, y: int)
    ensures Congruent(Affine(n, y), y) <==> n % TWO_31 == 0
  {
    AffineDisplacement(n, y);
    OddStep(y);
    OddDisplacement(n, Step(y));
  }

  // How far one call moves, before reduction.
  function Step(y: int): int
  {
    (MULTIPLIER - 1) * y + INCREMENT
  }

  lemma OddStep(y: int)
    ensures Step(y) % 2 == 1
  {
  }

  lemma OddDisplacement(n: nat, t: int)
    requires t % 2 == 1
    ensures (Geometric(n) * t) % TWO_31 == 0 <==> n % TWO_31 == 0
  {
    GeometricDivisibility(31, n);
    SameDivisibility(Geometric(n), n, t);
  }

  lemma SameDivisibility(g: int, n: int, t: int)
    requires t % 2 == 1
    requires DivisibleByPow2(31, g) <==> DivisibleByPow2(31, n)
    ensures (g * t) % TWO_31 == 0 <==> n % TWO_31 == 0
  {
    assert DivisibleByPow2(31, t * g) <==> DivisibleByPow2(31, g) by {
      OddFactor(31, t, g);
    }
    DivisibleAt31(t * g);
    DivisibleAt31(n);
  }

  lemma DivisibleAt31(y: int)
    ensures DivisibleByPow2(31, y) <==> y % TWO_31 == 0
  {
    DivisibleIsMod(31, y);
    Pow2At31();
  }

  // Full period, from every state: calls i and j leave the same state exactly
  // when i and j differ by a multiple of 2^31.  (A seed may be negative, so the
  // count starts at the first call.)
  lemma FullPeriod(x: int32, i: nat, j: nat)
    requires 1 <= i && 1 <= j
    ensures Iterate(i, x) == Iterate(j, x) <==> Congruent(i, j)
  {
    if i < j {
      CongruentSymmetric(i, j);
      FullPeriodOrdered(x, j, i);
    } else {
      FullPeriodOrdered(x, i, j);
    }
  }

  lemma FullPeriodOrdered(x: int32, hi: nat, lo: nat)
    requires 1 <= lo <= hi
    ensures Iterate(hi, x) == Iterate(lo, x) <==> Congruent(hi, lo)
  {
    var rh, rl, ah, al := Iterate(hi, x), Iterate(lo, x), Affine(hi, x), Affine(lo, x);
    assert Congruent(ah, al) <==> (hi - lo) % TWO_31 == 0 by {
      AffineAdds(lo, hi - lo, x);
      Recurrence(hi - lo, al);
    }
    assert Congruent(rh, ah) && Congruent(rl, al) by {
      IterateIsAffine(lo, x);
      IterateIsAffine(hi, x);
    }
    SameResidue(rh, rl, ah, al);
  }

  lemma SameResidue(rh: int, rl: int, ah: int, al: int)
    requires 0 <= rh < TWO_31 && 0 <= rl < TWO_31
    requires Congruent(rh, ah) && Congruent(rl, al)
    ensures rh == rl <==> Congruent(ah, al)
  {
  }

  // The values of f at 1..n.
  ghost function Image(f: int -> int, n: nat): set<int>
  {
    set i | 1 <= i <= n :: f(i)
  }

  lemma {:induction false} ImageCount(f: int -> int, n: nat)
    requires forall i, j :: 1 <= i < j <= n ==> f(i) != f(j)
    ensures |Image(f, n)| == n
  {
    if n == 0 {
      assert Image(f, n) == {};
    } else {
      ImageCount(f, n - 1);
      ImageGrows(f, n);
    }
  }

  lemma ImageGrows(f: int -> int, n: nat)
    requires n > 0 && forall i, j :: 1 <= i < j <= n ==> f(i) != f(j)
    ensures f(n) !in Image(f, n - 1) && Image(f, n) == Image(f, n - 1) + {f(n)}
  {
    forall v
      ensures v in Image(f, n) <==> v in Image(f, n - 1) + {f(n)}
    {
      if v in Image(f, n) {
        var i :| 1 <= i <= n && f(i) == v;
        assert i == n || v in Image(f, n - 1);
      }
    }
  }

  lemma {:induction false} RangeCount(s: set<int>, n: nat)
    requires forall v :: v in s ==> 0 <= v < n
    ensures |s| <= n
    ensures |s| == n ==> forall v :: 0 <= v < n ==> v in s
  {
    if n == 0 {
      assert forall v :: v !in s;
      assert s == {};
    } else {
      RangeCount(s - {n - 1}, n - 1);
    }
  }

  // One period visits every 31-bit value.
  lemma EveryValueVisited(x: int32, v: int)
    requires 0 <= v < TWO_31
    ensures exists i :: 1 <= i <= TWO_31 && Iterate(i, x) == v
  {
    var f := (i: int) => if i < 0 then 0 else Iterate(i, x);
    forall i, j | 1 <= i < j <= TWO_31
      ensures f(i) != f(j)
    {
      CongruentNear(j, i);
      FullPeriod(x, j, i);
    }
    ImageCount(f, TWO_31);
    RangeCount(Image(f, TWO_31), TWO_31);
    assert v in Image(f, TWO_31);
    var i :| 1 <= i <= TWO_31 && f(i) == v;
    assert Iterate(i, x) == v;
  }

  // One call depends on the low 31 bits of its argument, and on all of them.
  lemma StepInjective(x: int32, y: int32)
    ensures RandR(x) == RandR(y) <==> Congruent(x, y)
  {
    var p, q := x * MULTIPLIER, y * MULTIPLIER;
    SameResidue(RandR(x), RandR(y), p + INCREMENT, q + INCREMENT);
    if Congruent(x, y) {
      CongruentScale(x, y, MULTIPLIER);
      CongruentSum(p, q, INCREMENT, INCREMENT);
    }
    if Congruent(p + INCREMENT, q + INCREMENT) {
      MultiplierInvertible(x, y, (p - q) / TWO_31);
    }
  }

  lemma MultiplierInvertible(x: int, y: int, m: int)
    requires (x - y) * MULTIPLIER == TWO_31 * m
    ensures Congruent(x, y)
  {
    assert 1857678181 * MULTIPLIER == 1 + 954594553 * TWO_31;
    assert x - y == TWO_31 * (1857678181 * m - 954594553 * (x - y));
  }

  lemma {:induction false} IterateSame(n: nat, x: int32, y: int32)
    requires n > 0 && Congruent(x, y)
    ensures Iterate(n, x) == Iterate(n, y)
  {
    if n == 1 {
      StepInjective(x, y);
      assert Iterate(0, x) == x && Iterate(0, y) == y;
    } else {
      IterateSame(n - 1, x, y);
    }
  }
}
