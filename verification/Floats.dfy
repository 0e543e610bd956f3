/** Rounding to `f64`: the binary64 format and roundTiesToEven of IEEE 754-2019, section 4.3.1,
    for magnitudes below the overflow threshold. */
module Floats {

  function Abs(x: real): real {
    if x < 0.0 then -x else x
  }

  function Pow2(n: int): (p: real)
    ensures p > 0.0
    decreases if n < 0 then -n else n
  {
    if n == 0 then 1.0 else if n > 0 then 2.0 * Pow2(n - 1) else Pow2(n + 1) / 2.0
  }

  /** `2^e` is the weight of the last bit of `x` in a significand of 53 bits; the subnormals share
      the smallest exponent. */
  ghost predicate IsExponent(x: real, e: int) {
    && e >= -1074
    && x < Pow2(e + 53)
    && (e > -1074 ==> x >= Pow2(e + 52))
  }

  ghost function Exponent(x: real): (e: int)
    ensures IsExponent(Abs(x), e)
  {
    ExponentExists(Abs(x));
    var e :| IsExponent(Abs(x), e);
    e
  }

  function TiesToEven(y: real): int {
    var f := y.Floor;
    var r := y - f as real;
    if r < 0.5 || (r == 0.5 && f % 2 == 0) then f else f + 1
  }

  /** The whole multiple of `p` nearest to `x`. */
  function Nearest(x: real, p: real): real
    requires p > 0.0
  {
    TiesToEven(x / p) as real * p
  }

  /** The real nearest to `x` that has the format, ties going to an even significand. */
  ghost function Round(x: real): real {
    Nearest(x, Pow2(Exponent(x)))
  }

  /** Truncation of a real toward zero. */
  function Trunc(x: real): int {
    if x >= 0.0 then x.Floor else -((-x).Floor)
  }

  lemma Pow2Next(n: int)
    ensures Pow2(n + 1) == 2.0 * Pow2(n)
  {
  }

  lemma {:induction false} Pow2Monotone(m: int, n: int)
    requires m <= n
    ensures Pow2(m) <= Pow2(n)
    decreases n - m
  {
    if m < n {
      Pow2Next(m);
      Pow2Monotone(m + 1, n);
    }
  }

  lemma {:induction false} Pow2Inverse(n: int)
    requires n >= 0
    ensures Pow2(n) * Pow2(-n) == 1.0
  {
    if n > 0 {
      Pow2Inverse(n - 1);
      TwiceHalf(Pow2(n - 1), Pow2(1 - n), Pow2(n), Pow2(-n));
    }
  }

  lemma TwiceHalf(a: real, b: real, twice: real, half: real)
    requires twice == 2.0 * a && half == b / 2.0
    ensures twice * half == a * b
  {
  }

  const TWO52 := 0x10_0000_0000_0000
  const TWO53 := 0x20_0000_0000_0000
  const TWO62 := 0x4000_0000_0000_0000
  const TWO64 := 0x1_0000_0000_0000_0000

  lemma Powers()
    ensures Pow2(0) == 1.0 && Pow2(9) == 512.0 && Pow2(10) == 1024.0 && Pow2(11) == 2048.0
    ensures Pow2(-30) * 1073741824.0 == 1.0 && Pow2(-20) * 1048576.0 == 1.0
  {
    assert Pow2(10) == 1024.0;
    assert Pow2(20) == 1048576.0;
    assert Pow2(30) == 1073741824.0;
    Pow2Inverse(30);
    Pow2Inverse(20);
  }

  lemma BigPowers()
    ensures Pow2(24) == 16777216.0 && Pow2(34) == 17179869184.0
    ensures Pow2(52) == TWO52 as real && Pow2(53) == TWO53 as real && Pow2(64) == TWO64 as real
  {
    assert Pow2(10) == 1024.0;
    assert Pow2(24) == 16777216.0;
    assert Pow2(34) == 17179869184.0;
    assert Pow2(44) == 17592186044416.0;
    assert Pow2(54) == 18014398509481984.0;
  }

  lemma {:induction false} Pow2Large(n: nat)
    ensures Pow2(n) >= n as real + 1.0
  {
    if n > 0 { Pow2Large(n - 1); }
  }

  lemma ExponentExists(x: real)
    requires x >= 0.0
    ensures exists e :: IsExponent(x, e)
  {
    var n := x.Floor + 1;
    Pow2Large(n);
    Pow2Monotone(n, n + 53);
    ExponentBelow(x, n);
  }

  lemma {:induction false} ExponentBelow(x: real, e: int)
    requires e >= -1074 && x < Pow2(e + 53)
    ensures exists k :: k <= e && IsExponent(x, k)
    decreases e + 1074
  {
    if e > -1074 && x < Pow2(e + 52) {
      ExponentBelow(x, e - 1);
    } else {
      assert IsExponent(x, e);
    }
  }

  lemma ExponentBound(x: real, top: int)
    requires Abs(x) < Pow2(top) && top >= -1021
    ensures Exponent(x) <= top - 53
  {
    if Exponent(x) > top - 53 { Pow2Monotone(top, Exponent(x) + 52); }
  }

  lemma ExponentUnique(x: real, a: int, b: int)
    requires IsExponent(x, a) && IsExponent(x, b)
    ensures a == b
  {
    if a < b { Pow2Monotone(a + 53, b + 52); }
    if b < a { Pow2Monotone(b + 53, a + 52); }
  }

  lemma MulMonotone(a: real, b: real, p: real)
    requires a <= b && p > 0.0
    ensures a * p <= b * p
  {
  }

  lemma TiesFacts(y: real, z: int)
    ensures -0.5 <= TiesToEven(y) as real - y <= 0.5
    ensures y >= z as real ==> TiesToEven(y) >= z
    ensures y <= z as real ==> TiesToEven(y) <= z
  {
  }

  lemma Quotient(x: real, p: real) returns (y: real)
    requires p > 0.0
    ensures y == x / p && y * p == x
  {
    y := x / p;
  }

  /** A difference of at most one half, scaled by `p`. */
  lemma HalfDifference(a: real, b: real, p: real, ap: real, bp: real)
    requires p > 0.0 && a - b <= 0.5 && ap == a * p && bp == b * p
    ensures 2.0 * (ap - bp) <= p
  {
    var half := p / 2.0;
    MulMonotone(a, b + 0.5, p);
    assert (b + 0.5) * p == bp + half;
  }

  lemma NearestError(x: real, p: real)
    requires p > 0.0
    ensures 2.0 * Abs(Nearest(x, p) - x) <= p
  {
    var y := Quotient(x, p);
    var r := TiesToEven(y) as real;
    TiesFacts(y, 0);
    HalfDifference(r, y, p, Nearest(x, p), x);
    HalfDifference(y, r, p, x, Nearest(x, p));
  }

  /** Rounding to multiples of `p` does not cross a multiple of `p`. */
  lemma NearestKeepsSide(x: real, p: real, z: int, k: real)
    requires p > 0.0 && z as real * p == k
    ensures x >= k ==> Nearest(x, p) >= k
    ensures x <= k ==> Nearest(x, p) <= k
  {
    var y := Quotient(x, p);
    TiesFacts(y, z);
    SameSide(y, TiesToEven(y) as real, z as real, p, x, Nearest(x, p), k);
  }

  /** What two numbers have in common against a third, their multiples have. */
  lemma SameSide(y: real, t: real, z: real, p: real, yp: real, tp: real, zp: real)
    requires p > 0.0 && yp == y * p && tp == t * p && zp == z * p
    requires (y >= z ==> t >= z) && (y <= z ==> t <= z)
    ensures (yp >= zp ==> tp >= zp) && (yp <= zp ==> tp <= zp)
  {
    if yp >= zp {
      Cancel(z, y, p);
      MulMonotone(z, t, p);
    }
    if yp <= zp {
      Cancel(y, z, p);
      MulMonotone(t, z, p);
    }
  }

  /** Rounding is within half a unit in the last place. */
  lemma RoundError(x: real, top: int)
    requires top >= -1021 && Abs(x) < Pow2(top)
    ensures 2.0 * Abs(Round(x) - x) <= Pow2(top - 53)
  {
    ExponentBound(x, top);
    NearestError(x, Pow2(Exponent(x)));
    Pow2Monotone(Exponent(x), top - 53);
  }

  lemma Assoc(a: real, b: real, c: real)
    ensures (a * b) * c == a * (b * c)
  {
  }

  /** An integer is a whole multiple of every smaller power of two. */
  lemma UnitMultiple(k: int, e: int) returns (z: int)
    requires e <= 0
    ensures z as real * Pow2(e) == k as real
  {
    var i := IntPow2(-e);
    z := k * i;
    Pow2Inverse(-e);
    IntPow2Real(-e);
    ProductReal(k, i);
    Assoc(k as real, i as real, Pow2(e));
  }

  /** Rounding a number with a fine enough last bit does not cross an integer. */
  lemma RoundKeepsInteger(x: real, k: int)
    requires Exponent(x) <= 0
    ensures x >= k as real ==> Round(x) >= k as real
    ensures x <= k as real ==> Round(x) <= k as real
  {
    var z := UnitMultiple(k, Exponent(x));
    NearestKeepsSide(x, Pow2(Exponent(x)), z, k as real);
  }

  lemma Cancel(a: real, b: real, p: real)
    requires p > 0.0 && a * p <= b * p
    ensures a <= b
  {
    if b < a { MulStrict(b, a, p); }
  }

  lemma MulStrict(a: real, b: real, p: real)
    requires a < b && p > 0.0
    ensures a * p < b * p
  {
  }

  function IntPow2(k: nat): (p: nat)
    ensures p > 0
  {
    if k == 0 then 1 else 2 * IntPow2(k - 1)
  }

  lemma {:induction false} IntPow2Real(k: nat)
    ensures IntPow2(k) as real == Pow2(k)
  {
    if k > 0 { IntPow2Real(k - 1); }
  }

  // ----- Integers -----

  /** The distance between neighbouring doubles at an integer. */
  function Spacing(n: nat): (s: nat)
    ensures s > 0
  {
    if n < TWO53 then 1 else 2 * Spacing(n / 2)
  }

  function Magnitude(n: int): nat {
    if n < 0 then -n else n
  }

  /** `n as f64` for an integer. */
  function RoundInt(n: int): int {
    var s := Spacing(Magnitude(n));
    TiesToEven(n as real / s as real) * s
  }

  lemma {:induction false} SpacingExponent(n: nat) returns (k: nat)
    requires n >= TWO52
    ensures Spacing(n) as real == Pow2(k) && IsExponent(n as real, k)
  {
    BigPowers();
    if n < TWO53 {
      k := 0;
    } else {
      k := SpacingExponent(n / 2);
      k := k + 1;
      Pow2Next(k - 1);
      Pow2Next(k + 51);
      Pow2Next(k + 52);
      IntPow2Real(k + 52);
      assert n < 2 * (n / 2) + 2 && n / 2 < IntPow2(k + 52);
      assert IntPow2(k + 53) == 2 * IntPow2(k + 52);
      IntPow2Real(k + 53);
    }
  }

  /** Rounding an integer as a real is the integer computation. */
  lemma RoundOfInt(n: int)
    ensures Round(n as real) == RoundInt(n) as real
  {
    var m := Magnitude(n);
    if m >= TWO52 {
      var k := SpacingExponent(m);
      ExponentUnique(m as real, k, Exponent(n as real));
      RoundOfIntAt(n, k);
    } else {
      BigPowers();
      ExponentBound(n as real, 52);
      SmallIntExact(n);
      SmallRound(n);
    }
  }

  lemma SmallRound(n: int)
    requires Magnitude(n) < TWO53
    ensures RoundInt(n) == n
  {
    assert Spacing(Magnitude(n)) == 1;
    assert n as real / 1.0 == n as real;
    assert TiesToEven(n as real) == n;
  }

  lemma RoundOfIntAt(n: int, k: nat)
    requires Spacing(Magnitude(n)) as real == Pow2(k) && k == Exponent(n as real)
    ensures Round(n as real) == RoundInt(n) as real
  {
    var s := Spacing(Magnitude(n));
    ProductReal(TiesToEven(n as real / s as real), s);
  }

  lemma ProductReal(a: int, b: int)
    ensures (a * b) as real == a as real * b as real
  {
  }

  lemma SmallIntExact(n: int)
    requires Exponent(n as real) <= 0
    ensures Round(n as real) == n as real
  {
    RoundKeepsInteger(n as real, n);
  }
}
