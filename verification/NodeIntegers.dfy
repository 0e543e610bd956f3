/** The Node conversion of timespans, restated without floating-point numbers. */
module NodeIntegers {
  import opened Wrappers
  import opened Values
  import opened Timespans
  import opened Floats
  import opened NodeTimespans

  const TWO63 := 0x8000_0000_0000_0000
  const COARSE := 0x2_0000_0000 * NANOS_PER_SEC

  /** From 2^33 seconds on, a quotient 512 nanoseconds below a whole second is rounded up to it. */
  function Carry(r: int): int {
    if r >= COARSE then 512 else if r <= -COARSE then -512 else 0
  }

  /** The whole seconds of a timespan. */
  function WholeSeconds(nanos: int): int {
    var r := RoundInt(nanos);
    TruncDiv(r + Carry(r), NANOS_PER_SEC)
  }

  /** The length that a timespan has after its conversion: the nanoseconds are rounded to a double, less
      what rounding the whole seconds added. */
  function Settled(nanos: int): int {
    var s := WholeSeconds(nanos) * NANOS_PER_SEC;
    RoundInt(nanos) - (RoundInt(s) - s)
  }

  /** The timespans that are kept: up to 2^62 the doubles; beyond, where doubles are 1024 apart, the
      multiples of 1024 if the whole seconds are even, and otherwise whatever is a multiple of 2048
      away from the whole seconds. */
  predicate Survives(nanos: int) {
    if Magnitude(nanos) <= TWO62 then Representable(nanos)
    else if WholeSeconds(nanos) % 2 == 0 then nanos % 1024 == 0
    else (nanos - WholeSeconds(nanos) * NANOS_PER_SEC) % 2048 == 0
  }

  // ----- Rounding is odd -----

  lemma TiesNegate(y: real)
    ensures TiesToEven(-y) == -TiesToEven(y)
  {
    assert (-y).Floor == -(y.Floor) - (if y.Floor as real == y then 0 else 1);
  }

  lemma NearestNegate(x: real, p: real)
    requires p > 0.0
    ensures Nearest(-x, p) == -Nearest(x, p)
  {
    var y := Quotient(x, p);
    var z := Quotient(-x, p);
    NegatedFactor(y, z, p);
    TiesNegate(y);
    NegatedProduct(TiesToEven(y) as real, p);
  }

  lemma NegatedFactor(y: real, z: real, p: real)
    requires p > 0.0 && z * p == -(y * p)
    ensures z == -y
  {
    NegatedProduct(y, p);
    Cancel(z, -y, p);
    Cancel(-y, z, p);
  }

  lemma NegatedProduct(a: real, p: real)
    ensures (-a) * p == -(a * p)
  {
  }

  lemma RoundNegate(x: real)
    ensures Round(-x) == -Round(x)
  {
    ExponentUnique(Abs(x), Exponent(x), Exponent(-x));
    NearestNegate(x, Pow2(Exponent(x)));
  }

  lemma RoundIntNegate(n: int)
    ensures RoundInt(-n) == -RoundInt(n)
  {
    RoundOfInt(n);
    RoundOfInt(-n);
    RoundNegate(n as real);
  }

  // ----- Doubles beyond 2^62 -----

  lemma CoarseSpacing(n: nat)
    requires TWO62 <= n < TWO63
    ensures Spacing(n) == 1024
  {
    var a := n / 2;
    var b := a / 2;
    var c := b / 2;
    var d := c / 2;
    var e := d / 2;
    var f := e / 2;
    var g := f / 2;
    var h := g / 2;
    var i := h / 2;
    var j := i / 2;
    assert Spacing(j) == 1 && Spacing(i) == 2 && Spacing(h) == 4 && Spacing(g) == 8;
    assert Spacing(f) == 16 && Spacing(e) == 32 && Spacing(d) == 64 && Spacing(c) == 128;
    assert Spacing(b) == 256 && Spacing(a) == 512;
  }

  lemma TiesEven(y: real)
    ensures -0.5 <= TiesToEven(y) as real - y <= 0.5
    ensures TiesToEven(y) as real - y == 0.5 || TiesToEven(y) as real - y == -0.5 ==> TiesToEven(y) % 2 == 0
  {
  }

  /** Beyond 2^62 rounding goes to the nearest multiple of 1024, and from the middle to one of 2048. */
  lemma RoundCoarse(n: int)
    requires TWO62 <= Magnitude(n) <= TWO63
    ensures RoundInt(n) % 1024 == 0
    ensures -512 <= RoundInt(n) - n <= 512
    ensures RoundInt(n) - n == 512 || RoundInt(n) - n == -512 ==> RoundInt(n) % 2048 == 0
  {
    if Magnitude(n) < TWO63 {
      CoarseSpacing(Magnitude(n));
      RoundIntForm(n, 1024);
      CoarseMultiple(n, TiesToEven(n as real / 1024.0), RoundInt(n));
    } else {
      ExtremeDouble(n);
    }
  }

  lemma RoundIntForm(n: int, s: nat)
    requires s > 0 && Spacing(Magnitude(n)) == s
    ensures RoundInt(n) == TiesToEven(n as real / s as real) * s
  {
  }

  lemma ExtremeDouble(n: int)
    requires Magnitude(n) == TWO63
    ensures RoundInt(n) == n && n % 2048 == 0
  {
    ScaledDouble(n / 1024);
  }

  lemma CoarseMultiple(n: int, t: int, r: int)
    requires t == TiesToEven(n as real / 1024.0) && r == t * 1024
    ensures r % 1024 == 0 && -512 <= r - n <= 512
    ensures r - n == 512 || r - n == -512 ==> r % 2048 == 0
  {
    TiesEven(n as real / 1024.0);
    assert t % 2 == 0 ==> r == (t / 2) * 2048;
  }

  // ----- The seconds -----

  /** The spacing of doubles at an integer is a power of two, the same for the rounded integer. */
  lemma {:induction false} SpacingForm(n: nat, top: nat) returns (k: nat)
    ensures Spacing(n) == IntPow2(k) && n < TWO53 * Spacing(n)
    ensures n < TWO53 * IntPow2(top) ==> k <= top
  {
    if n < TWO53 {
      k := 0;
    } else {
      k := SpacingForm(n / 2, if top > 0 then top - 1 else 0);
      k := k + 1;
      assert n < 2 * (n / 2) + 2;
    }
  }

  lemma QuotientBound(n: int, s: nat)
    requires s > 0 && Magnitude(n) < TWO53 * s
    ensures -TWO53 <= TiesToEven(n as real / s as real) <= TWO53
  {
    var q := n as real / s as real;
    assert q * s as real == n as real;
    Cancel(q, TWO53 as real, s as real);
    Cancel((-TWO53) as real, q, s as real);
    TiesFacts(q, TWO53);
    TiesFacts(q, -TWO53);
  }

  /** If the quotient's rounding error is below the gap to the next second, truncation is exact. */
  lemma FloorSeconds(r: nat, top: int, gap: nat)
    requires -1021 <= top <= 53 && r as real / NANOS < Pow2(top)
    requires (r / NANOS_PER_SEC + 1) * NANOS_PER_SEC - r >= gap
    requires Pow2(top - 53) * NANOS < 2.0 * gap as real
    ensures Trunc(Round(r as real / NANOS)) == r / NANOS_PER_SEC
  {
    var q := r as real / NANOS;
    var t := r / NANOS_PER_SEC;
    RoundError(q, top);
    ExponentBound(q, top);
    SecondQuotient(r, gap, q);
    RoundKeepsInteger(q, t);
    TruncBelow(q, Round(q), t, gap as real / NANOS, Pow2(top - 53));
  }

  lemma SecondQuotient(r: nat, gap: nat, q: real)
    requires q == r as real / NANOS && (r / NANOS_PER_SEC + 1) * NANOS_PER_SEC - r >= gap
    ensures (r / NANOS_PER_SEC) as real <= q && q + gap as real / NANOS <= (r / NANOS_PER_SEC + 1) as real
  {
  }

  lemma TruncBelow(q: real, rounded: real, t: nat, gap: real, w: real)
    requires t as real <= rounded && q + gap <= (t + 1) as real
    requires 2.0 * Abs(rounded - q) <= w && w < 2.0 * gap
    ensures Trunc(rounded) == t
  {
  }

  lemma Pow2At29()
    ensures Pow2(-29) * 536870912.0 == 1.0
  {
    Powers();
    Pow2Next(-30);
  }

  /** Scaling a power of two down by 2^29. */
  lemma {:induction false} ShiftDown(k: nat)
    ensures Pow2(k - 29) * 536870912.0 == Pow2(k)
    ensures Pow2(k + 24) == Pow2(k) * 16777216.0
  {
    if k == 0 {
      BigPowers();
      Pow2At29();
    } else {
      ShiftDown(k - 1);
      Pow2Next(k - 30);
      Pow2Next(k - 1);
      Pow2Next(k + 23);
    }
  }

  /** A second is a whole number of spacings up to 512. */
  lemma SecondMultiple(k: nat) returns (c: nat)
    requires k <= 9
    ensures NANOS_PER_SEC == c * IntPow2(k) && IntPow2(k) <= 512
  {
    assert IntPow2(9) == 512 && IntPow2(8) == 256 && IntPow2(7) == 128 && IntPow2(6) == 64 && IntPow2(5) == 32;
    assert IntPow2(4) == 16 && IntPow2(3) == 8 && IntPow2(2) == 4 && IntPow2(1) == 2 && IntPow2(0) == 1;
    c := NANOS_PER_SEC / IntPow2(k);
  }

  lemma MultipleGap(t: int, c: int, a: int, s: nat)
    requires s > 0 && t * (c * s) - a * s > 0
    ensures t * (c * s) - a * s >= s
  {
    var d := t * c - a;
    assert t * (c * s) - a * s == d * s;
    assert d >= 1;
  }

  /** Below 2^62 the distance to the next second exceeds the rounding error. */
  lemma FineSeconds(m: nat)
    requires m < TWO62
    ensures 0 <= RoundInt(m) <= TWO62
    ensures Trunc(Round(RoundInt(m) as real / NANOS)) == RoundInt(m) / NANOS_PER_SEC
  {
    var s := Spacing(m);
    assert IntPow2(9) == 512;
    var k := SpacingForm(m, 9);
    var c := SecondMultiple(k);
    var a := TiesToEven(m as real / s as real);
    RoundIntForm(m, s);
    QuotientBound(m, s);
    FineBound(a, s, m);
    var r := RoundInt(m);
    var t := r / NANOS_PER_SEC + 1;
    MultipleGap(t, c, a, s);
    IntPow2Real(k);
    ShiftDown(k);
    FineQuotient(r, s, k);
    FloorSeconds(r, k + 24, s);
  }

  lemma FineBound(a: int, s: nat, m: nat)
    requires 0 < s <= 512 && a <= TWO53 && a == TiesToEven(m as real / s as real)
    ensures 0 <= a * s <= TWO53 * s <= TWO62
  {
    NonNegativeTies(m, s);
    ProductOrder(a, TWO53, s);
  }

  lemma NonNegativeTies(m: nat, s: nat)
    requires s > 0
    ensures TiesToEven(m as real / s as real) >= 0
  {
    var q := m as real / s as real;
    assert q * s as real == m as real;
    Cancel(0.0, q, s as real);
    TiesFacts(q, 0);
  }

  lemma ProductOrder(a: int, b: int, s: nat)
    requires 0 <= a <= b
    ensures 0 <= a * s <= b * s
  {
  }

  lemma FineQuotient(r: nat, s: nat, k: nat)
    requires r <= TWO53 * s && s as real == Pow2(k) && Pow2(k + 24) == Pow2(k) * 16777216.0
    ensures r as real / NANOS < Pow2(k + 24)
  {
  }

  /** From 2^62 on both the rounded nanoseconds and the seconds are multiples of 512. */
  lemma CoarseSeconds(m: nat)
    requires TWO62 <= m <= TWO63
    ensures TWO62 <= RoundInt(m) <= TWO63
    ensures Trunc(Round(RoundInt(m) as real / NANOS)) == (RoundInt(m) + Carry(RoundInt(m))) / NANOS_PER_SEC
  {
    RoundCoarse(m);
    var r := RoundInt(m);
    MultipleBound(r, m);
    CoarseQuotient(r);
  }

  lemma MultipleBound(r: int, m: nat)
    requires r % 1024 == 0 && -512 <= r - m <= 512 && TWO62 <= m <= TWO63
    ensures TWO62 <= r <= TWO63
  {
  }

  lemma CoarseQuotient(r: int)
    requires r % 1024 == 0 && TWO62 <= r <= TWO63
    ensures Trunc(Round(r as real / NANOS)) == (r + Carry(r)) / NANOS_PER_SEC
  {
    if r < COARSE {
      LowCoarse(r);
    } else {
      HighCoarse(r);
    }
  }

  /** The distance of a multiple of 512 to the next second. */
  lemma SecondGap(r: nat)
    requires r % 512 == 0
    ensures (r / NANOS_PER_SEC + 1) * NANOS_PER_SEC - r >= 512
    ensures ((r / NANOS_PER_SEC + 1) * NANOS_PER_SEC - r) % 512 == 0
  {
  }

  lemma LowCoarse(r: nat)
    requires r % 512 == 0 && r < COARSE
    ensures Trunc(Round(r as real / NANOS)) == r / NANOS_PER_SEC
  {
    SmallPowers();
    SecondGap(r);
    FloorSeconds(r, 33, 512);
  }

  lemma HighCoarse(r: nat)
    requires r % 512 == 0 && COARSE <= r <= TWO63
    ensures Trunc(Round(r as real / NANOS)) == (r + 512) / NANOS_PER_SEC
  {
    SmallPowers();
    SecondGap(r);
    var t := r / NANOS_PER_SEC + 1;
    if t * NANOS_PER_SEC - r >= 1024 {
      FloorSeconds(r, 34, 1024);
    } else {
      RoundUp(r as real / NANOS, t);
    }
  }

  lemma SmallPowers()
    ensures Pow2(33) == 8589934592.0 && Pow2(34) == 17179869184.0
    ensures Pow2(-20) * 1048576.0 == 1.0 && Pow2(-19) * 524288.0 == 1.0
  {
    BigPowers();
    Pow2Next(33);
    Powers();
    Pow2Next(-20);
  }

  /** A quotient beyond 2^33 that is closer to a whole number than to the double below is rounded to it. */
  lemma RoundUp(q: real, t: int)
    requires 8589934592.0 <= q < 17179869184.0 && q <= t as real && t as real - q < 0.00000095
    ensures Round(q) == t as real
  {
    SmallPowers();
    ExponentBound(q, 34);
    var e := Exponent(q);
    if e < -19 { Pow2Monotone(e + 53, 33); }
    RoundError(q, 34);
    RoundKeepsInteger(q, t);
    GridBelow(TiesToEven(q / Pow2(-19)), t, Pow2(-19));
  }

  /** A multiple of 2^-19 below a whole number is at least 2^-19 below. */
  lemma GridBelow(a: int, t: int, p: real)
    requires p > 0.0 && p * 524288.0 == 1.0
    ensures a as real * p < t as real ==> a as real * p <= t as real - p
  {
    var b := t * 524288;
    assert t as real == b as real * p;
    if a as real * p < t as real {
      if a >= b { MulMonotone(b as real, a as real, p); }
      MulMonotone(a as real, (b - 1) as real, p);
      assert (b - 1) as real * p == b as real * p - p;
    }
  }

  lemma NonNegativeSeconds(m: nat)
    requires m <= TWO63
    ensures -TWO63 <= RoundInt(m) <= TWO63
    ensures Trunc(Round(RoundInt(m) as real / NANOS)) == TruncDiv(RoundInt(m) + Carry(RoundInt(m)), NANOS_PER_SEC)
  {
    if m < TWO62 { FineSeconds(m); } else { CoarseSeconds(m); }
  }

  /** The seconds computed in floating point are the integer ones, for every `i64`. */
  lemma SecondsInteger(nanos: I64)
    ensures NodeSeconds(nanos) == WholeSeconds(nanos)
    ensures -TWO63 <= RoundInt(nanos) <= TWO63
  {
    RoundOfInt(nanos);
    var m := Magnitude(nanos);
    NonNegativeSeconds(m);
    if nanos < 0 {
      RoundIntNegate(nanos);
      NegativeSeconds(RoundInt(m));
    }
  }

  lemma NegativeSeconds(r: int)
    ensures Trunc(Round((-r) as real / NANOS)) == -Trunc(Round(r as real / NANOS))
    ensures TruncDiv(-r + Carry(-r), NANOS_PER_SEC) == -TruncDiv(r + Carry(r), NANOS_PER_SEC)
  {
    var q := r as real / NANOS;
    assert (-r) as real / NANOS == -q;
    RoundNegate(q);
  }

  /** The conversion of every `i64`, in integers. */
  lemma ToDurationSettled(nanos: I64)
    ensures ToDuration(nanos).Some? && ToDuration(nanos).value.WholeNanoseconds() == Settled(nanos)
  {
    ToDurationGeneral(nanos);
    SecondsInteger(nanos);
  }

  // ----- Which timespans are kept -----

  lemma RoundBound(n: int)
    requires Magnitude(n) <= TWO62
    ensures Magnitude(RoundInt(n)) <= TWO62
  {
    if Magnitude(n) == TWO62 {
      RoundCoarse(n);
    } else {
      FineSeconds(Magnitude(n));
      if n < 0 { RoundIntNegate(n); }
    }
  }

  /** Up to 2^62 the whole seconds are a double, so only the nanoseconds are rounded. */
  lemma FineSettled(n: int)
    requires Magnitude(n) <= TWO62
    ensures Settled(n) == RoundInt(n)
  {
    RoundBound(n);
    var k := WholeSeconds(n);
    assert -4611686018 <= k <= 4611686018;
    PowerRepresentable(k * 1953125, 9);
    assert IntPow2(9) == 512;
    RepresentableIff(k * NANOS_PER_SEC);
  }

  /** `r` is the multiple of 1024 nearest to `n`, and from the middle a multiple of 2048. */
  predicate Grid(n: int, r: int) {
    && r % 1024 == 0 && -512 <= r - n <= 512
    && (r - n == 512 || r - n == -512 ==> r % 2048 == 0)
  }

  /** `rs` is `k` seconds, `s` nanoseconds, rounded: even seconds are a double, odd ones are half way
      between two. */
  predicate SecondsGrid(k: int, s: int, rs: int) {
    if k % 2 == 0 then s % 1024 == 0 && rs == s
    else s % 1024 == 512 && rs % 2048 == 0 && (rs - s == 512 || rs - s == -512)
  }

  lemma NanosGrid(n: int)
    requires TWO62 <= Magnitude(n) <= TWO63
    ensures Grid(n, RoundInt(n))
  {
    RoundCoarse(n);
  }

  lemma SecondsOnGrid(n: int, r: int, k: int)
    requires TWO62 < Magnitude(n) <= TWO63 && Grid(n, r) && k == TruncDiv(r + Carry(r), NANOS_PER_SEC)
    ensures SecondsGrid(k, k * NANOS_PER_SEC, RoundInt(k * NANOS_PER_SEC))
  {
    CoarseRange(n, r);
    if k % 2 == 0 {
      EvenSeconds(k);
    } else {
      OddSeconds(k, r);
      OddGrid(k * NANOS_PER_SEC);
    }
  }

  lemma OddGrid(s: int)
    requires TWO62 <= Magnitude(s) <= TWO63 && s % 1024 == 512
    ensures SecondsGrid(1, s, RoundInt(s))
  {
    NanosGrid(s);
    GridMiddle(s, RoundInt(s));
  }

  lemma GridMiddle(s: int, r: int)
    requires Grid(s, r) && s % 1024 == 512
    ensures r % 2048 == 0 && (r - s == 512 || r - s == -512)
  {
  }

  lemma KeptArithmetic(n: int, r: int, k: int, s: int, rs: int)
    requires Grid(n, r) && SecondsGrid(k, s, rs)
    ensures r - (rs - s) == n <==> if k % 2 == 0 then n % 1024 == 0 else (n - s) % 2048 == 0
  {
    if k % 2 == 0 {
      EvenArithmetic(n, r);
    } else {
      HalfArithmetic(n, r, s, rs);
    }
  }

  lemma EvenArithmetic(n: int, r: int)
    requires Grid(n, r)
    ensures r == n <==> n % 1024 == 0
  {
  }

  lemma HalfArithmetic(n: int, r: int, s: int, rs: int)
    requires Grid(n, r) && s % 1024 == 512 && rs % 2048 == 0 && (rs - s == 512 || rs - s == -512)
    ensures r - (rs - s) == n <==> (n - s) % 2048 == 0
  {
    if r - (rs - s) == n {
      SameResidue(r, rs);
      assert n - s == r - rs;
    }
    if (n - s) % 2048 == 0 {
      ShiftedResidue(n, s);
      GridMiddle(n, r);
      SameResidue(r, rs);
      SameResidue(r - rs, n - s);
    }
  }

  lemma SameResidue(a: int, b: int)
    requires a % 2048 == 0 && b % 2048 == 0
    ensures (a - b) % 2048 == 0
  {
  }

  lemma ShiftedResidue(n: int, s: int)
    requires (n - s) % 2048 == 0 && s % 1024 == 512
    ensures n % 1024 == 512
  {
    var a, b := (n - s) / 2048, s / 1024;
    assert n == (2 * a + b) * 1024 + 512;
  }

  lemma CoarseRange(n: int, r: int)
    requires TWO62 < Magnitude(n) <= TWO63 && r % 1024 == 0 && -512 <= r - n <= 512
    ensures TWO62 <= Magnitude(r) <= TWO63
    ensures 4611686018 <= Magnitude(TruncDiv(r + Carry(r), NANOS_PER_SEC)) <= 9223372036
  {
  }

  lemma EvenSeconds(k: int)
    requires k % 2 == 0 && Magnitude(k) <= 9223372036
    ensures RoundInt(k * NANOS_PER_SEC) == k * NANOS_PER_SEC && k * NANOS_PER_SEC % 1024 == 0
  {
    var h := k / 2;
    EvenProduct(k, h);
    ScaledDouble(h * 1953125);
  }

  lemma EvenProduct(k: int, h: int)
    requires k == 2 * h
    ensures k * NANOS_PER_SEC == h * 1953125 * 1024 && (h * 1953125 * 1024) % 1024 == 0
  {
    var m := h * 1953125;
    assert m * 1024 / 1024 == m;
  }

  lemma ScaledDouble(m: int)
    requires Magnitude(m) <= TWO53
    ensures RoundInt(m * 1024) == m * 1024
  {
    var k := 10;
    assert IntPow2(k) == 1024;
    PowerRepresentable(m, k);
    RepresentableIff(m * 1024);
  }

  lemma OddSeconds(k: int, r: int)
    requires k % 2 == 1 && 4611686018 <= Magnitude(k) <= 9223372036
    requires k == TruncDiv(r + Carry(r), NANOS_PER_SEC)
    ensures k * NANOS_PER_SEC % 1024 == 512 && TWO62 <= Magnitude(k * NANOS_PER_SEC) <= TWO63
    ensures TWO62 + 1024 < Magnitude(r) <= TWO63 - 1024
  {
    var h := k / 2;
    assert k * NANOS_PER_SEC == (h * 1953125 + 976562) * 1024 + 512;
  }

  /** The conversion keeps exactly the surviving lengths. */
  lemma SettledIff(n: int)
    requires Magnitude(n) <= TWO63
    ensures Settled(n) == n <==> Survives(n)
  {
    if Magnitude(n) <= TWO62 {
      FineSettled(n);
      RepresentableIff(n);
    } else {
      var r, k := RoundInt(n), WholeSeconds(n);
      NanosGrid(n);
      SecondsOnGrid(n, r, k);
      KeptArithmetic(n, r, k, k * NANOS_PER_SEC, RoundInt(k * NANOS_PER_SEC));
    }
  }

  /** A Node timespan comes back from its duration exactly when it survives: for every `i64`. */
  lemma NodeRoundTrip(nanos: I64)
    ensures ToDuration(nanos).Some?
    ensures FromDuration(ToDuration(nanos).value) == Some(nanos) <==> Survives(nanos)
  {
    ToDurationSettled(nanos);
    SettledIff(nanos);
  }

  /** The bound 2^53 is sharp: beyond it every odd number of nanoseconds is lost. */
  lemma NodeInexact(nanos: I64)
    requires TWO53 < Magnitude(nanos) && nanos % 2 == 1
    ensures ToDuration(nanos).Some?
    ensures FromDuration(ToDuration(nanos).value) != Some(nanos)
  {
    NodeRoundTrip(nanos);
    OddLost(nanos);
  }

  lemma OddLost(n: int)
    requires TWO53 < Magnitude(n) && n % 2 == 1
    ensures !Survives(n)
  {
    OddArithmetic(n, WholeSeconds(n));
  }

  lemma OddArithmetic(n: int, k: int)
    requires n % 2 == 1
    ensures n % 1024 != 0 && (n - k * NANOS_PER_SEC) % 2048 != 0
  {
    assert k * NANOS_PER_SEC == 2 * (k * 500_000_000);
  }

  // ----- Repeated conversion -----

  lemma NextArithmetic(r: int, k: int, s: int, rs: int, rx: int)
    requires r % 1024 == 0 && SecondsGrid(k, s, rs) && (k % 2 == 0 || r % 2048 == 0)
    requires Grid(r - (rs - s), rx)
    ensures rx == r
    ensures if k % 2 == 0 then (r - (rs - s)) % 1024 == 0 else (r - (rs - s) - s) % 2048 == 0
  {
  }

  /** If the rounded nanoseconds are a multiple of 2048, or the seconds are even, the result is kept. */
  lemma SettledKept(n: int)
    requires TWO62 < Magnitude(n) <= TWO63
    requires WholeSeconds(n) % 2 == 0 || RoundInt(n) % 2048 == 0
    ensures Magnitude(Settled(n)) <= TWO63 && Survives(Settled(n))
  {
    var r, k := RoundInt(n), WholeSeconds(n);
    var s, rs := k * NANOS_PER_SEC, RoundInt(k * NANOS_PER_SEC);
    NanosGrid(n);
    SecondsOnGrid(n, r, k);
    SettledRange(n, r, k, s, rs);
    var x := r - (rs - s);
    NanosGrid(x);
    NextArithmetic(r, k, s, rs, RoundInt(x));
    RepresentableIff(x);
  }

  lemma SettledRange(n: int, r: int, k: int, s: int, rs: int)
    requires TWO62 < Magnitude(n) <= TWO63 && Grid(n, r) && SecondsGrid(k, s, rs)
    requires k == TruncDiv(r + Carry(r), NANOS_PER_SEC)
    ensures TWO62 <= Magnitude(r - (rs - s)) <= TWO63
    ensures k % 2 == 1 ==> TWO62 < Magnitude(r - (rs - s))
  {
    CoarseRange(n, r);
    if k % 2 == 1 { OddSeconds(k, r); }
  }

  /** After two conversions the length is one that the conversion keeps. */
  lemma SecondTripKept(nanos: I64)
    ensures Magnitude(Settled(nanos)) <= TWO63
    ensures Survives(Settled(Settled(nanos)))
  {
    if Magnitude(nanos) <= TWO62 {
      FineSettled(nanos);
      RoundBound(nanos);
      RoundIntIdempotent(nanos);
      FineSettled(RoundInt(nanos));
      RepresentableIff(RoundInt(nanos));
    } else if WholeSeconds(nanos) % 2 == 0 || RoundInt(nanos) % 2048 == 0 {
      SettledKept(nanos);
      SettledIff(Settled(nanos));
    } else {
      ThenKept(nanos);
    }
  }

  lemma ThenKept(n: int)
    requires TWO62 < Magnitude(n) <= TWO63
    requires WholeSeconds(n) % 2 == 1 && RoundInt(n) % 2048 != 0
    ensures Magnitude(Settled(n)) <= TWO63 && Survives(Settled(Settled(n)))
  {
    var r, k := RoundInt(n), WholeSeconds(n);
    var s, rs := k * NANOS_PER_SEC, RoundInt(k * NANOS_PER_SEC);
    NanosGrid(n);
    SecondsOnGrid(n, r, k);
    SettledRange(n, r, k, s, rs);
    var x := r - (rs - s);
    NanosGrid(x);
    MiddleStep(r, rs - s, RoundInt(x));
    SettledKept(x);
  }

  lemma MiddleStep(r: int, f: int, rx: int)
    requires r % 1024 == 0 && (f == 512 || f == -512) && Grid(r - f, rx)
    ensures rx % 2048 == 0
  {
    GridMiddle(r - f, rx);
  }

  /** Rounding to a double twice is rounding once. */
  lemma RoundIntIdempotent(n: int)
    ensures RoundInt(RoundInt(n)) == RoundInt(n)
  {
    var m := Magnitude(n);
    var k := SpacingForm(m, 0);
    QuotientBound(n, Spacing(m));
    RoundIntForm(n, Spacing(m));
    PowerRepresentable(TiesToEven(n as real / Spacing(m) as real), k);
    RepresentableIff(RoundInt(n));
  }
}
