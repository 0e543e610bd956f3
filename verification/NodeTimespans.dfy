/** Timespans of the Node binding, which pass through `f64`. */
module NodeTimespans {
  import opened Wrappers
  import opened Values
  import opened Timespans
  import opened Floats

  function Saturate32(n: int): I32 {
    if n < -0x8000_0000 then -0x8000_0000 else if n > 0x7fff_ffff then 0x7fff_ffff else n
  }

  function Saturate64(n: int): I64 {
    if n < MIN64 then MIN64 else if n > MAX64 then MAX64 else n
  }

  /** `Duration::new`: carries whole seconds over and gives both parts the same sign; `None` is the
      overflow check, which aborts. */
  function NewDuration(secs: I64, nanos: I32): Option<Duration> {
    var s, n := secs + TruncDiv(nanos, NANOS_PER_SEC), TruncRem(nanos, NANOS_PER_SEC);
    TruncFacts(nanos, NANOS_PER_SEC);
    if !IsI64(s) then Option.None
    else if s > 0 && n < 0 then Some(RawDuration.Duration(s - 1, n + NANOS_PER_SEC))
    else if s < 0 && n > 0 then Some(RawDuration.Duration(s + 1, n - NANOS_PER_SEC))
    else Some(RawDuration.Duration(s, n))
  }

  const NANOS: real := 1_000_000_000.0

  /** The whole seconds computed for a number of nanoseconds. */
  ghost function NodeSeconds(nanos: I64): int {
    Trunc(Round(Round(nanos as real) / NANOS))
  }

  ghost function NodeRest(nanos: I64): real {
    Round(Round(nanos as real) - Round(NodeSeconds(nanos) as real * NANOS))
  }

  /** From a Node timespan to a duration. */
  ghost function ToDuration(nanos: I64): Option<Duration> {
    NewDuration(Saturate64(NodeSeconds(nanos)), Saturate32(Trunc(NodeRest(nanos))))
  }

  /** From a duration to a Node timespan. */
  function FromDuration(d: Duration): Option<I64> {
    if IsI64(d.WholeNanoseconds()) then Some(d.WholeNanoseconds()) else Option.None
  }

  lemma NewDurationMeaning(secs: I64, nanos: I32)
    requires -0x4_0000_0000 <= secs <= 0x4_0000_0000
    ensures NewDuration(secs, nanos).Some?
    ensures NewDuration(secs, nanos).value.WholeNanoseconds() == secs * NANOS_PER_SEC + nanos
  {
  }

  // ----- Which integers are doubles -----

  /** At most 53 bits remain once trailing zero bits are removed. */
  predicate Representable(n: int)
    decreases Magnitude(n)
  {
    Magnitude(n) <= TWO53 || (n % 2 == 0 && Representable(n / 2))
  }

  lemma EvenRound(n: int)
    requires n % 2 == 0 && Magnitude(n) >= TWO53
    ensures RoundInt(n) == 2 * RoundInt(n / 2)
  {
    var s, h := Spacing(Magnitude(n)), Spacing(Magnitude(n / 2));
    assert Magnitude(n) / 2 == Magnitude(n / 2) && s == 2 * h;
    HalfQuotient(n, h);
    TwiceProduct(TiesToEven((n / 2) as real / h as real), h);
  }

  lemma HalfQuotient(n: int, h: int)
    requires n % 2 == 0 && h > 0
    ensures n as real / (2 * h) as real == (n / 2) as real / h as real
  {
    var q := (n / 2) as real / h as real;
    assert q * h as real == (n / 2) as real;
    assert q * (2 * h) as real == n as real;
  }

  lemma TwiceProduct(a: int, h: int)
    ensures a * (2 * h) == 2 * (a * h)
  {
  }

  lemma RoundIntEven(n: int) returns (half: int)
    requires Magnitude(n) >= TWO53
    ensures RoundInt(n) == 2 * half
  {
    var m := Magnitude(n);
    var a, h := TiesToEven(n as real / Spacing(m) as real), Spacing(m / 2);
    TwiceProduct(a, h);
    half := a * h;
    assert Spacing(m) == 2 * h;
  }

  lemma OddRound(n: int)
    requires n % 2 == 1 && Magnitude(n) >= TWO53
    ensures RoundInt(n) != n
  {
    var half := RoundIntEven(n);
  }

  lemma EvenRoundIff(n: int)
    requires n % 2 == 0 && Magnitude(n) >= TWO53
    ensures RoundInt(n) == n <==> RoundInt(n / 2) == n / 2
  {
    EvenRound(n);
  }

  /** Converting an integer to `f64` keeps it exactly when it is representable. */
  lemma {:induction false} RepresentableIff(n: int)
    ensures RoundInt(n) == n <==> Representable(n)
    decreases Magnitude(n)
  {
    if Magnitude(n) < TWO53 {
      SmallRound(n);
    } else if n % 2 == 0 {
      EvenRoundIff(n);
      RepresentableIff(n / 2);
    } else {
      OddRound(n);
    }
  }

  // ----- The conversion -----

  lemma RoundIntError(n: int)
    requires -TWO64 < n < TWO64
    ensures -1024 <= RoundInt(n) - n <= 1024
  {
    BigPowers();
    Powers();
    RoundOfInt(n);
    RoundError(n as real, 64);
  }

  /** The seconds are the exact quotient up to one and the rounding error. */
  lemma SecondsError(nanos: I64)
    ensures var q := RoundInt(nanos) as real / NANOS;
            && -1.000001 < NodeSeconds(nanos) as real - q < 1.000001
            && (q >= 0.0 ==> NodeSeconds(nanos) as real <= q + 0.000001)
            && (q <= 0.0 ==> NodeSeconds(nanos) as real >= q - 0.000001)
  {
    BigPowers();
    Powers();
    RoundIntError(nanos);
    RoundOfInt(nanos);
    var q := RoundInt(nanos) as real / NANOS;
    RoundError(q, 34);
    ExponentBound(q, 34);
    RoundKeepsInteger(q, 0);
  }

  /** The rest is the exact difference: it is a small integer, so no rounding happens. */
  lemma RestExact(nanos: I64)
    ensures var s := NodeSeconds(nanos) * NANOS_PER_SEC;
            && -0x4_0000_0000 <= NodeSeconds(nanos) <= 0x4_0000_0000
            && -0x8000_0000 < RoundInt(nanos) - RoundInt(s) < 0x7fff_ffff
            && NodeRest(nanos) == (RoundInt(nanos) - RoundInt(s)) as real
  {
    SecondsError(nanos);
    RoundIntError(nanos);
    var s := NodeSeconds(nanos) * NANOS_PER_SEC;
    RoundIntError(s);
    RoundOfInt(nanos);
    RoundOfInt(s);
    assert s as real == NodeSeconds(nanos) as real * NANOS;
    BigPowers();
    var d := RoundInt(nanos) - RoundInt(s);
    ExponentBound(d as real, 53);
    SmallIntExact(d);
  }

  /** The conversion of any `i64`: it never aborts or saturates, and it is off by the rounding of
      the nanoseconds against the rounding of the whole seconds. */
  lemma ToDurationGeneral(nanos: I64)
    ensures var s := NodeSeconds(nanos) * NANOS_PER_SEC;
            && ToDuration(nanos).Some?
            && ToDuration(nanos).value.WholeNanoseconds() - nanos == (RoundInt(nanos) - nanos) - (RoundInt(s) - s)
            && (FromDuration(ToDuration(nanos).value) == Some(nanos) <==> RoundInt(nanos) - nanos == RoundInt(s) - s)
  {
    RestExact(nanos);
    var d := RoundInt(nanos) - RoundInt(NodeSeconds(nanos) * NANOS_PER_SEC);
    TruncInteger(d);
    NewDurationMeaning(NodeSeconds(nanos), d);
  }

  lemma TruncInteger(d: int)
    ensures Trunc(d as real) == d
  {
  }

  lemma Twice(m: int)
    requires Representable(m)
    ensures Representable(2 * m)
  {
  }

  lemma {:induction false} PowerRepresentable(m: int, k: nat)
    requires Magnitude(m) <= TWO53
    ensures Representable(m * IntPow2(k))
  {
    if k > 0 {
      PowerRepresentable(m, k - 1);
      TwiceProduct(m, IntPow2(k - 1));
      Twice(m * IntPow2(k - 1));
    } else {
      assert m * IntPow2(0) == m;
    }
  }

  /** The seconds and the rest are the integer quotient and remainder for up to 2^53 nanoseconds. */
  lemma NodeExact(nanos: I64)
    requires -TWO53 <= nanos <= TWO53
    ensures NodeSeconds(nanos) == TruncDiv(nanos, NANOS_PER_SEC)
    ensures NodeRest(nanos) == TruncRem(nanos, NANOS_PER_SEC) as real
    ensures ToDuration(nanos)
            == Some(RawDuration.Duration(TruncDiv(nanos, NANOS_PER_SEC), TruncRem(nanos, NANOS_PER_SEC)))
    ensures FromDuration(ToDuration(nanos).value) == Some(nanos)
  {
    ExactParts(nanos);
    ExactDuration(nanos);
    PartsLength(nanos);
  }

  lemma ExactDuration(nanos: I64)
    requires NodeSeconds(nanos) == TruncDiv(nanos, NANOS_PER_SEC)
    requires NodeRest(nanos) == TruncRem(nanos, NANOS_PER_SEC) as real
    ensures ToDuration(nanos)
            == Some(RawDuration.Duration(TruncDiv(nanos, NANOS_PER_SEC), TruncRem(nanos, NANOS_PER_SEC)))
  {
    PartsMakeDuration(nanos, NodeSeconds(nanos), NodeRest(nanos));
  }

  lemma PartsLength(nanos: I64)
    ensures Nanoseconds(nanos).WholeNanoseconds() == nanos
  {
  }

  lemma ExactParts(nanos: I64)
    requires -TWO53 <= nanos <= TWO53
    ensures NodeSeconds(nanos) == TruncDiv(nanos, NANOS_PER_SEC)
    ensures NodeRest(nanos) == TruncRem(nanos, NANOS_PER_SEC) as real
  {
    ExactSeconds(nanos);
    RestExact(nanos);
    TruncFacts(nanos, NANOS_PER_SEC);
    RepresentableIff(nanos);
    RepresentableIff(NodeSeconds(nanos) * NANOS_PER_SEC);
  }

  lemma PartsMakeDuration(nanos: I64, secs: int, rest: real)
    requires secs == TruncDiv(nanos, NANOS_PER_SEC) && rest == TruncRem(nanos, NANOS_PER_SEC) as real
    ensures NewDuration(Saturate64(secs), Saturate32(Trunc(rest)))
            == Some(RawDuration.Duration(TruncDiv(nanos, NANOS_PER_SEC), TruncRem(nanos, NANOS_PER_SEC)))
  {
    TruncFacts(nanos, NANOS_PER_SEC);
  }

  /** The rounding error is below 1e-9 while the next whole second is at least 1e-9 away. */
  lemma ExactSeconds(nanos: I64)
    requires -TWO53 <= nanos <= TWO53
    ensures NodeSeconds(nanos) == TruncDiv(nanos, NANOS_PER_SEC)
  {
    BigPowers();
    Powers();
    RepresentableIff(nanos);
    RoundOfInt(nanos);
    var q := nanos as real / NANOS;
    var t := TruncDiv(nanos, NANOS_PER_SEC);
    RoundError(q, 24);
    ExponentBound(q, 24);
    RoundKeepsInteger(q, t);
    RoundKeepsInteger(q, 0);
  }
}
