/** The text form of timespans. */
module Timespans {
  import opened Wrappers
  import opened Values
  import opened Decimal

  datatype Unit = NS | US | MS | S | Min | H | D {
    function Name(): string {
      match this
      case NS => "ns"
      case US => "us"
      case MS => "ms"
      case S => "s"
      case Min => "min"
      case H => "h"
      case D => "d"
    }

    function Nanos(): int {
      match this
      case NS => 1
      case US => 1_000
      case MS => 1_000_000
      case S => NANOS_PER_SEC
      case Min => 60 * NANOS_PER_SEC
      case H => 3_600 * NANOS_PER_SEC
      case D => 86_400 * NANOS_PER_SEC
    }
  }

  /** `Panic` stands for the overflow check of the minute, hour and day constructors, which aborts. */
  datatype TimespanError = BadNumber(cause: IntError) | InvalidUnit(text: string) | Panic

  datatype NotRepresentable = NotRepresentable

  const MIN64: int := -0x8000_0000_0000_0000
  const MAX64: int := 0x7fff_ffff_ffff_ffff

  function ParseUnit(s: string): Option<Unit> {
    if s == "ns" then Some(NS)
    else if s == "us" then Some(US)
    else if s == "ms" then Some(MS)
    else if s == "s" then Some(S)
    else if s == "min" then Some(Min)
    else if s == "h" then Some(H)
    else if s == "d" then Some(D)
    else Option.None
  }

  predicate NumberChar(c: char) {
    c == '-' || IsDigit(c)
  }

  function FindUnit(s: string, i: nat): Option<nat>
    requires i <= |s|
    decreases |s| - i
  {
    if i == |s| then Option.None
    else if !NumberChar(s[i]) then Some(i)
    else FindUnit(s, i + 1)
  }

  function UnitStart(s: string): nat {
    match FindUnit(s, 0)
    case Some(i) => i
    case None => 0
  }

  /** Division and remainder of Rust's integers, which round toward zero. */
  function TruncDiv(a: int, b: int): int
    requires b > 0
  {
    if a >= 0 then a / b else -((-a) / b)
  }

  function TruncRem(a: int, b: int): int
    requires b > 0
  {
    a - TruncDiv(a, b) * b
  }

  function Seconds(n: int): Option<Duration> {
    if IsI64(n) then Some(RawDuration.Duration(n, 0)) else Option.None
  }

  lemma TruncFacts(a: int, b: int)
    requires b == 1_000 || b == 1_000_000 || b == NANOS_PER_SEC
    ensures -b < TruncRem(a, b) < b
    ensures a >= 0 ==> TruncDiv(a, b) >= 0 && TruncRem(a, b) >= 0
    ensures a <= 0 ==> TruncDiv(a, b) <= 0 && TruncRem(a, b) <= 0
    ensures a >= 0 ==> TruncDiv(a, b) <= a
    ensures a <= 0 ==> TruncDiv(a, b) >= a
  {
  }

  function Nanoseconds(n: I64): Duration {
    TruncFacts(n, NANOS_PER_SEC);
    RawDuration.Duration(TruncDiv(n, NANOS_PER_SEC), TruncRem(n, NANOS_PER_SEC))
  }

  function Microseconds(n: I64): Duration {
    TruncFacts(n, 1_000_000);
    RawDuration.Duration(TruncDiv(n, 1_000_000), TruncRem(n, 1_000_000) * 1_000)
  }

  function Milliseconds(n: I64): Duration {
    TruncFacts(n, 1_000);
    RawDuration.Duration(TruncDiv(n, 1_000), TruncRem(n, 1_000) * 1_000_000)
  }

  /** The constructor selected by a unit. */
  function Scale(num: I64, unit: Unit): Option<Duration> {
    match unit
    case NS => Some(Nanoseconds(num))
    case US => Some(Microseconds(num))
    case MS => Some(Milliseconds(num))
    case S => Seconds(num)
    case Min => Seconds(num * 60)
    case H => Seconds(num * 3_600)
    case D => Seconds(num * 86_400)
  }

  function Parse(s: string): Result<Duration, TimespanError> {
    var k := UnitStart(s);
    UnitStartBound(s, 0);
    match ParseInt(s[..k], MIN64, MAX64)
    case Err(e) => Err(BadNumber(e))
    case Ok(num) =>
      ParseIntRange(s[..k]);
      match ParseUnit(s[k..])
      case None => Err(InvalidUnit(s[k..]))
      case Some(unit) =>
        match Scale(num, unit)
        case None => Err(Panic)
        case Some(d) => Ok(d)
  }

  function Serialize(d: Duration): Result<string, NotRepresentable> {
    if d.nanos == 0 then Ok(ShowInt(d.secs) + "s")
    else if IsI64(d.WholeNanoseconds()) then Ok(ShowInt(d.WholeNanoseconds()) + "ns")
    else Err(NotRepresentable)
  }

  // ----- What the constructors mean -----

  /** A unit multiplies, and only the three coarse units can leave the range of seconds. */
  lemma ScaleMeaning(num: I64, unit: Unit)
    ensures Scale(num, unit).Some? <==> InRange(num, unit)
    ensures Scale(num, unit).Some? ==> Scale(num, unit).value.WholeNanoseconds() == num * unit.Nanos()
  {
  }

  /** A normalised duration is determined by its length. */
  lemma DurationUnique(a: Duration, b: Duration)
    requires a.WholeNanoseconds() == b.WholeNanoseconds()
    ensures a == b
  {
  }

  // ----- The accepted language -----

  datatype Literal = Literal(number: Numeral, unit: Unit) {
    predicate WellFormed() {
      number.WellFormed() && !number.plus
    }

    function Text(): string {
      number.Text() + unit.Name()
    }
  }

  /** The literal denotes a duration: its number is an `i64`, and so are its seconds. */
  predicate InRange(number: int, unit: Unit) {
    && IsI64(number)
    && (unit.Min? || unit.H? || unit.D? ==> IsI64(number * (unit.Nanos() / NANOS_PER_SEC)))
  }

  lemma {:induction false} UnitStartBound(s: string, i: nat)
    requires i <= |s|
    ensures FindUnit(s, i).Some? ==> i <= FindUnit(s, i).value < |s| && !NumberChar(s[FindUnit(s, i).value])
    ensures FindUnit(s, i).Some? ==> forall j | i <= j < FindUnit(s, i).value :: NumberChar(s[j])
    ensures UnitStart(s) <= |s|
    decreases |s| - i
  {
    if i < |s| && NumberChar(s[i]) { UnitStartBound(s, i + 1); }
    if i != 0 { FindBound(s, 0); }
  }

  lemma {:induction false} FindBound(s: string, i: nat)
    requires i <= |s|
    ensures FindUnit(s, i).Some? ==> FindUnit(s, i).value < |s|
    decreases |s| - i
  {
    if i < |s| && NumberChar(s[i]) { FindBound(s, i + 1); }
  }

  lemma ParseIntRange(s: string)
    ensures ParseInt(s, MIN64, MAX64).Ok? ==> IsI64(ParseInt(s, MIN64, MAX64).value)
  {
    if ParseInt(s, MIN64, MAX64).Ok? {
      ParseIntExact(s, MIN64, MAX64, ParseInt(s, MIN64, MAX64).value);
    }
  }

  lemma {:induction false} FindUnitAt(s: string, i: nat, k: nat)
    requires i <= k < |s| && !NumberChar(s[k])
    requires forall j | i <= j < k :: NumberChar(s[j])
    ensures FindUnit(s, i) == Some(k)
    decreases k - i
  {
    if i < k { FindUnitAt(s, i + 1, k); }
  }

  lemma UnitNames(u: Unit)
    ensures u.Name() != [] && !NumberChar(u.Name()[0])
    ensures ParseUnit(u.Name()) == Some(u)
  {
  }

  /** What the parser makes of a literal. */
  lemma ParseLiteral(l: Literal)
    requires l.WellFormed()
    ensures Parse(l.Text()) ==
            if !IsI64(l.number.Number()) then Err(BadNumber(Overflow))
            else match Scale(l.number.Number(), l.unit) case None => Err(Panic) case Some(d) => Ok(d)
  {
    var s, n := l.Text(), l.number.Text();
    UnitNames(l.unit);
    forall j | 0 <= j < |n| ensures NumberChar(s[j]) {
      assert s[j] == n[j];
      assert j > 0 || !l.number.neg ==> n[j] in l.number.digits;
    }
    assert s[|n|] == l.unit.Name()[0];
    FindUnitAt(s, 0, |n|);
    assert s[..|n|] == n && s[|n|..] == l.unit.Name();
    ParseNumeral(l.number, MIN64, MAX64);
  }

  /** The parser accepts an optional minus, digits and one of seven units, with the number and its
      seconds in range; the value is the number times the unit. */
  lemma ParseExact(s: string, d: Duration)
    ensures Parse(s) == Ok(d) <==>
            exists l: Literal ::
              && l.WellFormed() && s == l.Text() && InRange(l.number.Number(), l.unit)
              && d.WholeNanoseconds() == l.number.Number() * l.unit.Nanos()
  {
    if Parse(s).Ok? {
      var l := LiteralOf(s);
      ScaleMeaning(l.number.Number(), l.unit);
      if d.WholeNanoseconds() == l.number.Number() * l.unit.Nanos() { DurationUnique(d, Parse(s).value); }
    }
    if l: Literal :|
      && l.WellFormed() && s == l.Text() && InRange(l.number.Number(), l.unit)
      && d.WholeNanoseconds() == l.number.Number() * l.unit.Nanos()
    {
      ParseLiteral(l);
      ScaleMeaning(l.number.Number(), l.unit);
      DurationUnique(d, Parse(s).value);
    }
  }

  /** The parser aborts exactly on well-formed literals in minutes, hours or days whose number is an
      `i64` while the seconds are not. */
  lemma ParsePanics(s: string)
    ensures Parse(s) == Err(Panic) <==>
            exists l: Literal ::
              && l.WellFormed() && s == l.Text() && IsI64(l.number.Number())
              && !InRange(l.number.Number(), l.unit)
  {
    if Parse(s) == Err(Panic) {
      var l := LiteralOf(s);
      ScaleMeaning(l.number.Number(), l.unit);
    }
    if l: Literal :|
      && l.WellFormed() && s == l.Text() && IsI64(l.number.Number())
      && !InRange(l.number.Number(), l.unit)
    {
      ParseLiteral(l);
      ScaleMeaning(l.number.Number(), l.unit);
    }
  }

  /** A printed `i64` with one of these units aborts exactly when its seconds leave the range. */
  lemma ShownPanics(n: I64, unit: Unit)
    ensures Parse(ShowInt(n) + unit.Name()) == Err(Panic) <==> !InRange(n, unit)
  {
    ShownNumeral(n);
    ParseLiteral(Literal(Shown(n), unit));
    ScaleMeaning(n, unit);
  }

  /** So do days from 106751991167301 on, as in `9223372036854775807d`. */
  lemma DaysPanic(days: I64)
    requires days >= 106_751_991_167_301
    ensures Parse(ShowInt(days) + "d") == Err(Panic)
  {
    ShownPanics(days, D);
    assert D.Name() == "d";
  }

  /** The literal behind an accepted (or aborting) text. */
  lemma LiteralOf(s: string) returns (l: Literal)
    requires Parse(s).Ok? || Parse(s) == Err(Panic)
    ensures l.WellFormed() && s == l.Text() && IsI64(l.number.Number())
    ensures Parse(s) == match Scale(l.number.Number(), l.unit) case None => Err(Panic) case Some(d) => Ok(d)
  {
    UnitStartBound(s, 0);
    var k := UnitStart(s);
    var n := s[..k];
    var m := NumeralOf(n, MIN64, MAX64);
    assert |n| > 0 && n[0] == s[0];
    l := Literal(m, ParseUnit(s[k..]).value);
    assert s == n + s[k..];
    ParseLiteral(l);
  }

  // ----- The texts themselves -----

  /** A printed number with a unit is so many nanoseconds, or a panic if its seconds leave `i64`. */
  predicate IsLength(n: I64, unit: string, seconds: int, nanos: int) {
    var r := Parse(ShowInt(n) + unit);
    if IsI64(seconds) then r.Ok? && r.value.WholeNanoseconds() == nanos else r == Err(Panic)
  }

  /** The fine units never overflow. */
  lemma FineUnits(n: I64)
    ensures IsLength(n, "ns", 0, n) && IsLength(n, "us", 0, n * 1_000) && IsLength(n, "ms", 0, n * 1_000_000)
    ensures IsLength(n, "s", n, n * 1_000_000_000)
  {
    UnitLength(n, NS, "ns", 0, n);
    UnitLength(n, US, "us", 0, n * 1_000);
    UnitLength(n, MS, "ms", 0, n * 1_000_000);
    UnitLength(n, S, "s", n, n * 1_000_000_000);
  }

  lemma CoarseUnits(n: I64)
    ensures IsLength(n, "min", n * 60, n * 60_000_000_000)
    ensures IsLength(n, "h", n * 3_600, n * 3_600_000_000_000)
    ensures IsLength(n, "d", n * 86_400, n * 86_400_000_000_000)
  {
    UnitLength(n, Min, "min", n * 60, n * 60_000_000_000);
    UnitLength(n, H, "h", n * 3_600, n * 3_600_000_000_000);
    UnitLength(n, D, "d", n * 86_400, n * 86_400_000_000_000);
  }

  lemma UnitLength(n: I64, unit: Unit, name: string, seconds: int, nanos: int)
    requires name == unit.Name() && nanos == n * unit.Nanos() && (IsI64(seconds) <==> InRange(n, unit))
    ensures IsLength(n, name, seconds, nanos)
  {
    ShownLength(n, unit);
  }

  lemma ShownLength(n: I64, unit: Unit)
    ensures if InRange(n, unit) then
              Parse(ShowInt(n) + unit.Name()).Ok?
              && Parse(ShowInt(n) + unit.Name()).value.WholeNanoseconds() == n * unit.Nanos()
            else Parse(ShowInt(n) + unit.Name()) == Err(Panic)
  {
    ShownNumeral(n);
    ParseLiteral(Literal(Shown(n), unit));
    ScaleMeaning(n, unit);
  }

  /** The number ends at the first character that is neither a digit nor a minus; it is refused before
      the unit is looked at. */
  lemma ParseErrors(number: string, unit: string)
    requires forall c | c in number :: c == '-' || '0' <= c <= '9'
    requires unit != "" && unit[0] != '-' && !('0' <= unit[0] <= '9')
    ensures match ParseInt(number, MIN64, MAX64)
            case Err(e) => Parse(number + unit) == Err(BadNumber(e))
            case Ok(_) =>
              unit !in {"ns", "us", "ms", "s", "min", "h", "d"} ==> Parse(number + unit) == Err(InvalidUnit(unit))
  {
    var s := number + unit;
    assert s[|number|] == unit[0];
    forall j | 0 <= j < |number| ensures NumberChar(s[j]) { assert s[j] == number[j] && number[j] in number; }
    FindUnitAt(s, 0, |number|);
    assert s[..|number|] == number && s[|number|..] == unit;
  }

  /** Without such a character there is no number either. */
  lemma NoUnit(s: string)
    requires forall c | c in s :: c == '-' || '0' <= c <= '9'
    ensures Parse(s) == Err(BadNumber(Empty))
  {
    UnitStartBound(s, 0);
    forall j | 0 <= j < |s| ensures NumberChar(s[j]) { assert s[j] in s; }
    NothingFound(s, 0);
    assert s[..0] == "";
  }

  lemma {:induction false} NothingFound(s: string, i: nat)
    requires i <= |s| && forall j | i <= j < |s| :: NumberChar(s[j])
    ensures FindUnit(s, i) == Option.None
    decreases |s| - i
  {
    if i < |s| { NothingFound(s, i + 1); }
  }

  // ----- Bytes and characters -----

  function Utf8Length(c: char): nat {
    if c as int < 0x80 then 1 else if c as int < 0x800 then 2 else if c as int < 0x1_0000 then 3 else 4
  }

  /** The byte position at which character `i` of a string starts. */
  function ByteOffset(s: string, i: nat): nat
    requires i <= |s|
  {
    if i == 0 then 0 else ByteOffset(s, i - 1) + Utf8Length(s[i - 1])
  }

  /** The index found by counting characters is the byte position the string is sliced at. */
  lemma UnitStartIsByteBoundary(s: string)
    ensures UnitStart(s) <= |s| && ByteOffset(s, UnitStart(s)) == UnitStart(s)
  {
    UnitStartBound(s, 0);
    AsciiOffset(s, UnitStart(s));
  }

  lemma {:induction false} AsciiOffset(s: string, k: nat)
    requires k <= |s| && forall j | 0 <= j < k :: NumberChar(s[j])
    ensures ByteOffset(s, k) == k
  {
    if k > 0 { AsciiOffset(s, k - 1); }
  }

  // ----- Round trip -----

  /** Every duration that can be printed is parsed back, for both signs and up to the extremes. */
  lemma RoundTrip(d: Duration)
    ensures Serialize(d).Ok? <==> d.nanos == 0 || IsI64(d.WholeNanoseconds())
    ensures Serialize(d).Ok? ==> Parse(Serialize(d).value) == Ok(d)
  {
    if Serialize(d).Ok? {
      var unit := if d.nanos == 0 then S else NS;
      var n := if d.nanos == 0 then d.secs else d.WholeNanoseconds();
      ShownNumeral(n);
      ParseLiteral(Literal(Shown(n), unit));
      ScaleMeaning(n, unit);
      DurationUnique(Parse(Serialize(d).value).value, d);
    }
  }
}
