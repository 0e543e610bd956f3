/** Decimal printing, and the integer parser of the Rust standard library. */
module Decimal {
  import opened Wrappers

  datatype IntError = Empty | InvalidDigit | Overflow

  predicate IsDigit(c: char) {
    '0' <= c <= '9'
  }

  predicate AllDigits(s: string) {
    forall c | c in s :: IsDigit(c)
  }

  function Digit(c: char): nat
    requires IsDigit(c)
  {
    c as int - '0' as int
  }

  function ShowNat(n: nat): (s: string)
    ensures AllDigits(s) && s != []
  {
    var last := [(n % 10 + '0' as int) as char];
    if n < 10 then last else ShowNat(n / 10) + last
  }

  function ShowInt(n: int): string {
    if n < 0 then "-" + ShowNat(-n) else ShowNat(n)
  }

  /** The number reached from `acc` by reading the digits of `s` from left to right. */
  function Fold(s: string, acc: nat): (n: nat)
    requires AllDigits(s)
    ensures n >= acc
  {
    if s == [] then acc else Fold(s[1..], 10 * acc + Digit(s[0]))
  }

  /** Checked accumulation: the first bad digit or the first overflow decides. */
  function ParseMagnitude(s: string, acc: nat, limit: nat): Result<nat, IntError> {
    if s == [] then Ok(acc)
    else if !IsDigit(s[0]) then Err(InvalidDigit)
    else if 10 * acc + Digit(s[0]) > limit then Err(Overflow)
    else ParseMagnitude(s[1..], 10 * acc + Digit(s[0]), limit)
  }

  /** `str::parse` for the integer type with values `lo` to `hi`. */
  function ParseInt(s: string, lo: int, hi: nat): Result<int, IntError>
    requires lo <= 0
  {
    if s == "" then Err(Empty)
    else if s == "+" || s == "-" then Err(InvalidDigit)
    else if s[0] == '-' && lo < 0 then
      var n: int :- ParseMagnitude(s[1..], 0, -lo);
      Ok(-n)
    else
      ParseMagnitude(if s[0] == '+' then s[1..] else s, 0, hi)
  }

  lemma {:induction false} MagnitudeSpec(s: string, acc: nat, limit: nat)
    requires acc <= limit
    ensures ParseMagnitude(s, acc, limit).Ok? <==> AllDigits(s) && Fold(s, acc) <= limit
    ensures ParseMagnitude(s, acc, limit).Ok? ==> ParseMagnitude(s, acc, limit).value == Fold(s, acc)
  {
    if s != [] {
      assert s == [s[0]] + s[1..];
      if IsDigit(s[0]) && 10 * acc + Digit(s[0]) <= limit {
        MagnitudeSpec(s[1..], 10 * acc + Digit(s[0]), limit);
      }
    }
  }

  /** The texts of the integers: an optional sign and digits. */
  datatype Numeral = Numeral(neg: bool, plus: bool, digits: string) {
    predicate WellFormed() {
      digits != [] && AllDigits(digits) && !(neg && plus)
    }

    function Number(): int
      requires WellFormed()
    {
      var n: int := Fold(digits, 0);
      if neg then -n else n
    }

    function Text(): string {
      (if neg then "-" else if plus then "+" else "") + digits
    }
  }

  /** The parser accepts exactly a sign (a minus only for signed types) and digits in range. */
  lemma ParseIntExact(s: string, lo: int, hi: nat, n: int)
    requires lo <= 0
    ensures ParseInt(s, lo, hi) == Ok(n) <==>
            exists m: Numeral ::
              m.WellFormed() && (m.neg ==> lo < 0) && s == m.Text() && n == m.Number() && lo <= n <= hi
  {
    if ParseInt(s, lo, hi) == Ok(n) {
      var m := NumeralOf(s, lo, hi);
    }
    if m: Numeral :|
      m.WellFormed() && (m.neg ==> lo < 0) && s == m.Text() && n == m.Number() && lo <= n <= hi
    {
      ParseNumeral(m, lo, hi);
    }
  }

  lemma NumeralOf(s: string, lo: int, hi: nat) returns (m: Numeral)
    requires lo <= 0 && ParseInt(s, lo, hi).Ok?
    ensures m.WellFormed() && (m.neg ==> lo < 0) && s == m.Text()
    ensures lo <= m.Number() <= hi && ParseInt(s, lo, hi) == Ok(m.Number())
  {
    if s[0] == '-' && lo < 0 {
      MagnitudeSpec(s[1..], 0, -lo);
      m := Numeral(true, false, s[1..]);
    } else if s[0] == '+' {
      MagnitudeSpec(s[1..], 0, hi);
      m := Numeral(false, true, s[1..]);
    } else {
      MagnitudeSpec(s, 0, hi);
      m := Numeral(false, false, s);
    }
    assert s == m.Text();
  }

  lemma ParseNumeral(m: Numeral, lo: int, hi: nat)
    requires lo <= 0 && m.WellFormed() && (m.neg ==> lo < 0)
    ensures ParseInt(m.Text(), lo, hi) == if lo <= m.Number() <= hi then Ok(m.Number()) else Err(Overflow)
  {
    var s := m.Text();
    assert IsDigit(m.digits[0]);
    if m.neg || m.plus {
      assert s[1..] == m.digits && |s| >= 2;
    } else {
      assert s == m.digits;
    }
    MagnitudeSpec(m.digits, 0, if m.neg then -lo else hi);
    OnlyOverflow(m.digits, 0, if m.neg then -lo else hi);
  }

  lemma {:induction false} OnlyOverflow(s: string, acc: nat, limit: nat)
    requires AllDigits(s)
    ensures ParseMagnitude(s, acc, limit).Err? ==> ParseMagnitude(s, acc, limit) == Err(Overflow)
  {
    if s != [] { OnlyOverflow(s[1..], 10 * acc + Digit(s[0]), limit); }
  }

  lemma {:induction false} NeverEmpty(s: string, acc: nat, limit: nat)
    ensures ParseMagnitude(s, acc, limit) != Err(Empty)
  {
    if s == [] {
    } else if IsDigit(s[0]) && 10 * acc + Digit(s[0]) <= limit {
      NeverEmpty(s[1..], 10 * acc + Digit(s[0]), limit);
    }
  }

  /** Only the empty text is refused as empty. */
  lemma EmptyText(s: string, lo: int, hi: nat)
    requires lo <= 0
    ensures ParseInt(s, lo, hi) == Err(Empty) <==> s == ""
  {
    if s != "" {
      NeverEmpty(s, 0, hi);
      NeverEmpty(s[1..], 0, hi);
      NeverEmpty(s[1..], 0, -lo);
    }
  }

  /** A text overflows exactly if it starts with a sign and digits that leave the range; whatever else is
      refused has an invalid character. */
  lemma OverflowText(s: string, lo: int, hi: nat)
    requires lo <= 0
    ensures ParseInt(s, lo, hi) == Err(Overflow) <==> exists m: Numeral :: OverflowsAs(s, m, lo, hi)
  {
    if ParseInt(s, lo, hi) == Err(Overflow) { var m := OverflowingNumeral(s, lo, hi); }
    forall m: Numeral | OverflowsAs(s, m, lo, hi) ensures ParseInt(s, lo, hi) == Err(Overflow) {
      OverflowsParsed(s, m, lo, hi);
    }
  }

  lemma OverflowingNumeral(s: string, lo: int, hi: nat) returns (m: Numeral)
    requires lo <= 0 && ParseInt(s, lo, hi) == Err(Overflow)
    ensures OverflowsAs(s, m, lo, hi)
  {
    var neg, plus := s[0] == '-' && lo < 0, s[0] == '+';
    var digits := if neg || plus then s[1..] else s;
    var k := OverflowAt(digits, 0, if neg then -lo else hi);
    m := Numeral(neg, plus, digits[..k]);
    assert neg || plus ==> s == [s[0]] + digits;
    assert m.Text() <= s;
  }

  predicate OverflowsAs(s: string, m: Numeral, lo: int, hi: nat) {
    m.WellFormed() && (m.neg ==> lo < 0) && m.Text() <= s && !(lo <= m.Number() <= hi)
  }

  lemma OverflowsParsed(s: string, m: Numeral, lo: int, hi: nat)
    requires lo <= 0 && OverflowsAs(s, m, lo, hi)
    ensures ParseInt(s, lo, hi) == Err(Overflow)
  {
    assert IsDigit(m.digits[0]);
    var text := m.Text();
    if m.neg || m.plus {
      assert text[0] == s[0] && |s| >= 2 && text[1..] == m.digits && text[1..] <= s[1..];
      FoldOverflows(m.digits, s[1..], 0, if m.neg then -lo else hi);
    } else {
      assert text == m.digits && s[0] == m.digits[0] && |s| >= 1;
      FoldOverflows(m.digits, s, 0, hi);
    }
  }

  lemma {:induction false} OverflowAt(s: string, acc: nat, limit: nat) returns (k: nat)
    requires acc <= limit && ParseMagnitude(s, acc, limit) == Err(Overflow)
    ensures 0 < k <= |s| && AllDigits(s[..k]) && Fold(s[..k], acc) > limit
  {
    var next := 10 * acc + Digit(s[0]);
    if next > limit {
      k := 1;
      assert s[..1] == [s[0]] && s[..1][1..] == [];
    } else {
      k := OverflowAt(s[1..], next, limit);
      k := k + 1;
      assert s[..k] == [s[0]] + s[1..][..k - 1] && s[..k][1..] == s[1..][..k - 1];
    }
  }

  lemma {:induction false} FoldOverflows(p: string, s: string, acc: nat, limit: nat)
    requires acc <= limit && AllDigits(p) && p <= s && Fold(p, acc) > limit
    ensures ParseMagnitude(s, acc, limit) == Err(Overflow)
  {
    if p == [] {
    } else {
      assert p[0] == s[0] && p[1..] <= s[1..];
      var next := 10 * acc + Digit(s[0]);
      if next <= limit { FoldOverflows(p[1..], s[1..], next, limit); }
    }
  }

  lemma {:induction false} FoldAppend(s: string, c: char, acc: nat)
    requires AllDigits(s) && IsDigit(c)
    ensures Fold(s + [c], acc) == 10 * Fold(s, acc) + Digit(c)
  {
    if s == [] {
      assert s + [c] == [c];
    } else {
      assert (s + [c])[1..] == s[1..] + [c];
      FoldAppend(s[1..], c, 10 * acc + Digit(s[0]));
    }
  }

  lemma {:induction false} FoldShow(n: nat)
    ensures Fold(ShowNat(n), 0) == n
  {
    var c := (n % 10 + '0' as int) as char;
    if n < 10 {
      FoldAppend("", c, 0);
      assert "" + [c] == [c];
    } else {
      FoldShow(n / 10);
      FoldAppend(ShowNat(n / 10), c, 0);
    }
  }

  /** The numeral that printing produces. */
  function Shown(n: int): Numeral {
    Numeral(n < 0, false, ShowNat(if n < 0 then -n else n))
  }

  lemma ShownNumeral(n: int)
    ensures Shown(n).WellFormed() && Shown(n).Text() == ShowInt(n) && Shown(n).Number() == n
  {
    FoldShow(if n < 0 then -n else n);
  }

  /** Printing and parsing an integer in range gives it back, extreme values included. */
  lemma ParseShow(n: int, lo: int, hi: nat)
    requires lo <= n <= hi && lo <= 0
    ensures ParseInt(ShowInt(n), lo, hi) == Ok(n)
  {
    ShownNumeral(n);
    ParseNumeral(Shown(n), lo, hi);
  }
}
