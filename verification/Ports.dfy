/** The text form of ports. */
module Ports {
  import opened Wrappers
  import opened Values
  import opened Decimal

  datatype PortError = InvalidPort(text: string) | InvalidPortNumber(text: string) | InvalidProtocol(text: string)

  function ShowProtocol(p: Protocol): string {
    match p
    case TCP => "tcp"
    case UDP => "udp"
    case ICMP => "icmp"
    case UNKNOWN => "?"
  }

  function ParseProtocol(s: string): Result<Protocol, PortError> {
    if s == "tcp" then Ok(TCP)
    else if s == "udp" then Ok(UDP)
    else if s == "icmp" then Ok(ICMP)
    else if s == "?" then Ok(UNKNOWN)
    else Err(InvalidProtocol(s))
  }

  /** The position of the first slash, or the length of the text. */
  function Slash(s: string): (k: nat)
    ensures k <= |s| && '/' !in s[..k] && (k < |s| ==> s[k] == '/')
  {
    if s == "" || s[0] == '/' then 0
    else
      var k := Slash(s[1..]) + 1;
      assert s[..k] == [s[0]] + s[1..][..k - 1];
      k
  }

  function Show(p: PortId): string {
    ShowInt(p.number) + "/" + ShowProtocol(p.protocol)
  }

  const MAX16 := 0xffff

  /** Split at the first slash, then the number, then the protocol: the first failure is reported. */
  function Parse(s: string): Result<PortId, PortError> {
    var k := Slash(s);
    if k == |s| then Err(InvalidPort(s))
    else
      match ParseInt(s[..k], 0, MAX16)
      case Err(_) => Err(InvalidPortNumber(s[..k]))
      case Ok(n) =>
        var protocol :- ParseProtocol(s[k + 1..]);
        NumberInRange(s[..k]);
        Ok(PortId(n, protocol))
  }

  lemma NumberInRange(s: string)
    ensures ParseInt(s, 0, MAX16).Ok? ==> 0 <= ParseInt(s, 0, MAX16).value <= MAX16
  {
    if ParseInt(s, 0, MAX16).Ok? { ParseIntExact(s, 0, MAX16, ParseInt(s, 0, MAX16).value); }
  }

  lemma {:induction false} SlashAt(a: string, b: string)
    requires '/' !in a
    ensures Slash(a + "/" + b) == |a|
  {
    var s := a + "/" + b;
    if a != "" {
      assert a[0] in a && s[1..] == a[1..] + "/" + b;
      SlashAt(a[1..], b);
    }
  }

  lemma {:induction false} NoSlash(s: string)
    requires '/' !in s
    ensures Slash(s) == |s|
  {
    if s == "" {
    } else {
      assert s[0] in s;
      NoSlash(s[1..]);
    }
  }

  lemma DigitsHaveNoSlash(s: string)
    requires AllDigits(s)
    ensures '/' !in s
  {
  }

  /** A port is read from exactly an optional plus, digits for a 16-bit number, a slash and a name. */
  lemma ParseExact(s: string, p: PortId)
    ensures Parse(s) == Ok(p) <==>
            exists m: Numeral :: m.WellFormed() && !m.neg && m.Number() == p.number
                                 && s == m.Text() + "/" + ShowProtocol(p.protocol)
  {
    if Parse(s) == Ok(p) {
      var k := Slash(s);
      var m := NumeralOf(s[..k], 0, MAX16);
      assert s == s[..k] + "/" + s[k + 1..];
    }
    if m: Numeral :| m.WellFormed() && !m.neg && m.Number() == p.number
                     && s == m.Text() + "/" + ShowProtocol(p.protocol)
    {
      ParseText(m, p);
    }
  }

  lemma ParseText(m: Numeral, p: PortId)
    requires m.WellFormed() && !m.neg && m.Number() == p.number
    ensures Parse(m.Text() + "/" + ShowProtocol(p.protocol)) == Ok(p)
  {
    var a, b := m.Text(), ShowProtocol(p.protocol);
    DigitsHaveNoSlash(m.digits);
    SlashAt(a, b);
    assert (a + "/" + b)[..|a|] == a && (a + "/" + b)[|a| + 1..] == b;
    ParseNumeral(m, 0, MAX16);
  }

  /** Printed ports are parsed back. */
  lemma RoundTrip(p: PortId)
    ensures Parse(Show(p)) == Ok(p)
  {
    ShownNumeral(p.number);
    ParseText(Shown(p.number), p);
  }

  // ----- The texts themselves -----

  lemma Names(n: U16)
    ensures Show(PortId(n, TCP)) == ShowInt(n) + "/" + "tcp"
    ensures Show(PortId(n, UDP)) == ShowInt(n) + "/" + "udp"
    ensures Show(PortId(n, ICMP)) == ShowInt(n) + "/" + "icmp"
    ensures Show(PortId(n, UNKNOWN)) == ShowInt(n) + "/" + "?"
  {
  }

  /** A text without a slash, then a bad number before the first slash, then a bad name behind it. */
  lemma ParseErrors(s: string, a: string, b: string)
    requires '/' !in s && '/' !in a
    ensures Parse(s) == Err(InvalidPort(s))
    ensures ParseInt(a, 0, 65_535).Err? ==> Parse(a + "/" + b) == Err(InvalidPortNumber(a))
    ensures ParseInt(a, 0, 65_535).Ok? && b !in {"tcp", "udp", "icmp", "?"} ==>
              Parse(a + "/" + b) == Err(InvalidProtocol(b))
  {
    NoSlash(s);
    SlashAt(a, b);
    assert (a + "/" + b)[..|a|] == a && (a + "/" + b)[|a| + 1..] == b;
  }
}
