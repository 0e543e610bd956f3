/** What the derived order of values is, in terms of what the values hold. */
module ValueOrder {
  import opened Ordering
  import opened Values

  // ----- Variants -----

  /** `v` is of the variant declared at position `i`. */
  predicate Declared(i: nat, v: Value) {
    match i
    case 0 => v.None?
    case 1 => v.Boolean?
    case 2 => v.Count?
    case 3 => v.Integer?
    case 4 => v.Real?
    case 5 => v.Timespan?
    case 6 => v.Timestamp?
    case 7 => v.String?
    case 8 => v.EnumValue?
    case 9 => v.Address?
    case 10 => v.Subnet?
    case 11 => v.Port?
    case 12 => v.Vector?
    case 13 => v.Set?
    case 14 => v.Table?
    case _ => false
  }

  /** Values of different variants are ordered as the variants are declared, whatever they hold. */
  lemma DeclarationOrder(a: Value, b: Value, i: nat, j: nat)
    requires Declared(i, a) && Declared(j, b) && i < j
    ensures ValueLess(a, b) && !ValueLess(b, a)
  {
    CmpByTag(a, b);
    CmpByTag(b, a);
    DeclaredTag(i, a);
    DeclaredTag(j, b);
  }

  lemma DeclaredTag(i: nat, v: Value)
    requires Declared(i, v)
    ensures Tag(v) == i as real
  {
  }

  // ----- First differences -----

  /** `ys` is above `xs` from position `k` on: they agree before, and there `xs` ends or is smaller. */
  predicate Below<T(==)>(less: (T, T) -> bool, xs: seq<T>, ys: seq<T>, k: nat) {
    && k < |ys| && k <= |xs| && (forall j | 0 <= j < k :: xs[j] == ys[j])
    && (k == |xs| || less(xs[k], ys[k]))
  }

  lemma BelowNext<T>(less: (T, T) -> bool, xs: seq<T>, ys: seq<T>, k: nat)
    requires xs != [] && ys != [] && xs[0] == ys[0]
    ensures Below(less, xs, ys, k + 1) <==> Below(less, xs[1..], ys[1..], k)
  {
    assert forall j | 0 <= j < |xs[1..]| :: xs[1..][j] == xs[j + 1];
    assert forall j | 0 <= j < |ys[1..]| :: ys[1..][j] == ys[j + 1];
    if Below(less, xs[1..], ys[1..], k) {
      forall j | 0 <= j < k + 1 ensures xs[j] == ys[j] {
        if j > 0 { assert xs[1..][j - 1] == ys[1..][j - 1]; }
      }
    }
  }

  /** The first elements decide, or else the others. */
  lemma BelowStep<T>(less: (T, T) -> bool, xs: seq<T>, ys: seq<T>)
    requires xs != [] && ys != [] && (less(xs[0], ys[0]) ==> xs[0] != ys[0])
    ensures (exists k: nat :: Below(less, xs, ys, k)) <==>
            less(xs[0], ys[0]) || (xs[0] == ys[0] && exists k: nat :: Below(less, xs[1..], ys[1..], k))
  {
    if less(xs[0], ys[0]) {
      assert Below(less, xs, ys, 0);
    }
    if k: nat :| Below(less, xs, ys, k) {
      if k > 0 { BelowNext(less, xs, ys, k - 1); }
    }
    if xs[0] == ys[0] {
      if k: nat :| Below(less, xs[1..], ys[1..], k) { BelowNext(less, xs, ys, k); }
    }
  }

  lemma BelowEmpty<T>(less: (T, T) -> bool, xs: seq<T>, ys: seq<T>)
    requires xs == [] || ys == []
    ensures (exists k: nat :: Below(less, xs, ys, k)) <==> |xs| < |ys|
  {
    if |xs| < |ys| { assert Below(less, xs, ys, 0); }
  }

  // ----- Scalars -----

  predicate RealLess(x: real, y: real) {
    x < y
  }

  lemma {:induction false} KeysLexicographic(xs: seq<real>, ys: seq<real>)
    ensures CmpKeys(xs, ys) == Less <==> exists k: nat :: Below(RealLess, xs, ys, k)
  {
    if xs == [] || ys == [] {
      BelowEmpty(RealLess, xs, ys);
    } else {
      BelowStep(RealLess, xs, ys);
      KeysLexicographic(xs[1..], ys[1..]);
    }
  }

  /** Up to some position the texts agree; there `s` ends or has the smaller character. */
  predicate TextBefore(s: string, t: string) {
    exists k | 0 <= k <= |s| :: Splits(s, t, k)
  }

  predicate Splits(s: string, t: string, k: nat) {
    k <= |s| && k < |t| && s[..k] == t[..k] && (k == |s| || s[k] < t[k])
  }

  lemma SplitKeys(s: string, t: string, k: nat)
    ensures Splits(s, t, k) <==> Below(RealLess, StringKey(s), StringKey(t), k)
  {
    var xs, ys := StringKey(s), StringKey(t);
    if k <= |s| && k < |t| {
      assert s[..k] == t[..k] ==> forall j | 0 <= j < k :: s[..k][j] == t[..k][j];
      forall j | 0 <= j < k ensures s[..k][j] == t[..k][j] <==> xs[j] == ys[j] {
      }
    }
  }

  lemma CmpStringKeys(s: string, t: string)
    ensures CmpKeys(StringKey(s), StringKey(t)) == Less <==> TextBefore(s, t)
  {
    KeysLexicographic(StringKey(s), StringKey(t));
    if k: nat :| k <= |s| && Splits(s, t, k) { SplitKeys(s, t, k); }
    if k: nat :| Below(RealLess, StringKey(s), StringKey(t), k) { SplitKeys(s, t, k); }
  }

  /** Texts are ordered by the first differing character, a proper prefix being smaller. */
  lemma TextOrder(s: string, t: string)
    ensures ValueLess(String(s), String(t)) <==> TextBefore(s, t)
    ensures ValueLess(EnumValue(s), EnumValue(t)) <==> TextBefore(s, t)
  {
    CmpByTag(String(s), String(t));
    CmpByTag(EnumValue(s), EnumValue(t));
    CmpStringKeys(s, t);
  }

  /** So a set of texts is iterated in ascending order. */
  lemma TextsAscend()
    ensures SetOf([String("foo"), String("bar")]) == Set([String("bar"), String("foo")])
  {
    var bar, foo := "bar", "foo";
    TextOrder(bar, foo);
    assert Splits(bar, foo, 0);
    CollectTwo(String(bar), String(foo));
  }

  lemma CollectTwo(a: Value, b: Value)
    requires ValueLess(a, b)
    ensures SetOf([b, a]) == Set([a, b])
  {
    ValueOrderTotal();
    CollectedSet([b, a]);
    CollectSpec(ValueLess, [b, a]);
    AscendingUnique(ValueLess, Collect(ValueLess, [b, a]), [a, b]);
  }

  lemma SingleOrder(x: real, y: real)
    ensures CmpKeys([x], [y]) == Less <==> x < y
  {
    assert CmpKeys([x][1..], [y][1..]) == Equal;
  }

  /** `false` is below `true`, and counts, integers and timestamps are ordered as numbers. */
  lemma NumberOrder(b: bool, c: bool, m: U64, n: U64, i: I64, j: I64, x: int, y: int)
    ensures ValueLess(Boolean(b), Boolean(c)) <==> !b && c
    ensures ValueLess(Count(m), Count(n)) <==> m < n
    ensures ValueLess(Integer(i), Integer(j)) <==> i < j
    ensures ValueLess(Timestamp(x), Timestamp(y)) <==> x < y
  {
    CmpByTag(Boolean(b), Boolean(c));
    CmpByTag(Count(m), Count(n));
    CmpByTag(Integer(i), Integer(j));
    CmpByTag(Timestamp(x), Timestamp(y));
    SingleOrder(Bit(b), Bit(c));
    SingleOrder(m as real, n as real);
    SingleOrder(i as real, j as real);
    SingleOrder(x as real, y as real);
  }

  /** Negative infinity, then the finite numbers, then infinity, then `NaN`. */
  predicate FloatBefore(f: Float, g: Float) {
    match (f, g)
    case (NegInf, _) => !g.NegInf?
    case (Finite(x), Finite(y)) => x < y
    case (Finite(_), _) => g.PosInf? || g.NaN?
    case (PosInf, _) => g.NaN?
    case (NaN, _) => false
  }

  lemma FloatOrder(f: Float, g: Float)
    ensures ValueLess(Real(f), Real(g)) <==> FloatBefore(f, g)
  {
    CmpByTag(Real(f), Real(g));
    var xs, ys := FloatKey(f), FloatKey(g);
    assert CmpKeys(xs, ys) == CmpReal(xs[0], ys[0]).Then(CmpKeys(xs[1..], ys[1..]));
    if f.Finite? && g.Finite? {
      assert xs[1..] == [f.r] && ys[1..] == [g.r];
      SingleOrder(f.r, g.r);
    } else if xs[0] == ys[0] {
      assert xs == ys;
      KeysEqual(xs, ys);
    }
  }

  lemma PairOrder(a: real, b: real, c: real, d: real)
    ensures CmpKeys([a, b], [c, d]) == Less <==> a < c || (a == c && b < d)
    ensures CmpKeys([a, b], [c, d]) == Equal <==> a == c && b == d
  {
    assert [a, b][1..] == [b] && [c, d][1..] == [d];
    assert CmpKeys([b], [d]) == CmpReal(b, d).Then(CmpKeys([b][1..], [d][1..]));
  }

  lemma TripleOrder(a: real, b: real, x: real, c: real, d: real, y: real)
    ensures CmpKeys([a, b, x], [c, d, y]) == Less <==> a < c || (a == c && (b < d || (b == d && x < y)))
  {
    assert [a, b, x][1..] == [b, x] && [c, d, y][1..] == [d, y];
    PairOrder(b, x, d, y);
  }

  /** Timespans are ordered by their length. */
  lemma TimespanOrder(d: Duration, e: Duration)
    ensures ValueLess(Timespan(d), Timespan(e)) <==> d.WholeNanoseconds() < e.WholeNanoseconds()
  {
    CmpByTag(Timespan(d), Timespan(e));
    PairOrder(d.secs as real, d.nanos as real, e.secs as real, e.nanos as real);
    DurationOrder(d, e);
  }

  lemma DurationOrder(d: Duration, e: Duration)
    ensures d.WholeNanoseconds() < e.WholeNanoseconds() <==> d.secs < e.secs || (d.secs == e.secs && d.nanos < e.nanos)
  {
  }

  /** IPv4 addresses come first; within a family the bits decide. */
  predicate IpBefore(a: Ip, b: Ip) {
    match (a, b)
    case (V4(m), V4(n)) => m < n
    case (V4(_), V6(_)) => true
    case (V6(_), V4(_)) => false
    case (V6(m), V6(n)) => m < n
  }

  /** Subnets are ordered by their addresses, and then by their prefixes. */
  lemma AddressOrder(a: Ip, b: Ip, m: Network, n: Network)
    ensures ValueLess(Address(a), Address(b)) <==> IpBefore(a, b)
    ensures ValueLess(Subnet(m), Subnet(n)) <==> IpBefore(m.ip, n.ip) || (m.ip == n.ip && m.prefix < n.prefix)
  {
    IpOrder(a, b);
    SubnetOrder(m, n);
  }

  lemma IpOrder(a: Ip, b: Ip)
    ensures ValueLess(Address(a), Address(b)) <==> IpBefore(a, b)
  {
    CmpByTag(Address(a), Address(b));
    var xs, ys := IpKey(a), IpKey(b);
    assert xs == [xs[0], xs[1]] && ys == [ys[0], ys[1]];
    PairOrder(xs[0], xs[1], ys[0], ys[1]);
  }

  lemma SubnetOrder(m: Network, n: Network)
    ensures ValueLess(Subnet(m), Subnet(n)) <==> IpBefore(m.ip, n.ip) || (m.ip == n.ip && m.prefix < n.prefix)
  {
    CmpByTag(Subnet(m), Subnet(n));
    var xs, ys := IpKey(m.ip), IpKey(n.ip);
    var x, y := m.prefix as real, n.prefix as real;
    assert xs + [x] == [xs[0], xs[1], x] && ys + [y] == [ys[0], ys[1], y];
    TripleOrder(xs[0], xs[1], x, ys[0], ys[1], y);
  }

  /** TCP, UDP, ICMP, and then the unknown protocol. */
  predicate ProtocolBefore(p: Protocol, q: Protocol) {
    match p
    case TCP => !q.TCP?
    case UDP => q.ICMP? || q.UNKNOWN?
    case ICMP => q.UNKNOWN?
    case UNKNOWN => false
  }

  /** Ports are ordered by their numbers, and then by their protocols. */
  lemma PortOrder(p: PortId, q: PortId)
    ensures ValueLess(Port(p), Port(q)) <==>
            p.number < q.number || (p.number == q.number && ProtocolBefore(p.protocol, q.protocol))
  {
    CmpByTag(Port(p), Port(q));
    PairOrder(p.number as real, ProtocolKey(p.protocol), q.number as real, ProtocolKey(q.protocol));
  }

  // ----- Containers -----

  lemma {:induction false} CmpSeqLexicographic(xs: seq<Value>, ys: seq<Value>)
    ensures CmpSeq(xs, ys) == Less <==> exists k: nat :: Below(ValueLess, xs, ys, k)
  {
    if xs == [] || ys == [] {
      BelowEmpty(ValueLess, xs, ys);
    } else {
      CmpEqual(xs[0], ys[0]);
      BelowStep(ValueLess, xs, ys);
      CmpSeqLexicographic(xs[1..], ys[1..]);
    }
  }

  /** Entries are compared by their keys, and by their values if the keys are equal. */
  predicate PairLess(x: TableEntry, y: TableEntry) {
    ValueLess(x.key, y.key) || (x.key == y.key && ValueLess(x.value, y.value))
  }

  lemma CmpEntryPair(x: TableEntry, y: TableEntry)
    ensures CmpEntry(x, y) == Less <==> PairLess(x, y)
    ensures CmpEntry(x, y) == Equal <==> x == y
  {
    CmpEqual(x.key, y.key);
    CmpEqual(x.value, y.value);
  }

  lemma {:induction false} CmpEntriesLexicographic(xs: seq<TableEntry>, ys: seq<TableEntry>)
    ensures CmpEntries(xs, ys) == Less <==> exists k: nat :: Below(PairLess, xs, ys, k)
  {
    if xs == [] || ys == [] {
      BelowEmpty(PairLess, xs, ys);
    } else {
      CmpEntryPair(xs[0], ys[0]);
      BelowStep(PairLess, xs, ys);
      CmpEntriesLexicographic(xs[1..], ys[1..]);
    }
  }

  lemma CmpVectors(xs: seq<Value>, ys: seq<Value>)
    ensures Cmp(Vector(xs), Vector(ys)) == CmpSeq(xs, ys)
  {
  }

  lemma CmpSets(xs: seq<Value>, ys: seq<Value>)
    ensures Cmp(Set(xs), Set(ys)) == CmpSeq(xs, ys)
  {
  }

  lemma CmpTables(ds: seq<TableEntry>, es: seq<TableEntry>)
    ensures Cmp(Table(ds), Table(es)) == CmpEntries(ds, es)
  {
  }

  /** Vectors, and sets by their ascending elements, are ordered lexicographically at any depth. */
  lemma LexicographicOrder(xs: seq<Value>, ys: seq<Value>)
    ensures ValueLess(Vector(xs), Vector(ys)) <==> exists k: nat :: Below(ValueLess, xs, ys, k)
    ensures ValueLess(Set(xs), Set(ys)) <==> exists k: nat :: Below(ValueLess, xs, ys, k)
  {
    CmpVectors(xs, ys);
    CmpSets(xs, ys);
    CmpSeqLexicographic(xs, ys);
  }

  /** So are tables by their ascending entries. */
  lemma TableOrder(ds: seq<TableEntry>, es: seq<TableEntry>)
    ensures ValueLess(Table(ds), Table(es)) <==> exists k: nat :: Below(PairLess, ds, es, k)
  {
    CmpTables(ds, es);
    CmpEntriesLexicographic(ds, es);
  }
}
