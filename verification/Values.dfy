/** The Zeek value type, its derived order, and the canonical form of its containers. */
module Values {
  import opened Ordering

  type U8 = n: int | 0 <= n < 0x100
  type U16 = n: int | 0 <= n < 0x1_0000
  type U32 = n: int | 0 <= n < 0x1_0000_0000
  type U64 = n: int | 0 <= n < 0x1_0000_0000_0000_0000
  type U128 = n: int | 0 <= n < 0x1_0000_0000_0000_0000_0000_0000_0000_0000
  type I32 = n: int | -0x8000_0000 <= n < 0x8000_0000
  type I64 = n: int | -0x8000_0000_0000_0000 <= n < 0x8000_0000_0000_0000

  predicate IsI64(n: int) {
    -0x8000_0000_0000_0000 <= n < 0x8000_0000_0000_0000
  }

  predicate IsU64(n: int) {
    0 <= n < 0x1_0000_0000_0000_0000
  }

  datatype Protocol = TCP | UDP | ICMP | UNKNOWN

  datatype PortId = PortId(number: U16, protocol: Protocol)

  /** `OrderedFloat<f64>`: all `NaN`s are one value, and so are the two zeros. */
  datatype Float = NegInf | Finite(r: real) | PosInf | NaN

  const NANOS_PER_SEC := 1_000_000_000

  /** `time::Duration`: both parts have the same sign and the nanoseconds stay below one second. */
  datatype RawDuration = Duration(secs: int, nanos: int) {
    predicate Normal() {
      && IsI64(secs)
      && -NANOS_PER_SEC < nanos < NANOS_PER_SEC
      && (secs > 0 ==> nanos >= 0)
      && (secs < 0 ==> nanos <= 0)
    }

    function WholeNanoseconds(): int {
      secs * NANOS_PER_SEC + nanos
    }
  }

  type Duration = d: RawDuration | d.Normal() witness RawDuration.Duration(0, 0)

  datatype Ip = V4(bits4: U32) | V6(bits6: U128) {
    function MaxPrefix(): int {
      if V4? then 32 else 128
    }
  }

  datatype RawNetwork = Network(ip: Ip, prefix: U8)

  type Network = n: RawNetwork | n.prefix <= n.ip.MaxPrefix() witness RawNetwork.Network(V4(0), 0)

  /** `elems` and `entries` are what the B-tree iterators yield; see `Valid`. */
  datatype Value =
    | None
    | Boolean(b: bool)
    | Count(n: U64)
    | Integer(i: I64)
    | Real(f: Float)
    | Timespan(d: Duration)
    | Timestamp(instant: int)
    | String(s: string)
    | EnumValue(name: string)
    | Address(ip: Ip)
    | Subnet(net: Network)
    | Port(port: PortId)
    | Vector(xs: seq<Value>)
    | Set(elems: seq<Value>)
    | Table(entries: seq<TableEntry>)

  datatype TableEntry = TableEntry(key: Value, value: Value)

  // ----- The derived order -----

  datatype Rel = Less | Equal | Greater {
    function Flip(): Rel {
      match this
      case Less => Greater
      case Equal => Equal
      case Greater => Less
    }

    /** Lexicographic continuation. */
    function Then(next: Rel): Rel {
      if Equal? then next else this
    }
  }

  function CmpReal(x: real, y: real): Rel {
    if x < y then Less else if x == y then Equal else Greater
  }

  function CmpKeys(xs: seq<real>, ys: seq<real>): Rel {
    if xs == [] || ys == [] then CmpReal(|xs| as real, |ys| as real)
    else CmpReal(xs[0], ys[0]).Then(CmpKeys(xs[1..], ys[1..]))
  }

  function Bit(b: bool): real { if b then 1.0 else 0.0 }

  /** Strings compare by bytes, which for UTF-8 is the order of the code points. */
  function StringKey(s: string): seq<real> {
    seq(|s|, i requires 0 <= i < |s| => s[i] as int as real)
  }

  function FloatKey(f: Float): seq<real> {
    match f
    case NegInf => [0.0]
    case Finite(r) => [1.0, r]
    case PosInf => [2.0]
    case NaN => [3.0]
  }

  function IpKey(ip: Ip): seq<real> {
    match ip
    case V4(b) => [4.0, b as real]
    case V6(b) => [6.0, b as real]
  }

  /** The position of a protocol in its declaration. */
  function ProtocolKey(p: Protocol): real {
    match p
    case TCP => 0.0
    case UDP => 1.0
    case ICMP => 2.0
    case UNKNOWN => 3.0
  }

  /** The position of a variant in the declaration of `Value`. */
  function Tag(v: Value): real {
    match v
    case None => 0.0
    case Boolean(_) => 1.0
    case Count(_) => 2.0
    case Integer(_) => 3.0
    case Real(_) => 4.0
    case Timespan(_) => 5.0
    case Timestamp(_) => 6.0
    case String(_) => 7.0
    case EnumValue(_) => 8.0
    case Address(_) => 9.0
    case Subnet(_) => 10.0
    case Port(_) => 11.0
    case Vector(_) => 12.0
    case Set(_) => 13.0
    case Table(_) => 14.0
  }

  /** The fields of a scalar, in the order in which the derived comparison visits them. */
  function ScalarKey(v: Value): seq<real> {
    match v
    case Boolean(b) => [Bit(b)]
    case Count(n) => [n as real]
    case Integer(i) => [i as real]
    case Real(f) => FloatKey(f)
    case Timespan(d) => [d.secs as real, d.nanos as real]
    case Timestamp(t) => [t as real]
    case String(s) => StringKey(s)
    case EnumValue(s) => StringKey(s)
    case Address(ip) => IpKey(ip)
    case Subnet(net) => IpKey(net.ip) + [net.prefix as real]
    case Port(p) => [p.number as real, ProtocolKey(p.protocol)]
    case _ => []
  }

  /** `#[derive(Ord)]`: variants in declaration order, then fields; containers element by element. */
  function Cmp(a: Value, b: Value): Rel
    decreases a, 1
  {
    match (a, b)
    case (Vector(xs), Vector(ys)) => CmpSeq(xs, ys)
    case (Set(xs), Set(ys)) => CmpSeq(xs, ys)
    case (Table(xs), Table(ys)) => CmpEntries(xs, ys)
    case _ => CmpReal(Tag(a), Tag(b)).Then(CmpKeys(ScalarKey(a), ScalarKey(b)))
  }

  function CmpSeq(xs: seq<Value>, ys: seq<Value>): Rel
    decreases xs, 0
  {
    if xs == [] || ys == [] then CmpReal(|xs| as real, |ys| as real)
    else Cmp(xs[0], ys[0]).Then(CmpSeq(xs[1..], ys[1..]))
  }

  function CmpEntries(xs: seq<TableEntry>, ys: seq<TableEntry>): Rel
    decreases xs, 0
  {
    if xs == [] || ys == [] then CmpReal(|xs| as real, |ys| as real)
    else CmpEntry(xs[0], ys[0]).Then(CmpEntries(xs[1..], ys[1..]))
  }

  function CmpEntry(x: TableEntry, y: TableEntry): Rel
    decreases x, 0
  {
    Cmp(x.key, y.key).Then(Cmp(x.value, y.value))
  }

  predicate ValueLess(a: Value, b: Value) {
    Cmp(a, b) == Less
  }

  predicate EntryLess(a: TableEntry, b: TableEntry) {
    ValueLess(a.key, b.key)
  }

  /** Every set and table, at any depth, is in the order a B-tree keeps. */
  predicate Valid(v: Value) {
    match v
    case Vector(xs) => forall x | x in xs :: Valid(x)
    case Set(xs) => Ascending(ValueLess, xs) && forall x | x in xs :: Valid(x)
    case Table(es) => Ascending(EntryLess, es) && forall e | e in es :: Valid(e.key) && Valid(e.value)
    case _ => true
  }

  predicate AllValid(xs: seq<Value>) {
    forall x | x in xs :: Valid(x)
  }

  predicate AllValidEntries(es: seq<TableEntry>) {
    forall e | e in es :: Valid(e.key) && Valid(e.value)
  }

  // ----- Keys -----

  lemma {:induction false} KeysFlip(xs: seq<real>, ys: seq<real>)
    ensures CmpKeys(ys, xs) == CmpKeys(xs, ys).Flip()
  {
    if xs != [] && ys != [] { KeysFlip(xs[1..], ys[1..]); }
  }

  lemma {:induction false} KeysEqual(xs: seq<real>, ys: seq<real>)
    ensures CmpKeys(xs, ys) == Equal <==> xs == ys
  {
    if xs != [] && ys != [] {
      KeysEqual(xs[1..], ys[1..]);
      HeadTail(xs, ys);
    }
  }

  lemma {:induction false} KeysTransitive(xs: seq<real>, ys: seq<real>, zs: seq<real>)
    requires CmpKeys(xs, ys) == Less && CmpKeys(ys, zs) == Less
    ensures CmpKeys(xs, zs) == Less
  {
    if xs != [] && ys != [] && zs != [] && xs[0] == ys[0] == zs[0] {
      KeysTransitive(xs[1..], ys[1..], zs[1..]);
    }
  }

  lemma StringKeyInjective(s: string, t: string)
    requires StringKey(s) == StringKey(t)
    ensures s == t
  {
    assert |s| == |StringKey(s)| == |StringKey(t)| == |t|;
    forall i | 0 <= i < |s| ensures s[i] == t[i] {
      assert StringKey(s)[i] == StringKey(t)[i];
    }
  }

  /** A scalar is determined by its variant and its fields. */
  lemma ScalarKeyInjective(a: Value, b: Value)
    requires Tag(a) == Tag(b) && ScalarKey(a) == ScalarKey(b)
    requires !a.Vector? && !a.Set? && !a.Table?
    ensures a == b
  {
    match a {
      case String(s) => StringKeyInjective(s, b.s);
      case EnumValue(s) => StringKeyInjective(s, b.name);
      case Subnet(net) =>
        var k, l := IpKey(net.ip) + [net.prefix as real], IpKey(b.net.ip) + [b.net.prefix as real];
        assert k[0] == l[0] && k[1] == l[1] && k[2] == l[2];
      case Address(ip) => assert IpKey(ip)[0] == IpKey(b.ip)[0] && IpKey(ip)[1] == IpKey(b.ip)[1];
      case Boolean(x) => assert ScalarKey(a)[0] == ScalarKey(b)[0];
      case Count(x) => assert ScalarKey(a)[0] == ScalarKey(b)[0];
      case Integer(x) => assert ScalarKey(a)[0] == ScalarKey(b)[0];
      case Timestamp(x) => assert ScalarKey(a)[0] == ScalarKey(b)[0];
      case Real(f) =>
        assert FloatKey(f)[0] == FloatKey(b.f)[0];
        if f.Finite? { assert FloatKey(f)[1] == FloatKey(b.f)[1]; }
      case Timespan(d) =>
        assert ScalarKey(a)[0] == ScalarKey(b)[0] && ScalarKey(a)[1] == ScalarKey(b)[1];
      case Port(p) =>
        assert ScalarKey(a)[0] == ScalarKey(b)[0] && ScalarKey(a)[1] == ScalarKey(b)[1];
      case _ =>
    }
  }

  // ----- The order is total -----

  lemma CmpByTag(a: Value, b: Value)
    ensures Tag(a) != Tag(b) ==> Cmp(a, b) == CmpReal(Tag(a), Tag(b))
    ensures Tag(a) == Tag(b) && !a.Vector? && !a.Set? && !a.Table? ==> Cmp(a, b) == CmpKeys(ScalarKey(a), ScalarKey(b))
  {
  }

  lemma {:induction false} CmpFlip(a: Value, b: Value)
    ensures Cmp(b, a) == Cmp(a, b).Flip()
    decreases a, 1
  {
    CmpByTag(a, b);
    CmpByTag(b, a);
    if Tag(a) == Tag(b) {
      match a {
        case Vector(xs) => CmpSeqFlip(xs, b.xs);
        case Set(xs) => CmpSeqFlip(xs, b.elems);
        case Table(xs) => CmpEntriesFlip(xs, b.entries);
        case _ => KeysFlip(ScalarKey(a), ScalarKey(b));
      }
    }
  }

  lemma {:induction false} CmpSeqFlip(xs: seq<Value>, ys: seq<Value>)
    ensures CmpSeq(ys, xs) == CmpSeq(xs, ys).Flip()
    decreases xs, 0
  {
    if xs != [] && ys != [] {
      CmpFlip(xs[0], ys[0]);
      CmpSeqFlip(xs[1..], ys[1..]);
    }
  }

  lemma {:induction false} CmpEntriesFlip(xs: seq<TableEntry>, ys: seq<TableEntry>)
    ensures CmpEntries(ys, xs) == CmpEntries(xs, ys).Flip()
    decreases xs, 0
  {
    if xs != [] && ys != [] {
      CmpEntryFlip(xs[0], ys[0]);
      CmpEntriesFlip(xs[1..], ys[1..]);
    }
  }

  lemma {:induction false} CmpEntryFlip(x: TableEntry, y: TableEntry)
    ensures CmpEntry(y, x) == CmpEntry(x, y).Flip()
    decreases x, 0
  {
    CmpFlip(x.key, y.key);
    CmpFlip(x.value, y.value);
  }

  /** The order agrees with equality. */
  lemma {:induction false} CmpEqual(a: Value, b: Value)
    ensures Cmp(a, b) == Equal <==> a == b
    decreases a, 1
  {
    CmpByTag(a, b);
    if Tag(a) == Tag(b) {
      match a {
        case Vector(xs) => CmpSeqEqual(xs, b.xs);
        case Set(xs) => CmpSeqEqual(xs, b.elems);
        case Table(xs) => CmpEntriesEqual(xs, b.entries);
        case _ =>
          KeysEqual(ScalarKey(a), ScalarKey(b));
          if Cmp(a, b) == Equal { ScalarKeyInjective(a, b); }
      }
    }
  }

  lemma {:induction false} CmpSeqEqual(xs: seq<Value>, ys: seq<Value>)
    ensures CmpSeq(xs, ys) == Equal <==> xs == ys
    decreases xs, 0
  {
    if xs != [] && ys != [] {
      CmpEqual(xs[0], ys[0]);
      CmpSeqEqual(xs[1..], ys[1..]);
      HeadTail(xs, ys);
    }
  }

  lemma {:induction false} CmpEntriesEqual(xs: seq<TableEntry>, ys: seq<TableEntry>)
    ensures CmpEntries(xs, ys) == Equal <==> xs == ys
    decreases xs, 0
  {
    if xs != [] && ys != [] {
      CmpEntryEqual(xs[0], ys[0]);
      CmpEntriesEqual(xs[1..], ys[1..]);
      HeadTail(xs, ys);
    }
  }

  lemma {:induction false} CmpEntryEqual(x: TableEntry, y: TableEntry)
    ensures CmpEntry(x, y) == Equal <==> x == y
    decreases x, 0
  {
    CmpEqual(x.key, y.key);
    CmpEqual(x.value, y.value);
  }

  lemma {:induction false} CmpTransitive(a: Value, b: Value, c: Value)
    requires Cmp(a, b) == Less && Cmp(b, c) == Less
    ensures Cmp(a, c) == Less
    decreases a, 1
  {
    CmpByTag(a, b);
    CmpByTag(b, c);
    CmpByTag(a, c);
    if Tag(a) == Tag(b) == Tag(c) {
      match a {
        case Vector(xs) => CmpSeqTransitive(xs, b.xs, c.xs);
        case Set(xs) => CmpSeqTransitive(xs, b.elems, c.elems);
        case Table(xs) => CmpEntriesTransitive(xs, b.entries, c.entries);
        case _ => KeysTransitive(ScalarKey(a), ScalarKey(b), ScalarKey(c));
      }
    }
  }

  lemma {:induction false} CmpSeqTransitive(xs: seq<Value>, ys: seq<Value>, zs: seq<Value>)
    requires CmpSeq(xs, ys) == Less && CmpSeq(ys, zs) == Less
    ensures CmpSeq(xs, zs) == Less
    decreases xs, 0
  {
    if xs != [] && ys != [] && zs != [] {
      CmpEqual(xs[0], ys[0]);
      CmpEqual(ys[0], zs[0]);
      if xs[0] == ys[0] == zs[0] {
        CmpSeqTransitive(xs[1..], ys[1..], zs[1..]);
      } else if xs[0] != ys[0] && ys[0] != zs[0] {
        CmpTransitive(xs[0], ys[0], zs[0]);
      }
    }
  }

  lemma {:induction false} CmpEntriesTransitive(xs: seq<TableEntry>, ys: seq<TableEntry>, zs: seq<TableEntry>)
    requires CmpEntries(xs, ys) == Less && CmpEntries(ys, zs) == Less
    ensures CmpEntries(xs, zs) == Less
    decreases xs, 0
  {
    if xs != [] && ys != [] && zs != [] {
      CmpEntryEqual(xs[0], ys[0]);
      CmpEntryEqual(ys[0], zs[0]);
      if xs[0] == ys[0] == zs[0] {
        CmpEntriesTransitive(xs[1..], ys[1..], zs[1..]);
      } else if xs[0] != ys[0] && ys[0] != zs[0] {
        CmpEntryTransitive(xs[0], ys[0], zs[0]);
      }
    }
  }

  lemma {:induction false} CmpEntryTransitive(x: TableEntry, y: TableEntry, z: TableEntry)
    requires CmpEntry(x, y) == Less && CmpEntry(y, z) == Less
    ensures CmpEntry(x, z) == Less
    decreases x, 0
  {
    CmpEqual(x.key, y.key);
    CmpEqual(y.key, z.key);
    if x.key != y.key && y.key != z.key {
      CmpTransitive(x.key, y.key, z.key);
    } else if x.key == y.key == z.key {
      CmpTransitive(x.value, y.value, z.value);
    }
  }

  /** The derived order is a strict total order, and equivalent values are equal. */
  lemma ValueOrderTotal()
    ensures WeakOrder(ValueLess)
    ensures WeakOrder(EntryLess)
    ensures forall a, b :: ValueLess(a, b) || a == b || ValueLess(b, a)
    ensures forall a, b :: Same(ValueLess, a, b) <==> a == b
    ensures forall a, b :: Same(EntryLess, a, b) <==> a.key == b.key
  {
    forall a, b ensures Cmp(b, a) == Cmp(a, b).Flip() && (Cmp(a, b) == Equal <==> a == b) {
      CmpFlip(a, b);
      CmpEqual(a, b);
    }
    forall a, b, c | ValueLess(a, b) && ValueLess(b, c) ensures ValueLess(a, c) {
      CmpTransitive(a, b, c);
    }
  }

  // ----- Canonical containers -----

  function SetOf(xs: seq<Value>): Value {
    Set(Collect(ValueLess, xs))
  }

  function TableOf(es: seq<TableEntry>): Value {
    Table(Collect(EntryLess, es))
  }

  /** Equal contents make equal sets, whatever order and repetition they were collected from. */
  lemma SetCanonical(xs: seq<Value>, ys: seq<Value>)
    requires AllValid(xs)
    ensures Valid(SetOf(xs)) && |SetOf(xs).elems| <= |xs|
    ensures forall y :: y in SetOf(xs).elems <==> y in xs
    ensures SetOf(xs) == SetOf(ys) <==> (forall y :: y in xs <==> y in ys)
  {
    ValueOrderTotal();
    CollectSpec(ValueLess, xs);
    CollectSpec(ValueLess, ys);
    CollectedSet(xs);
    CollectedSet(ys);
    if forall y :: y in xs <==> y in ys {
      AscendingUnique(ValueLess, SetOf(xs).elems, SetOf(ys).elems);
    }
  }

  lemma CollectedSet(xs: seq<Value>)
    ensures forall y :: y in SetOf(xs).elems <==> y in xs
  {
    ValueOrderTotal();
    CollectSpec(ValueLess, xs);
    forall y | y in xs ensures y in SetOf(xs).elems {
      LastOccurrence(xs, y);
    }
  }

  lemma {:induction false} LastOccurrence(xs: seq<Value>, y: Value)
    requires y in xs
    ensures exists i: nat :: LastOfClass(ValueLess, xs, i) && xs[i] == y
  {
    ValueOrderTotal();
    var i := |xs| - 1;
    while xs[i] != y
      invariant 0 <= i < |xs|
      invariant y in xs[..i + 1]
      invariant forall j | i < j < |xs| :: xs[j] != y
      decreases i
    {
      assert xs[..i + 1] == xs[..i] + [xs[i]];
      i := i - 1;
    }
    assert LastOfClass(ValueLess, xs, i);
  }

  /** A collected table keeps, for each key, exactly the last entry given for it. */
  lemma TableCanonical(es: seq<TableEntry>)
    requires AllValidEntries(es)
    ensures Valid(TableOf(es)) && |TableOf(es).entries| <= |es|
    ensures forall e :: e in TableOf(es).entries <==>
              exists i: nat :: i < |es| && es[i] == e && forall j | i < j < |es| :: es[j].key != e.key
  {
    ValueOrderTotal();
    CollectSpec(EntryLess, es);
    forall e ensures e in TableOf(es).entries <==>
                exists i: nat :: i < |es| && es[i] == e && forall j | i < j < |es| :: es[j].key != e.key {
      if i: nat :| i < |es| && es[i] == e && forall j | i < j < |es| :: es[j].key != e.key {
        assert LastOfClass(EntryLess, es, i);
      }
    }
  }

  lemma SetOfValid(xs: seq<Value>)
    requires AllValid(xs)
    ensures Valid(SetOf(xs))
  {
    SetCanonical(xs, xs);
  }

  lemma TableOfValid(es: seq<TableEntry>)
    requires AllValidEntries(es)
    ensures Valid(TableOf(es))
  {
    TableCanonical(es);
  }

  /** Collecting the elements of a set, or the entries of a table, rebuilds it. */
  lemma SetRebuilt(xs: seq<Value>)
    requires Ascending(ValueLess, xs)
    ensures SetOf(xs) == Set(xs)
  {
    ValueOrderTotal();
    CollectAscending(ValueLess, xs);
  }

  lemma TableRebuilt(es: seq<TableEntry>)
    requires Ascending(EntryLess, es)
    ensures TableOf(es) == Table(es)
  {
    ValueOrderTotal();
    CollectAscending(EntryLess, es);
  }
}
