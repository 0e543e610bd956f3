/** Values of the Node binding, and their way to the wire type and back. */
module NodeValues {
  import opened Wrappers
  import opened Ordering
  import opened Values
  import opened Floats
  import opened NodeIntegers
  import opened NodeTimespans
  import Timespans
  import ValueCodec

  /** A JavaScript big integer: a sign and 64-bit words, the least significant one first. */
  datatype RawBigInt = BigInt(negative: bool, words: seq<U64>)

  type BigInt = b: RawBigInt | b.words != [] witness RawBigInt.BigInt(false, [0])

  datatype NodeValue =
    | NNone
    | NBoolean(b: bool)
    | NCount(big: BigInt)
    | NInteger(i: I64)
    | NReal(f: Float)
    | NTimespan(nanos: I64)
    | NTimestamp(at: I64)
    | NString(s: string)
    | NEnumValue(name: string)
    | NAddress(ip: string)
    | NSubnet(net: string)
    | NPort(number: U16, protocol: Protocol)
    | NVector(xs: seq<NodeValue>)
    | NSet(elems: seq<NodeValue>)
    | NTable(entries: seq<NodeEntry>)

  datatype NodeEntry = NodeEntry(key: NodeValue, value: NodeValue)

  /** `Abort` is the overflow check of the duration constructor. */
  datatype NodeError = NotRepresentable | Abort

  /** What the host decides: text forms, and timestamps in its local time. */
  datatype Host = Host(texts: ValueCodec.Texts, instantToNode: int -> Option<I64>, instantFromNode: I64 -> Option<int>)

  function OrFail<T>(x: Option<T>): Result<T, NodeError> {
    match x
    case Some(y) => Ok(y)
    case None => Err(NotRepresentable)
  }

  /** Sign, low word, and whether the low word is all there is. */
  function GetU64(b: BigInt): (bool, U64, bool) {
    (b.negative, b.words[0], |b.words| == 1)
  }

  // ----- To Node -----

  function ToNode(h: Host, v: Value): Result<NodeValue, NodeError>
    decreases v, 1
  {
    match v
    case None => Ok(NNone)
    case Boolean(b) => Ok(NBoolean(b))
    case Count(n) => Ok(NCount(RawBigInt.BigInt(false, [n])))
    case Integer(i) => Ok(NInteger(i))
    case Real(f) => Ok(NReal(f))
    case Timespan(d) =>
      var n :- OrFail(FromDuration(d));
      Ok(NTimespan(n))
    case Timestamp(x) =>
      var n :- OrFail(h.instantToNode(x));
      Ok(NTimestamp(n))
    case String(s) => Ok(NString(s))
    case EnumValue(s) => Ok(NEnumValue(s))
    case Address(ip) => Ok(NAddress(h.texts.showIp(ip)))
    case Subnet(net) => Ok(NSubnet(h.texts.showNet(net)))
    case Port(p) => Ok(NPort(p.number, p.protocol))
    case Vector(xs) =>
      var ns :- ToNodeSeq(h, xs);
      Ok(NVector(ns))
    case Set(xs) =>
      var ns :- ToNodeSeq(h, xs);
      Ok(NSet(ns))
    case Table(es) =>
      var ns :- ToNodeEntries(h, es);
      Ok(NTable(ns))
  }

  function ToNodeSeq(h: Host, xs: seq<Value>): Result<seq<NodeValue>, NodeError>
    decreases xs, 0
  {
    if xs == [] then Ok([])
    else
      var n :- ToNode(h, xs[0]);
      var ns :- ToNodeSeq(h, xs[1..]);
      Ok([n] + ns)
  }

  function ToNodeEntry(h: Host, e: TableEntry): Result<NodeEntry, NodeError>
    decreases e, 0
  {
    var k :- ToNode(h, e.key);
    var v :- ToNode(h, e.value);
    Ok(NodeEntry(k, v))
  }

  function ToNodeEntries(h: Host, es: seq<TableEntry>): Result<seq<NodeEntry>, NodeError>
    decreases es, 0
  {
    if es == [] then Ok([])
    else
      var n :- ToNodeEntry(h, es[0]);
      var ns :- ToNodeEntries(h, es[1..]);
      Ok([n] + ns)
  }

  // ----- From Node -----

  ghost function FromNode(h: Host, n: NodeValue): Result<Value, NodeError>
    decreases n, 1
  {
    match n
    case NNone => Ok(Value.None)
    case NBoolean(b) => Ok(Boolean(b))
    case NCount(big) =>
      var (_, value, lossless) := GetU64(big);
      if lossless then Ok(Count(value)) else Err(NotRepresentable)
    case NInteger(i) => Ok(Integer(i))
    case NReal(f) => Ok(Real(f))
    case NTimespan(nanos) =>
      (match ToDuration(nanos)
       case Some(d) => Ok(Timespan(d))
       case None => Err(Abort))
    case NTimestamp(at) =>
      var x :- OrFail(h.instantFromNode(at));
      Ok(Timestamp(x))
    case NString(s) => Ok(String(s))
    case NEnumValue(s) => Ok(EnumValue(s))
    case NAddress(s) =>
      var ip :- OrFail(h.texts.readIp(s));
      Ok(Address(ip))
    case NSubnet(s) =>
      var net :- OrFail(h.texts.readNet(s));
      Ok(Subnet(net))
    case NPort(number, protocol) => Ok(Port(PortId(number, protocol)))
    case NVector(ns) =>
      var xs :- FromNodeSeq(h, ns);
      Ok(Vector(xs))
    case NSet(ns) =>
      var xs :- FromNodeSeq(h, ns);
      Ok(SetOf(xs))
    case NTable(ns) =>
      var es :- FromNodeEntries(h, ns);
      Ok(TableOf(es))
  }

  ghost function FromNodeSeq(h: Host, ns: seq<NodeValue>): Result<seq<Value>, NodeError>
    decreases ns, 0
  {
    if ns == [] then Ok([])
    else
      var x :- FromNode(h, ns[0]);
      var xs :- FromNodeSeq(h, ns[1..]);
      Ok([x] + xs)
  }

  ghost function FromNodeEntry(h: Host, n: NodeEntry): Result<TableEntry, NodeError>
    decreases n, 0
  {
    var k :- FromNode(h, n.key);
    var v :- FromNode(h, n.value);
    Ok(TableEntry(k, v))
  }

  ghost function FromNodeEntries(h: Host, ns: seq<NodeEntry>): Result<seq<TableEntry>, NodeError>
    decreases ns, 0
  {
    if ns == [] then Ok([])
    else
      var e :- FromNodeEntry(h, ns[0]);
      var es :- FromNodeEntries(h, ns[1..]);
      Ok([e] + es)
  }

  // ----- The conversions, variant by variant -----

  /** A conversion to Node and the one that undoes it. */
  ghost predicate Corresponds(h: Host, v: Value, n: NodeValue) {
    ToNode(h, v) == Ok(n) && FromNode(h, n) == Ok(v)
  }

  lemma PlainForms(h: Host, b: bool, m: U64, i: I64, f: Float)
    ensures Corresponds(h, Value.None, NNone)
    ensures Corresponds(h, Boolean(b), NBoolean(b))
    ensures Corresponds(h, Count(m), NCount(RawBigInt.BigInt(false, [m])))
    ensures Corresponds(h, Integer(i), NInteger(i))
    ensures Corresponds(h, Real(f), NReal(f))
  {
  }

  lemma TextForms(h: Host, s: string, number: U16, protocol: Protocol)
    ensures Corresponds(h, String(s), NString(s))
    ensures Corresponds(h, EnumValue(s), NEnumValue(s))
    ensures Corresponds(h, Port(PortId(number, protocol)), NPort(number, protocol))
  {
  }

  /** Addresses and subnets pass through their texts, timespans and timestamps through nanoseconds. */
  lemma HostForms(h: Host, ip: Ip, net: Network, d: Duration, x: int)
    ensures ToNode(h, Address(ip)) == Ok(NAddress(h.texts.showIp(ip)))
    ensures ToNode(h, Subnet(net)) == Ok(NSubnet(h.texts.showNet(net)))
    ensures var n := d.secs * 1_000_000_000 + d.nanos;
            ToNode(h, Timespan(d)) == if IsI64(n) then Ok(NTimespan(n)) else Err(NotRepresentable)
    ensures ToNode(h, Timestamp(x)) ==
            match h.instantToNode(x) case Some(n) => Ok(NTimestamp(n)) case None => Err(NotRepresentable)
  {
  }

  /** What comes from Node is refused if the host does not read it, or if a number has several words. */
  lemma FromHostForms(h: Host, s: string, at: I64, b: BigInt)
    ensures FromNode(h, NAddress(s)) ==
            match h.texts.readIp(s) case Some(ip) => Ok(Address(ip)) case None => Err(NotRepresentable)
    ensures FromNode(h, NSubnet(s)) ==
            match h.texts.readNet(s) case Some(net) => Ok(Subnet(net)) case None => Err(NotRepresentable)
    ensures FromNode(h, NTimestamp(at)) ==
            match h.instantFromNode(at) case Some(x) => Ok(Timestamp(x)) case None => Err(NotRepresentable)
    ensures FromNode(h, NCount(b)) == if |b.words| == 1 then Ok(Count(b.words[0])) else Err(NotRepresentable)
  {
  }

  lemma {:induction false} ElementsFrom(h: Host, ns: seq<NodeValue>, xs: seq<Value>)
    requires |ns| == |xs| && forall i | 0 <= i < |xs| :: FromNode(h, ns[i]) == Ok(xs[i])
    ensures FromNodeSeq(h, ns) == Ok(xs)
  {
    if ns == [] {
      assert xs == [];
    } else {
      assert FromNode(h, ns[0]) == Ok(xs[0]);
      ElementsFrom(h, ns[1..], xs[1..]);
      assert xs == [xs[0]] + xs[1..];
    }
  }

  lemma {:induction false} EntriesFrom(h: Host, ns: seq<NodeEntry>, es: seq<TableEntry>)
    requires |ns| == |es|
    requires forall i | 0 <= i < |es| ::
               FromNode(h, ns[i].key) == Ok(es[i].key) && FromNode(h, ns[i].value) == Ok(es[i].value)
    ensures FromNodeEntries(h, ns) == Ok(es)
  {
    if ns == [] {
      assert es == [];
    } else {
      assert FromNode(h, ns[0].key) == Ok(es[0].key) && FromNode(h, ns[0].value) == Ok(es[0].value);
      EntriesFrom(h, ns[1..], es[1..]);
      assert es == [es[0]] + es[1..];
    }
  }

  /** A vector from Node keeps its elements, in any order and number; a set is collected. */
  lemma ContainersFrom(h: Host, ns: seq<NodeValue>, xs: seq<Value>)
    requires |ns| == |xs| && forall i | 0 <= i < |xs| :: FromNode(h, ns[i]) == Ok(xs[i])
    ensures FromNode(h, NVector(ns)) == Ok(Vector(xs)) && FromNode(h, NSet(ns)) == Ok(SetOf(xs))
  {
    ElementsFrom(h, ns, xs);
  }

  /** So is a table, of which the last entry for a key is kept. */
  lemma TablesFrom(h: Host, ns: seq<NodeEntry>, es: seq<TableEntry>)
    requires |ns| == |es|
    requires forall i | 0 <= i < |es| ::
               FromNode(h, ns[i].key) == Ok(es[i].key) && FromNode(h, ns[i].value) == Ok(es[i].value)
    ensures FromNode(h, NTable(ns)) == Ok(TableOf(es))
  {
    EntriesFrom(h, ns, es);
  }

  lemma {:induction false} ElementForms(h: Host, xs: seq<Value>, ns: seq<NodeValue>)
    requires |ns| == |xs| && forall i | 0 <= i < |xs| :: ToNode(h, xs[i]) == Ok(ns[i])
    ensures ToNodeSeq(h, xs) == Ok(ns)
  {
    if xs == [] {
      assert ns == [];
    } else {
      assert ToNode(h, xs[0]) == Ok(ns[0]);
      ElementForms(h, xs[1..], ns[1..]);
      assert ns == [ns[0]] + ns[1..];
    }
  }

  lemma {:induction false} EntryForms(h: Host, es: seq<TableEntry>, ns: seq<NodeEntry>)
    requires |ns| == |es|
    requires forall i | 0 <= i < |es| ::
               ToNode(h, es[i].key) == Ok(ns[i].key) && ToNode(h, es[i].value) == Ok(ns[i].value)
    ensures ToNodeEntries(h, es) == Ok(ns)
  {
    if es == [] {
      assert ns == [];
    } else {
      assert ToNode(h, es[0].key) == Ok(ns[0].key) && ToNode(h, es[0].value) == Ok(ns[0].value);
      EntryForms(h, es[1..], ns[1..]);
      assert ns == [ns[0]] + ns[1..];
    }
  }

  /** Containers keep their kind and the order of their elements. */
  lemma ContainerForms(h: Host, xs: seq<Value>, ns: seq<NodeValue>)
    requires |ns| == |xs| && forall i | 0 <= i < |xs| :: ToNode(h, xs[i]) == Ok(ns[i])
    ensures ToNode(h, Vector(xs)) == Ok(NVector(ns)) && ToNode(h, Set(xs)) == Ok(NSet(ns))
  {
    ElementForms(h, xs, ns);
  }

  lemma TableForms(h: Host, es: seq<TableEntry>, ns: seq<NodeEntry>)
    requires |ns| == |es|
    requires forall i | 0 <= i < |es| ::
               ToNode(h, es[i].key) == Ok(ns[i].key) && ToNode(h, es[i].value) == Ok(ns[i].value)
    ensures ToNode(h, Table(es)) == Ok(NTable(ns))
  {
    EntryForms(h, es, ns);
  }

  // ----- What the way through Node does -----

  predicate Scalar(v: Value) {
    !v.Vector? && !v.Set? && !v.Table?
  }

  /** The property holds of every scalar, at any depth. */
  predicate Everywhere(p: Value -> bool, v: Value) {
    match v
    case Vector(xs) => forall x | x in xs :: Everywhere(p, x)
    case Set(xs) => forall x | x in xs :: Everywhere(p, x)
    case Table(es) => forall e | e in es :: Everywhere(p, e.key) && Everywhere(p, e.value)
    case _ => p(v)
  }

  /** Timespans need nanoseconds in `i64`, and timestamps a local time with nanoseconds in `i64`. */
  predicate Sendable(h: Host, v: Value) {
    match v
    case Timespan(d) => IsI64(d.WholeNanoseconds())
    case Timestamp(x) => h.instantToNode(x).Some?
    case _ => true
  }

  /** A timestamp also needs an instant for its local time. */
  predicate Returnable(h: Host, v: Value) {
    match v
    case Timespan(d) => IsI64(d.WholeNanoseconds())
    case Timestamp(x) => InstantBack(h, x).Some?
    case _ => true
  }

  function InstantBack(h: Host, x: int): Option<int> {
    match h.instantToNode(x)
    case Some(n) => h.instantFromNode(n)
    case None => Option.None
  }

  function HasNodeForm(h: Host): Value -> bool {
    (v: Value) => Sendable(h, v)
  }

  function ComesBack(h: Host): Value -> bool {
    (v: Value) => Returnable(h, v)
  }

  function InstantKept(h: Host): Value -> bool {
    (v: Value) => v.Timestamp? ==> InstantBack(h, v.instant) == Some(v.instant)
  }

  function TimespanKept(): Value -> bool {
    (v: Value) => v.Timespan? ==> IsI64(v.d.WholeNanoseconds()) && Survives(v.d.WholeNanoseconds())
  }

  function OfLength(n: int): Duration
    requires Magnitude(n) <= TWO63
  {
    Timespans.TruncFacts(n, NANOS_PER_SEC);
    RawDuration.Duration(Timespans.TruncDiv(n, NANOS_PER_SEC), Timespans.TruncRem(n, NANOS_PER_SEC))
  }

  function RoundedTimespan(d: Duration): Duration {
    var n := d.WholeNanoseconds();
    if IsI64(n) then
      SecondTripKept(n);
      OfLength(Settled(n))
    else d
  }

  /** The value with every timespan settled, every instant taken through the host, and its containers
      collected anew. */
  function Rounded(h: Host, v: Value): Value
    decreases v, 1
  {
    match v
    case Timespan(d) => Timespan(RoundedTimespan(d))
    case Timestamp(x) =>
      (match InstantBack(h, x)
       case Some(y) => Timestamp(y)
       case None => v)
    case Vector(xs) => Vector(RoundedSeq(h, xs))
    case Set(xs) => SetOf(RoundedSeq(h, xs))
    case Table(es) => TableOf(RoundedEntries(h, es))
    case _ => v
  }

  function RoundedSeq(h: Host, xs: seq<Value>): seq<Value>
    decreases xs, 0
  {
    seq(|xs|, i requires 0 <= i < |xs| => Rounded(h, xs[i]))
  }

  function RoundedEntries(h: Host, es: seq<TableEntry>): seq<TableEntry>
    decreases es, 0
  {
    seq(|es|, i requires 0 <= i < |es| => RoundedEntry(h, es[i]))
  }

  function RoundedEntry(h: Host, e: TableEntry): TableEntry
    decreases e, 0
  {
    TableEntry(Rounded(h, e.key), Rounded(h, e.value))
  }

  ghost function Through(h: Host, v: Value): Result<Value, NodeError> {
    var n :- ToNode(h, v);
    FromNode(h, n)
  }

  lemma LengthOf(n: int)
    requires Magnitude(n) <= TWO63
    ensures OfLength(n).WholeNanoseconds() == n
  {
  }

  lemma TimespanThrough(d: Duration)
    requires IsI64(d.WholeNanoseconds())
    ensures ToDuration(d.WholeNanoseconds()) == Some(RoundedTimespan(d))
  {
    var n := d.WholeNanoseconds();
    ToDurationSettled(n);
    SecondTripKept(n);
    LengthOf(Settled(n));
    Timespans.DurationUnique(ToDuration(n).value, RoundedTimespan(d));
  }

  // ----- To Node: when it succeeds -----

  /** The conversion to Node has only one error, met exactly when the condition fails. */
  predicate SucceedsIff<T>(r: Result<T, NodeError>, condition: bool) {
    if condition then r.Ok? else r == Err(NotRepresentable)
  }

  /** The conversion to Node succeeds exactly if every timespan's nanoseconds fit `i64` and every
      timestamp has a Node form, at any depth. */
  lemma {:induction false} ToNodeSucceeds(h: Host, v: Value)
    ensures SucceedsIff(ToNode(h, v), Everywhere(HasNodeForm(h), v))
    decreases v, 1
  {
    match v {
      case Vector(xs) =>
        ToNodeSeqSucceeds(h, xs);
        ContainersSucceed(h, xs, [], Everywhere(HasNodeForm(h), v));
      case Set(xs) =>
        ToNodeSeqSucceeds(h, xs);
        ContainersSucceed(h, xs, [], Everywhere(HasNodeForm(h), v));
      case Table(es) =>
        ToNodeEntriesSucceeds(h, es);
        ContainersSucceed(h, [], es, Everywhere(HasNodeForm(h), v));
      case _ => ScalarSucceeds(h, v);
    }
  }

  lemma ContainersSucceed(h: Host, xs: seq<Value>, es: seq<TableEntry>, condition: bool)
    ensures SucceedsIff(ToNodeSeq(h, xs), condition) ==>
              SucceedsIff(ToNode(h, Vector(xs)), condition) && SucceedsIff(ToNode(h, Set(xs)), condition)
    ensures SucceedsIff(ToNodeEntries(h, es), condition) ==> SucceedsIff(ToNode(h, Table(es)), condition)
  {
  }

  lemma ScalarSucceeds(h: Host, v: Value)
    requires Scalar(v)
    ensures SucceedsIff(ToNode(h, v), Sendable(h, v))
  {
  }

  lemma {:induction false} ToNodeSeqSucceeds(h: Host, xs: seq<Value>)
    ensures SucceedsIff(ToNodeSeq(h, xs), forall x | x in xs :: Everywhere(HasNodeForm(h), x))
    decreases xs, 0
  {
    if xs == [] {
      assert ToNodeSeq(h, xs).Ok?;
    } else {
      ToNodeSucceeds(h, xs[0]);
      ToNodeSeqSucceeds(h, xs[1..]);
      assert xs == [xs[0]] + xs[1..];
    }
  }

  lemma {:induction false} ToNodeEntrySucceeds(h: Host, e: TableEntry)
    ensures SucceedsIff(ToNodeEntry(h, e), Everywhere(HasNodeForm(h), e.key) && Everywhere(HasNodeForm(h), e.value))
    decreases e, 0
  {
    ToNodeSucceeds(h, e.key);
    ToNodeSucceeds(h, e.value);
  }

  lemma {:induction false} ToNodeEntriesSucceeds(h: Host, es: seq<TableEntry>)
    ensures SucceedsIff(
              ToNodeEntries(h, es),
              forall e | e in es :: Everywhere(HasNodeForm(h), e.key) && Everywhere(HasNodeForm(h), e.value))
    decreases es, 0
  {
    if es == [] {
      assert ToNodeEntries(h, es).Ok?;
    } else {
      ToNodeEntrySucceeds(h, es[0]);
      ToNodeEntriesSucceeds(h, es[1..]);
      assert es == [es[0]] + es[1..];
    }
  }

  // ----- Back from Node -----

  function IfSome<T>(condition: bool, x: T): Result<T, NodeError> {
    if condition then Ok(x) else Err(NotRepresentable)
  }

  lemma TimespanBack(h: Host, d: Duration)
    requires ToNode(h, Timespan(d)).Ok?
    ensures FromNode(h, ToNode(h, Timespan(d)).value) == Ok(Rounded(h, Timespan(d)))
  {
    TimespanThrough(d);
    var n := d.WholeNanoseconds();
    assert ToNode(h, Timespan(d)) == Ok(NTimespan(n));
    assert FromNode(h, NTimespan(n)) == Ok(Timespan(RoundedTimespan(d)));
  }

  lemma TimestampBack(h: Host, x: int)
    requires ToNode(h, Timestamp(x)).Ok?
    ensures FromNode(h, ToNode(h, Timestamp(x)).value)
            == IfSome(InstantBack(h, x).Some?, Rounded(h, Timestamp(x)))
  {
    var n := h.instantToNode(x).value;
    assert ToNode(h, Timestamp(x)) == Ok(NTimestamp(n));
    assert FromNode(h, NTimestamp(n)) == IfSome(h.instantFromNode(n).Some?, Rounded(h, Timestamp(x)));
  }

  lemma AddressBack(h: Host, ip: Ip, net: Network)
    requires h.texts.Lawful()
    ensures ToNode(h, Address(ip)).Ok? && FromNode(h, ToNode(h, Address(ip)).value) == Ok(Address(ip))
    ensures ToNode(h, Subnet(net)).Ok? && FromNode(h, ToNode(h, Subnet(net)).value) == Ok(Subnet(net))
  {
    assert ToNode(h, Address(ip)) == Ok(NAddress(h.texts.showIp(ip)));
    assert ToNode(h, Subnet(net)) == Ok(NSubnet(h.texts.showNet(net)));
  }

  lemma PlainBack(h: Host, v: Value)
    requires v.None? || v.Boolean? || v.Count? || v.Integer? || v.Real? || v.String? || v.EnumValue? || v.Port?
    ensures ToNode(h, v).Ok? && FromNode(h, ToNode(h, v).value) == Ok(v)
  {
  }

  lemma ScalarBack(h: Host, v: Value)
    requires h.texts.Lawful() && Scalar(v) && ToNode(h, v).Ok?
    ensures FromNode(h, ToNode(h, v).value) == IfSome(ComesBack(h)(v), Rounded(h, v))
  {
    ToNodeSucceeds(h, v);
    match v {
      case Timespan(d) => TimespanBack(h, d);
      case Timestamp(x) => TimestampBack(h, x);
      case Address(ip) => AddressBack(h, ip, RawNetwork.Network(V4(0), 0));
      case Subnet(net) => AddressBack(h, V4(0), net);
      case _ => PlainBack(h, v);
    }
  }

  lemma {:induction false} Back(h: Host, v: Value)
    requires h.texts.Lawful() && ToNode(h, v).Ok?
    ensures FromNode(h, ToNode(h, v).value) == IfSome(Everywhere(ComesBack(h), v), Rounded(h, v))
    decreases v, 1
  {
    match v {
      case Vector(xs) =>
        BackSeq(h, xs);
        VectorBack(h, xs);
      case Set(xs) =>
        BackSeq(h, xs);
        SetBack(h, xs);
      case Table(es) =>
        BackEntries(h, es);
        TableBack(h, es);
      case _ => ScalarBack(h, v);
    }
  }

  lemma VectorBack(h: Host, xs: seq<Value>)
    requires ToNodeSeq(h, xs).Ok? && BackIff(FromNodeSeq(h, ToNodeSeq(h, xs).value), h, xs)
    ensures ToNode(h, Vector(xs)).Ok?
    ensures FromNode(h, ToNode(h, Vector(xs)).value)
            == IfSome(Everywhere(ComesBack(h), Vector(xs)), Rounded(h, Vector(xs)))
  {
    var ns := ToNodeSeq(h, xs).value;
    assert ToNode(h, Vector(xs)) == Ok(NVector(ns));
    VectorFromNode(h, ns, Everywhere(ComesBack(h), Vector(xs)), RoundedSeq(h, xs));
  }

  lemma SetBack(h: Host, xs: seq<Value>)
    requires ToNodeSeq(h, xs).Ok? && BackIff(FromNodeSeq(h, ToNodeSeq(h, xs).value), h, xs)
    ensures ToNode(h, Set(xs)).Ok?
    ensures FromNode(h, ToNode(h, Set(xs)).value)
            == IfSome(Everywhere(ComesBack(h), Set(xs)), Rounded(h, Set(xs)))
  {
    var ns := ToNodeSeq(h, xs).value;
    assert ToNode(h, Set(xs)) == Ok(NSet(ns));
    SetFromNode(h, ns, Everywhere(ComesBack(h), Set(xs)), RoundedSeq(h, xs));
  }

  lemma TableBack(h: Host, es: seq<TableEntry>)
    requires ToNodeEntries(h, es).Ok? && EntriesBackIff(FromNodeEntries(h, ToNodeEntries(h, es).value), h, es)
    ensures ToNode(h, Table(es)).Ok?
    ensures FromNode(h, ToNode(h, Table(es)).value)
            == IfSome(Everywhere(ComesBack(h), Table(es)), Rounded(h, Table(es)))
  {
    var ns := ToNodeEntries(h, es).value;
    assert ToNode(h, Table(es)) == Ok(NTable(ns));
    TableFromNode(h, ns, Everywhere(ComesBack(h), Table(es)), RoundedEntries(h, es));
  }

  predicate BackIff(r: Result<seq<Value>, NodeError>, h: Host, xs: seq<Value>) {
    r == IfSome(AllReturn(h, xs), RoundedSeq(h, xs))
  }

  predicate AllReturn(h: Host, xs: seq<Value>) {
    forall x | x in xs :: Everywhere(ComesBack(h), x)
  }

  predicate EntriesBackIff(r: Result<seq<TableEntry>, NodeError>, h: Host, es: seq<TableEntry>) {
    r == IfSome(EntriesReturn(h, es), RoundedEntries(h, es))
  }

  predicate EntriesReturn(h: Host, es: seq<TableEntry>) {
    forall e | e in es :: EntryReturns(h, e)
  }

  predicate EntryReturns(h: Host, e: TableEntry) {
    Everywhere(ComesBack(h), e.key) && Everywhere(ComesBack(h), e.value)
  }

  lemma AllReturnNext(h: Host, x: Value, xs: seq<Value>)
    ensures AllReturn(h, [x] + xs) <==> Everywhere(ComesBack(h), x) && AllReturn(h, xs)
  {
    assert forall y :: y in [x] + xs <==> y == x || y in xs;
  }

  lemma EntriesReturnNext(h: Host, e: TableEntry, es: seq<TableEntry>)
    ensures EntriesReturn(h, [e] + es) <==> EntryReturns(h, e) && EntriesReturn(h, es)
  {
    assert forall y :: y in [e] + es <==> y == e || y in es;
  }

  lemma BackIffNext(r: Result<seq<Value>, NodeError>, h: Host, x: Value, xs: seq<Value>)
    requires BackIff(r, h, xs)
    ensures BackIff(Joined(IfSome(Everywhere(ComesBack(h), x), Rounded(h, x)), r), h, [x] + xs)
  {
    assert RoundedSeq(h, [x] + xs) == [Rounded(h, x)] + RoundedSeq(h, xs);
    AllReturnNext(h, x, xs);
  }

  lemma EntriesBackIffNext(r: Result<seq<TableEntry>, NodeError>, h: Host, e: TableEntry, es: seq<TableEntry>)
    requires EntriesBackIff(r, h, es)
    ensures EntriesBackIff(Joined(EntryBack(h, e), r), h, [e] + es)
  {
    assert RoundedEntries(h, [e] + es) == [RoundedEntry(h, e)] + RoundedEntries(h, es);
    EntriesReturnNext(h, e, es);
  }

  function EntryBack(h: Host, e: TableEntry): Result<TableEntry, NodeError> {
    IfSome(EntryReturns(h, e), RoundedEntry(h, e))
  }

  lemma FromNodeSeqNext(h: Host, ns: seq<NodeValue>)
    requires ns != []
    ensures FromNodeSeq(h, ns) == Joined(FromNode(h, ns[0]), FromNodeSeq(h, ns[1..]))
  {
  }

  lemma FromNodeEntriesNext(h: Host, ns: seq<NodeEntry>)
    requires ns != []
    ensures FromNodeEntries(h, ns) == Joined(FromNodeEntry(h, ns[0]), FromNodeEntries(h, ns[1..]))
  {
  }

  lemma ToNodeSeqNext(h: Host, xs: seq<Value>)
    requires xs != []
    ensures ToNodeSeq(h, xs) == Joined(ToNode(h, xs[0]), ToNodeSeq(h, xs[1..]))
  {
  }

  lemma ToNodeEntriesNext(h: Host, es: seq<TableEntry>)
    requires es != []
    ensures ToNodeEntries(h, es) == Joined(ToNodeEntry(h, es[0]), ToNodeEntries(h, es[1..]))
  {
  }

  lemma {:induction false} BackSeq(h: Host, xs: seq<Value>)
    requires h.texts.Lawful() && ToNodeSeq(h, xs).Ok?
    ensures BackIff(FromNodeSeq(h, ToNodeSeq(h, xs).value), h, xs)
    decreases xs, 0
  {
    if xs == [] {
      assert RoundedSeq(h, xs) == [];
    } else {
      ToNodeSeqNext(h, xs);
      Back(h, xs[0]);
      BackSeq(h, xs[1..]);
      var ns := ToNodeSeq(h, xs).value;
      FromNodeSeqNext(h, ns);
      assert ns[1..] == ToNodeSeq(h, xs[1..]).value;
      BackIffNext(FromNodeSeq(h, ns[1..]), h, xs[0], xs[1..]);
      assert xs == [xs[0]] + xs[1..];
    }
  }

  lemma {:induction false} BackEntry(h: Host, e: TableEntry)
    requires h.texts.Lawful() && ToNodeEntry(h, e).Ok?
    ensures FromNodeEntry(h, ToNodeEntry(h, e).value) == EntryBack(h, e)
    decreases e, 0
  {
    Back(h, e.key);
    Back(h, e.value);
  }

  lemma {:induction false} BackEntries(h: Host, es: seq<TableEntry>)
    requires h.texts.Lawful() && ToNodeEntries(h, es).Ok?
    ensures EntriesBackIff(FromNodeEntries(h, ToNodeEntries(h, es).value), h, es)
    decreases es, 0
  {
    if es == [] {
      assert RoundedEntries(h, es) == [];
    } else {
      ToNodeEntriesNext(h, es);
      BackEntry(h, es[0]);
      BackEntries(h, es[1..]);
      var ns := ToNodeEntries(h, es).value;
      FromNodeEntriesNext(h, ns);
      assert ns[1..] == ToNodeEntries(h, es[1..]).value;
      EntriesBackIffNext(FromNodeEntries(h, ns[1..]), h, es[0], es[1..]);
      assert es == [es[0]] + es[1..];
    }
  }

  /** A container comes from Node as its elements do. */
  lemma VectorFromNode(h: Host, ns: seq<NodeValue>, condition: bool, xs: seq<Value>)
    requires FromNodeSeq(h, ns) == IfSome(condition, xs)
    ensures FromNode(h, NVector(ns)) == IfSome(condition, Vector(xs))
  {
  }

  lemma SetFromNode(h: Host, ns: seq<NodeValue>, condition: bool, xs: seq<Value>)
    requires FromNodeSeq(h, ns) == IfSome(condition, xs)
    ensures FromNode(h, NSet(ns)) == IfSome(condition, SetOf(xs))
  {
  }

  lemma TableFromNode(h: Host, ns: seq<NodeEntry>, condition: bool, es: seq<TableEntry>)
    requires FromNodeEntries(h, ns) == IfSome(condition, es)
    ensures FromNode(h, NTable(ns)) == IfSome(condition, TableOf(es))
  {
  }

  /** What holds of every scalar follows from what else does. */
  lemma {:induction false} EverywhereBoth(p: Value -> bool, q: Value -> bool, r: Value -> bool, v: Value)
    requires Everywhere(p, v) && Everywhere(q, v)
    requires forall x: Value | p(x) && q(x) :: r(x)
    ensures Everywhere(r, v)
  {
    match v {
      case Vector(xs) => forall x | x in xs ensures Everywhere(r, x) { EverywhereBoth(p, q, r, x); }
      case Set(xs) => forall x | x in xs ensures Everywhere(r, x) { EverywhereBoth(p, q, r, x); }
      case Table(es) =>
        forall e | e in es ensures Everywhere(r, e.key) && Everywhere(r, e.value) {
          EverywhereBoth(p, q, r, e.key);
          EverywhereBoth(p, q, r, e.value);
        }
      case _ =>
    }
  }

  /** The way to Node and back, for every value: it fails exactly if a scalar has no Node form or its
      instant none, never aborts, and otherwise its exact effect is to round. */
  lemma NodeRounds(h: Host, v: Value)
    requires h.texts.Lawful()
    ensures Through(h, v) == IfSome(Everywhere(ComesBack(h), v), Rounded(h, v))
  {
    ToNodeSucceeds(h, v);
    if ToNode(h, v).Ok? {
      Back(h, v);
    } else if Everywhere(ComesBack(h), v) {
      EverywhereBoth(ComesBack(h), ComesBack(h), HasNodeForm(h), v);
    }
  }

  // ----- What survives -----

  lemma {:induction false} RoundedEverywhere(h: Host, p: Value -> bool, q: Value -> bool, v: Value)
    requires Everywhere(p, v)
    requires forall x: Value | Scalar(x) && p(x) :: q(Rounded(h, x))
    ensures Everywhere(q, Rounded(h, v))
  {
    match v {
      case Vector(xs) =>
        forall x | x in xs ensures Everywhere(q, Rounded(h, x)) { RoundedEverywhere(h, p, q, x); }
        SeqEverywhere(h, q, xs);
      case Set(xs) =>
        forall x | x in xs ensures Everywhere(q, Rounded(h, x)) { RoundedEverywhere(h, p, q, x); }
        SeqEverywhere(h, q, xs);
      case Table(es) =>
        forall e | e in es ensures Everywhere(q, Rounded(h, e.key)) && Everywhere(q, Rounded(h, e.value)) {
          RoundedEverywhere(h, p, q, e.key);
          RoundedEverywhere(h, p, q, e.value);
        }
        EntriesEverywhere(h, q, es);
      case _ => assert Scalar(v) && Scalar(Rounded(h, v));
    }
  }

  lemma SeqEverywhere(h: Host, q: Value -> bool, xs: seq<Value>)
    requires forall x | x in xs :: Everywhere(q, Rounded(h, x))
    ensures Everywhere(q, Rounded(h, Vector(xs))) && Everywhere(q, Rounded(h, Set(xs)))
  {
    var rs := RoundedSeq(h, xs);
    forall r | r in rs ensures Everywhere(q, r) {
      var i: nat :| i < |rs| && rs[i] == r;
      assert xs[i] in xs;
    }
    CollectedSet(rs);
  }

  lemma EntriesEverywhere(h: Host, q: Value -> bool, es: seq<TableEntry>)
    requires forall e | e in es :: Everywhere(q, Rounded(h, e.key)) && Everywhere(q, Rounded(h, e.value))
    ensures Everywhere(q, Rounded(h, Table(es)))
  {
    var rs := RoundedEntries(h, es);
    forall r | r in rs ensures Everywhere(q, r.key) && Everywhere(q, r.value) {
      var i: nat :| i < |rs| && rs[i] == r;
      assert es[i] in es && r == RoundedEntry(h, es[i]);
    }
    CollectedEntries(rs);
  }

  lemma CollectedEntries(es: seq<TableEntry>)
    ensures forall e | e in TableOf(es).entries :: e in es
  {
    ValueOrderTotal();
    CollectSpec(EntryLess, es);
  }

  function Always(): Value -> bool {
    (v: Value) => true
  }

  /** Timespans whose length after one more conversion is kept. */
  function KeptNext(): Value -> bool {
    (v: Value) => v.Timespan? && IsI64(v.d.WholeNanoseconds()) ==> Survives(Settled(v.d.WholeNanoseconds()))
  }

  /** Timespans that are kept, or cannot be converted. */
  function KeptNow(): Value -> bool {
    (v: Value) => v.Timespan? && IsI64(v.d.WholeNanoseconds()) ==> Survives(v.d.WholeNanoseconds())
  }

  /** After two ways through Node every timespan is kept by a third. */
  lemma TwiceKept(h: Host, v: Value)
    ensures Everywhere(KeptNow(), Rounded(h, Rounded(h, v)))
  {
    AlwaysEverywhere(v);
    forall x: Value | Scalar(x) ensures KeptNext()(Rounded(h, x)) {
      if x.Timespan? { TimespanNext(x.d); }
    }
    RoundedEverywhere(h, Always(), KeptNext(), v);
    forall x: Value | Scalar(x) && KeptNext()(x) ensures KeptNow()(Rounded(h, x)) {
      if x.Timespan? { TimespanNow(x.d); }
    }
    RoundedEverywhere(h, KeptNext(), KeptNow(), Rounded(h, v));
  }

  lemma {:induction false} AlwaysEverywhere(v: Value)
    ensures Everywhere(Always(), v)
  {
    match v {
      case Vector(xs) => forall x | x in xs ensures Everywhere(Always(), x) { AlwaysEverywhere(x); }
      case Set(xs) => forall x | x in xs ensures Everywhere(Always(), x) { AlwaysEverywhere(x); }
      case Table(es) =>
        forall e | e in es ensures Everywhere(Always(), e.key) && Everywhere(Always(), e.value) {
          AlwaysEverywhere(e.key);
          AlwaysEverywhere(e.value);
        }
      case _ =>
    }
  }

  lemma TimespanNext(d: Duration)
    ensures var n := RoundedTimespan(d).WholeNanoseconds(); IsI64(n) ==> Survives(Settled(n))
  {
    if IsI64(d.WholeNanoseconds()) {
      SecondTripKept(d.WholeNanoseconds());
      LengthOf(Settled(d.WholeNanoseconds()));
    }
  }

  lemma TimespanNow(d: Duration)
    requires IsI64(d.WholeNanoseconds()) ==> Survives(Settled(d.WholeNanoseconds()))
    ensures var n := RoundedTimespan(d).WholeNanoseconds(); IsI64(n) ==> Survives(n)
  {
    if IsI64(d.WholeNanoseconds()) {
      SecondTripKept(d.WholeNanoseconds());
      LengthOf(Settled(d.WholeNanoseconds()));
    }
  }

  function Fixed(h: Host): Value -> bool {
    (v: Value) => Scalar(v) ==> Rounded(h, v) == v
  }

  lemma TimespanFixed(d: Duration)
    requires IsI64(d.WholeNanoseconds()) && Survives(d.WholeNanoseconds())
    ensures RoundedTimespan(d) == d
  {
    var n := d.WholeNanoseconds();
    SettledIff(n);
    LengthOf(n);
    Timespans.DurationUnique(RoundedTimespan(d), d);
  }

  lemma {:induction false} RoundedFixes(h: Host, v: Value)
    requires Valid(v) && Everywhere(Fixed(h), v)
    ensures Rounded(h, v) == v
  {
    match v {
      case Vector(xs) =>
        forall x | x in xs ensures Rounded(h, x) == x { RoundedFixes(h, x); }
        assert RoundedSeq(h, xs) == xs;
      case Set(xs) =>
        forall x | x in xs ensures Rounded(h, x) == x { RoundedFixes(h, x); }
        assert RoundedSeq(h, xs) == xs;
        SetRebuilt(xs);
      case Table(es) =>
        forall e | e in es ensures Rounded(h, e.key) == e.key && Rounded(h, e.value) == e.value {
          RoundedFixes(h, e.key);
          RoundedFixes(h, e.value);
        }
        assert RoundedEntries(h, es) == es;
        TableRebuilt(es);
      case _ => assert Scalar(v);
    }
  }

  lemma TimestampFixed(h: Host, x: int)
    requires InstantBack(h, x) == Some(x)
    ensures Rounded(h, Timestamp(x)) == Timestamp(x) && Returnable(h, Timestamp(x))
  {
  }

  lemma ScalarKept(h: Host, v: Value)
    requires InstantKept(h)(v) && TimespanKept()(v)
    ensures ComesBack(h)(v) && Fixed(h)(v)
  {
    if v.Timespan? {
      TimespanFixed(v.d);
    } else if v.Timestamp? {
      TimestampFixed(h, v.instant);
    } else {
      assert Returnable(h, v);
    }
  }

  lemma KeptFixed(h: Host, v: Value)
    requires Valid(v) && Everywhere(InstantKept(h), v) && Everywhere(TimespanKept(), v)
    ensures Everywhere(ComesBack(h), v) && Rounded(h, v) == v
  {
    forall x: Value | InstantKept(h)(x) && TimespanKept()(x) ensures ComesBack(h)(x) && Fixed(h)(x) {
      ScalarKept(h, x);
    }
    EverywhereBoth(InstantKept(h), TimespanKept(), ComesBack(h), v);
    EverywhereBoth(InstantKept(h), TimespanKept(), Fixed(h), v);
    RoundedFixes(h, v);
  }

  /** A value that comes back from Node unchanged has only timespans, at any depth, whose lengths the
      conversion keeps; if the host keeps its instants, that is all it takes. (Otherwise a host could,
      for one, swap the two instants of a set.) */
  lemma NodeRoundTripValue(h: Host, v: Value)
    requires h.texts.Lawful() && Valid(v)
    ensures Through(h, v) == Ok(v) ==> Everywhere(TimespanKept(), v)
    ensures Everywhere(InstantKept(h), v) && Everywhere(TimespanKept(), v) ==> Through(h, v) == Ok(v)
  {
    NodeRounds(h, v);
    if Everywhere(InstantKept(h), v) && Everywhere(TimespanKept(), v) { KeptFixed(h, v); }
    if Through(h, v) == Ok(v) {
      TwiceKept(h, v);
      ReturnedKept(h, v);
    }
  }

  lemma ReturnedKept(h: Host, v: Value)
    requires Everywhere(KeptNow(), v) && Everywhere(ComesBack(h), v)
    ensures Everywhere(TimespanKept(), v)
  {
    forall x: Value | KeptNow()(x) && ComesBack(h)(x) ensures TimespanKept()(x) {
      assert Returnable(h, x);
    }
    EverywhereBoth(KeptNow(), ComesBack(h), TimespanKept(), v);
  }

  /** A count survives the way from Node and back exactly when it is one non-negative word: more words
      are rejected, but the sign is dropped without an error. */
  lemma CountFromNode(h: Host, b: BigInt)
    ensures FromNode(h, NCount(b)).Ok? <==> |b.words| == 1
    ensures FromNode(h, NCount(b)).Ok? ==>
              (ToNode(h, FromNode(h, NCount(b)).value) == Ok(NCount(b)) <==> !b.negative)
  {
    if |b.words| == 1 { assert b.words == [b.words[0]]; }
  }

  /** So a negative number arrives as a positive one. */
  lemma NegativeCount(h: Host)
    ensures FromNode(h, NCount(RawBigInt.BigInt(true, [5]))) == Ok(Count(5))
    ensures ToNode(h, Count(5)) == Ok(NCount(RawBigInt.BigInt(false, [5])))
  {
    var b: BigInt := RawBigInt.BigInt(true, [5]);
    assert GetU64(b) == (true, 5, true);
  }
}
