/** Values of the Python binding, and their way to the wire type and back. */
module PythonValues {
  import opened Wrappers
  import opened Ordering
  import opened Values

  datatype PyValue =
    | PBoolean(b: bool)
    | PCount(n: U64)
    | PInteger(i: I64)
    | PReal(f: Float)
    | PTimespan(d: Duration)
    | PTimestamp(instant: int)
    | PAddress(ip: Ip)
    | PSubnet(net: Ip, prefix: U8)
    | PPort(number: U16, protocol: Protocol)
    | PVector(xs: seq<PyValue>)
    | PSet(elems: seq<PyValue>)
    | PTable(entries: seq<PyEntry>)
    | PRecord(fields: seq<PyField>)
    | PString(s: string)
    | PEnum(name: string)
    | PNone

  datatype PyEntry = PyEntry(key: PyValue, value: PyValue)

  datatype PyField = PyField(name: string, value: PyValue)

  datatype InvalidPrefix = InvalidPrefix

  // ----- The derived order -----

  /** The discriminant of a protocol in the Python binding, which differs from the wire type. */
  function PyProtocol(p: Protocol): U64 {
    match p
    case UNKNOWN => 1
    case TCP => 2
    case UDP => 3
    case ICMP => 4
  }

  /** The derived comparison visits the position of the variant and then its fields; containers are
      visited element by element. It is the order of this vector of what is visited. */
  function Key(p: PyValue): Value
    decreases p, 1
  {
    match p
    case PBoolean(b) => Vector([Count(0), Boolean(b)])
    case PCount(n) => Vector([Count(1), Count(n)])
    case PInteger(i) => Vector([Count(2), Integer(i)])
    case PReal(f) => Vector([Count(3), Real(f)])
    case PTimespan(d) => Vector([Count(4), Timespan(d)])
    case PTimestamp(t) => Vector([Count(5), Timestamp(t)])
    case PAddress(ip) => Vector([Count(6), Address(ip)])
    case PSubnet(ip, prefix) => Vector([Count(7), Address(ip), Count(prefix)])
    case PPort(n, protocol) => Vector([Count(8), Count(n), Count(PyProtocol(protocol))])
    case PVector(xs) => Vector([Count(9), Vector(Keys(xs))])
    case PSet(xs) => Vector([Count(10), Vector(Keys(xs))])
    case PTable(es) => Vector([Count(11), Vector(EntryKeys(es))])
    case PRecord(fs) => Vector([Count(12), Vector(FieldKeys(fs))])
    case PString(s) => Vector([Count(13), String(s)])
    case PEnum(s) => Vector([Count(14), String(s)])
    case PNone => Vector([Count(15)])
  }

  function Keys(xs: seq<PyValue>): seq<Value>
    decreases xs, 0
  {
    if xs == [] then [] else [Key(xs[0])] + Keys(xs[1..])
  }

  function EntryKey(e: PyEntry): Value
    decreases e, 0
  {
    Vector([Key(e.key), Key(e.value)])
  }

  function EntryKeys(es: seq<PyEntry>): seq<Value>
    decreases es, 0
  {
    if es == [] then [] else [EntryKey(es[0])] + EntryKeys(es[1..])
  }

  function FieldKey(f: PyField): Value
    decreases f, 0
  {
    Vector([String(f.name), Key(f.value)])
  }

  function FieldKeys(fs: seq<PyField>): seq<Value>
    decreases fs, 0
  {
    if fs == [] then [] else [FieldKey(fs[0])] + FieldKeys(fs[1..])
  }

  predicate PyLess(a: PyValue, b: PyValue) {
    ValueLess(Key(a), Key(b))
  }

  predicate PyEntryLess(a: PyEntry, b: PyEntry) {
    PyLess(a.key, b.key)
  }

  predicate PyFieldLess(a: PyField, b: PyField) {
    ValueLess(String(a.name), String(b.name))
  }

  /** Every container, at any depth, is in the order a B-tree keeps. */
  predicate PyValid(p: PyValue) {
    match p
    case PVector(xs) => forall x | x in xs :: PyValid(x)
    case PSet(xs) => Ascending(PyLess, xs) && forall x | x in xs :: PyValid(x)
    case PTable(es) => Ascending(PyEntryLess, es) && forall e | e in es :: PyValid(e.key) && PyValid(e.value)
    case PRecord(fs) => Ascending(PyFieldLess, fs) && forall f | f in fs :: PyValid(f.value)
    case _ => true
  }

  lemma {:induction false} KeyInjective(a: PyValue, b: PyValue)
    requires Key(a) == Key(b)
    ensures a == b
    decreases a, 1
  {
    assert Key(a).xs[0] == Key(b).xs[0];
    if !a.PNone? { assert Key(a).xs[1] == Key(b).xs[1]; }
    match a {
      case PVector(xs) => KeysInjective(xs, b.xs);
      case PSet(xs) => KeysInjective(xs, b.elems);
      case PTable(es) => EntryKeysInjective(es, b.entries);
      case PRecord(fs) => FieldKeysInjective(fs, b.fields);
      case PSubnet(_, _) => assert Key(a).xs[2] == Key(b).xs[2];
      case PPort(_, _) => assert Key(a).xs[2] == Key(b).xs[2];
      case _ =>
    }
  }

  lemma {:induction false} KeysInjective(xs: seq<PyValue>, ys: seq<PyValue>)
    requires Keys(xs) == Keys(ys)
    ensures xs == ys
    decreases xs, 0
  {
    if xs != [] && ys != [] {
      assert Keys(xs)[0] == Keys(ys)[0] && Keys(xs)[1..] == Keys(xs[1..]) && Keys(ys)[1..] == Keys(ys[1..]);
      KeyInjective(xs[0], ys[0]);
      KeysInjective(xs[1..], ys[1..]);
      HeadTail(xs, ys);
    }
  }

  lemma {:induction false} EntryKeyInjective(d: PyEntry, e: PyEntry)
    requires EntryKey(d) == EntryKey(e)
    ensures d == e
    decreases d, 0
  {
    assert EntryKey(d).xs[0] == EntryKey(e).xs[0] && EntryKey(d).xs[1] == EntryKey(e).xs[1];
    KeyInjective(d.key, e.key);
    KeyInjective(d.value, e.value);
  }

  lemma {:induction false} EntryKeysInjective(xs: seq<PyEntry>, ys: seq<PyEntry>)
    requires EntryKeys(xs) == EntryKeys(ys)
    ensures xs == ys
    decreases xs, 0
  {
    if xs != [] && ys != [] {
      assert EntryKeys(xs)[0] == EntryKeys(ys)[0]
             && EntryKeys(xs)[1..] == EntryKeys(xs[1..]) && EntryKeys(ys)[1..] == EntryKeys(ys[1..]);
      EntryKeyInjective(xs[0], ys[0]);
      EntryKeysInjective(xs[1..], ys[1..]);
      HeadTail(xs, ys);
    }
  }

  lemma {:induction false} FieldKeyInjective(f: PyField, g: PyField)
    requires FieldKey(f) == FieldKey(g)
    ensures f == g
    decreases f, 0
  {
    assert FieldKey(f).xs[0] == FieldKey(g).xs[0] && FieldKey(f).xs[1] == FieldKey(g).xs[1];
    KeyInjective(f.value, g.value);
  }

  lemma {:induction false} FieldKeysInjective(xs: seq<PyField>, ys: seq<PyField>)
    requires FieldKeys(xs) == FieldKeys(ys)
    ensures xs == ys
    decreases xs, 0
  {
    if xs != [] && ys != [] {
      assert FieldKeys(xs)[0] == FieldKeys(ys)[0]
             && FieldKeys(xs)[1..] == FieldKeys(xs[1..]) && FieldKeys(ys)[1..] == FieldKeys(ys[1..]);
      FieldKeyInjective(xs[0], ys[0]);
      FieldKeysInjective(xs[1..], ys[1..]);
      HeadTail(xs, ys);
    }
  }

  /** The derived order of the Python values is total as well. */
  lemma PyOrderTotal()
    ensures WeakOrder(PyLess) && WeakOrder(PyEntryLess) && WeakOrder(PyFieldLess)
    ensures forall a, b :: Same(PyLess, a, b) <==> a == b
    ensures forall a, b :: Same(PyEntryLess, a, b) <==> a.key == b.key
  {
    ValueOrderTotal();
    forall a, b ensures Key(a) == Key(b) <==> a == b {
      if Key(a) == Key(b) { KeyInjective(a, b); }
    }
    forall a, b ensures Same(PyLess, a, b) <==> a == b {
      assert Same(ValueLess, Key(a), Key(b)) <==> Key(a) == Key(b);
    }
  }

  /** A collected set or table is ascending, not larger, and unchanged if it was ascending already. */
  lemma PyCollected(xs: seq<PyValue>)
    ensures Ascending(PyLess, Collect(PyLess, xs)) && |Collect(PyLess, xs)| <= |xs|
    ensures forall y | y in Collect(PyLess, xs) :: y in xs
    ensures Ascending(PyLess, xs) ==> Collect(PyLess, xs) == xs
  {
    PyOrderTotal();
    CollectSpec(PyLess, xs);
    if Ascending(PyLess, xs) { CollectAscending(PyLess, xs); }
  }

  lemma PyCollectedEntries(es: seq<PyEntry>)
    ensures Ascending(PyEntryLess, Collect(PyEntryLess, es)) && |Collect(PyEntryLess, es)| <= |es|
    ensures forall y | y in Collect(PyEntryLess, es) :: y in es
    ensures Ascending(PyEntryLess, es) ==> Collect(PyEntryLess, es) == es
  {
    PyOrderTotal();
    CollectSpec(PyEntryLess, es);
    if Ascending(PyEntryLess, es) { CollectAscending(PyEntryLess, es); }
  }

  // ----- To the wire -----

  function ToWire(p: PyValue): Result<Value, InvalidPrefix>
    decreases p, 1
  {
    match p
    case PBoolean(b) => Ok(Boolean(b))
    case PCount(n) => Ok(Count(n))
    case PInteger(i) => Ok(Integer(i))
    case PReal(f) => Ok(Real(f))
    case PTimespan(d) => Ok(Timespan(d))
    case PTimestamp(t) => Ok(Timestamp(t))
    case PAddress(ip) => Ok(Address(ip))
    case PSubnet(ip, prefix) =>
      if prefix <= ip.MaxPrefix() then Ok(Subnet(RawNetwork.Network(ip, prefix))) else Err(InvalidPrefix)
    case PPort(n, protocol) => Ok(Port(PortId(n, protocol)))
    case PVector(xs) =>
      var ws :- ToWireSeq(xs);
      Ok(Vector(ws))
    case PSet(xs) =>
      var ws :- ToWireSeq(xs);
      Ok(SetOf(ws))
    case PTable(es) =>
      var ws :- ToWireEntries(es);
      Ok(TableOf(ws))
    case PRecord(fs) =>
      var ws :- ToWireFields(fs);
      Ok(Vector(ws))
    case PString(s) => Ok(String(s))
    case PEnum(s) => Ok(EnumValue(s))
    case PNone => Ok(Value.None)
  }

  function ToWireSeq(xs: seq<PyValue>): Result<seq<Value>, InvalidPrefix>
    decreases xs, 0
  {
    if xs == [] then Ok([])
    else
      var w :- ToWire(xs[0]);
      var ws :- ToWireSeq(xs[1..]);
      Ok([w] + ws)
  }

  function ToWireEntry(e: PyEntry): Result<TableEntry, InvalidPrefix>
    decreases e, 0
  {
    var k :- ToWire(e.key);
    var v :- ToWire(e.value);
    Ok(TableEntry(k, v))
  }

  function ToWireEntries(es: seq<PyEntry>): Result<seq<TableEntry>, InvalidPrefix>
    decreases es, 0
  {
    if es == [] then Ok([])
    else
      var w :- ToWireEntry(es[0]);
      var ws :- ToWireEntries(es[1..]);
      Ok([w] + ws)
  }

  function ToWireField(f: PyField): Result<Value, InvalidPrefix>
    decreases f, 0
  {
    ToWire(f.value)
  }

  function ToWireFields(fs: seq<PyField>): Result<seq<Value>, InvalidPrefix>
    decreases fs, 0
  {
    if fs == [] then Ok([])
    else
      var w :- ToWireField(fs[0]);
      var ws :- ToWireFields(fs[1..]);
      Ok([w] + ws)
  }

  // ----- From the wire -----

  function FromWire(v: Value): PyValue {
    match v
    case None => PNone
    case Boolean(b) => PBoolean(b)
    case Count(n) => PCount(n)
    case Integer(i) => PInteger(i)
    case Real(f) => PReal(f)
    case Timespan(d) => PTimespan(d)
    case Timestamp(t) => PTimestamp(t)
    case String(s) => PString(s)
    case EnumValue(s) => PEnum(s)
    case Address(ip) => PAddress(ip)
    case Subnet(net) => PSubnet(net.ip, net.prefix)
    case Port(p) => PPort(p.number, p.protocol)
    case Vector(xs) => PVector(seq(|xs|, i requires 0 <= i < |xs| => FromWire(xs[i])))
    case Set(xs) => PSet(Collect(PyLess, seq(|xs|, i requires 0 <= i < |xs| => FromWire(xs[i]))))
    case Table(es) =>
      PTable(Collect(PyEntryLess,
                     seq(|es|, i requires 0 <= i < |es| => PyEntry(FromWire(es[i].key), FromWire(es[i].value)))))
  }

  function FromEntry(e: TableEntry): PyEntry {
    PyEntry(FromWire(e.key), FromWire(e.value))
  }

  // ----- Erasure -----

  /** Turns each record, at any depth, into the vector of its values in ascending order of names, and
      collects the sets and tables anew. */
  function Erase(p: PyValue): PyValue {
    match p
    case PVector(xs) => PVector(seq(|xs|, i requires 0 <= i < |xs| => Erase(xs[i])))
    case PSet(xs) => PSet(Collect(PyLess, seq(|xs|, i requires 0 <= i < |xs| => Erase(xs[i]))))
    case PTable(es) =>
      PTable(Collect(PyEntryLess,
                     seq(|es|, i requires 0 <= i < |es| => PyEntry(Erase(es[i].key), Erase(es[i].value)))))
    case PRecord(fs) => PVector(seq(|fs|, i requires 0 <= i < |fs| => Erase(fs[i].value)))
    case _ => p
  }

  function EraseEntry(e: PyEntry): PyEntry {
    PyEntry(Erase(e.key), Erase(e.value))
  }

  predicate PrefixesValid(p: PyValue) {
    match p
    case PSubnet(ip, prefix) => prefix <= ip.MaxPrefix()
    case PVector(xs) => forall x | x in xs :: PrefixesValid(x)
    case PSet(xs) => forall x | x in xs :: PrefixesValid(x)
    case PTable(es) => forall e | e in es :: PrefixesValid(e.key) && PrefixesValid(e.value)
    case PRecord(fs) => forall f | f in fs :: PrefixesValid(f.value)
    case _ => true
  }

  predicate RecordFree(p: PyValue) {
    match p
    case PVector(xs) => forall x | x in xs :: RecordFree(x)
    case PSet(xs) => forall x | x in xs :: RecordFree(x)
    case PTable(es) => forall e | e in es :: RecordFree(e.key) && RecordFree(e.value)
    case PRecord(_) => false
    case _ => true
  }

  // ----- Conversion, element by element -----

  function WireOf(p: PyValue): Value {
    if ToWire(p).Ok? then ToWire(p).value else Value.None
  }

  function WireEntryOf(e: PyEntry): TableEntry {
    TableEntry(WireOf(e.key), WireOf(e.value))
  }

  lemma {:induction false} ToWireSeqSpec(xs: seq<PyValue>)
    ensures ToWireSeq(xs).Ok? <==> forall x | x in xs :: ToWire(x).Ok?
    ensures ToWireSeq(xs).Ok? ==> ToWireSeq(xs).value == Map(WireOf, xs)
  {
    if xs != [] {
      MapCons(WireOf, xs);
      ToWireSeqSpec(xs[1..]);
      var w, ws := ToWire(xs[0]), ToWireSeq(xs[1..]);
      assert ToWireSeq(xs).Ok? <==> w.Ok? && ws.Ok?;
      assert w.Ok? ==> WireOf(xs[0]) == w.value;
      assert xs[0] in xs && forall x | x in xs[1..] :: x in xs;
      assert forall x | x in xs :: x == xs[0] || x in xs[1..];
    }
  }

  lemma {:induction false} ToWireEntriesSpec(es: seq<PyEntry>)
    ensures ToWireEntries(es).Ok? <==> forall e | e in es :: ToWire(e.key).Ok? && ToWire(e.value).Ok?
    ensures ToWireEntries(es).Ok? ==> ToWireEntries(es).value == Map(WireEntryOf, es)
  {
    if es != [] {
      assert es == [es[0]] + es[1..];
      MapCons(WireEntryOf, es);
      ToWireEntriesSpec(es[1..]);
      assert ToWireEntry(es[0]).Ok? ==> WireEntryOf(es[0]) == ToWireEntry(es[0]).value;
    }
  }

  function FieldWireOf(f: PyField): Value {
    WireOf(f.value)
  }

  lemma {:induction false} ToWireFieldsSpec(fs: seq<PyField>)
    ensures ToWireFields(fs).Ok? <==> forall f | f in fs :: ToWire(f.value).Ok?
    ensures ToWireFields(fs).Ok? ==> ToWireFields(fs).value == Map(FieldWireOf, fs)
  {
    if fs != [] {
      assert fs == [fs[0]] + fs[1..];
      MapCons(FieldWireOf, fs);
      ToWireFieldsSpec(fs[1..]);
      assert ToWireField(fs[0]).Ok? ==> FieldWireOf(fs[0]) == ToWireField(fs[0]).value;
    }
  }

  /** The conversion succeeds exactly when every subnet prefix fits its address. */
  lemma {:induction false} ToWireSucceeds(p: PyValue)
    ensures ToWire(p).Ok? <==> PrefixesValid(p)
  {
    match p {
      case PVector(xs) =>
        ToWireSeqSpec(xs);
        forall x | x in xs ensures ToWire(x).Ok? <==> PrefixesValid(x) { ToWireSucceeds(x); }
      case PSet(xs) =>
        ToWireSeqSpec(xs);
        forall x | x in xs ensures ToWire(x).Ok? <==> PrefixesValid(x) { ToWireSucceeds(x); }
      case PTable(es) =>
        ToWireEntriesSpec(es);
        forall e | e in es
          ensures ToWire(e.key).Ok? && ToWire(e.value).Ok? <==> PrefixesValid(e.key) && PrefixesValid(e.value)
        {
          ToWireSucceeds(e.key);
          ToWireSucceeds(e.value);
        }
      case PRecord(fs) =>
        ToWireFieldsSpec(fs);
        forall f | f in fs ensures ToWire(f.value).Ok? <==> PrefixesValid(f.value) { ToWireSucceeds(f.value); }
      case _ =>
    }
  }

  lemma WireSeqValid(xs: seq<PyValue>)
    requires ToWireSeq(xs).Ok? && forall x | x in xs :: Valid(WireOf(x))
    ensures AllValid(ToWireSeq(xs).value)
  {
    ToWireSeqSpec(xs);
  }

  lemma WireEntriesValid(es: seq<PyEntry>)
    requires ToWireEntries(es).Ok? && forall e | e in es :: Valid(WireOf(e.key)) && Valid(WireOf(e.value))
    ensures AllValidEntries(ToWireEntries(es).value)
  {
    ToWireEntriesSpec(es);
    var ws := ToWireEntries(es).value;
    assert forall i | 0 <= i < |ws| :: ws[i] == WireEntryOf(es[i]);
  }

  /** What reaches the wire is canonical. */
  lemma {:induction false} WireValid(p: PyValue)
    requires ToWire(p).Ok?
    ensures Valid(ToWire(p).value)
  {
    match p {
      case PVector(xs) =>
        ToWireSeqSpec(xs);
        forall x | x in xs ensures Valid(WireOf(x)) { WireValid(x); }
        WireSeqValid(xs);
      case PSet(xs) =>
        ToWireSeqSpec(xs);
        forall x | x in xs ensures Valid(WireOf(x)) { WireValid(x); }
        WireSeqValid(xs);
        SetOfValid(ToWireSeq(xs).value);
      case PTable(es) =>
        ToWireEntriesSpec(es);
        forall e | e in es ensures Valid(WireOf(e.key)) && Valid(WireOf(e.value)) {
          WireValid(e.key);
          WireValid(e.value);
        }
        WireEntriesValid(es);
        TableOfValid(ToWireEntries(es).value);
      case PRecord(fs) =>
        ToWireFieldsSpec(fs);
        forall f | f in fs ensures Valid(FieldWireOf(f)) { WireValid(f.value); }
      case _ =>
    }
  }

  // ----- The conversions, variant by variant -----

  /** A conversion from the wire and the one that undoes it. */
  predicate Corresponds(v: Value, p: PyValue) {
    FromWire(v) == p && ToWire(p) == Ok(v)
  }

  lemma NumberForms(b: bool, n: U64, i: I64, f: Float)
    ensures Corresponds(Boolean(b), PBoolean(b)) && Corresponds(Count(n), PCount(n))
    ensures Corresponds(Integer(i), PInteger(i)) && Corresponds(Real(f), PReal(f))
  {
  }

  lemma TimeForms(d: Duration, x: int)
    ensures Corresponds(Value.None, PNone)
    ensures Corresponds(Timespan(d), PTimespan(d)) && Corresponds(Timestamp(x), PTimestamp(x))
  {
  }

  lemma TextForms(s: string)
    ensures Corresponds(String(s), PString(s)) && Corresponds(EnumValue(s), PEnum(s))
  {
  }

  lemma NetworkForms(ip: Ip, number: U16, protocol: Protocol)
    ensures Corresponds(Address(ip), PAddress(ip))
    ensures Corresponds(Port(PortId(number, protocol)), PPort(number, protocol))
  {
  }

  /** A subnet needs a prefix that fits its address. */
  lemma SubnetForms(ip: Ip, prefix: U8)
    ensures prefix <= (if ip.V4? then 32 else 128) ==>
              Corresponds(Subnet(RawNetwork.Network(ip, prefix)), PSubnet(ip, prefix))
    ensures prefix > (if ip.V4? then 32 else 128) ==> ToWire(PSubnet(ip, prefix)) == Err(InvalidPrefix)
  {
  }

  /** Vectors keep their elements, sets are collected, and records become the vectors of their values in
      the order of their names. */
  lemma SequenceForms(ps: seq<PyValue>, vs: seq<Value>)
    requires |ps| == |vs| && forall i | 0 <= i < |ps| :: ToWire(ps[i]) == Ok(vs[i])
    ensures ToWire(PVector(ps)) == Ok(Vector(vs)) && ToWire(PSet(ps)) == Ok(SetOf(vs))
  {
    forall i | 0 <= i < |ps| ensures WireOf(ps[i]) == vs[i] { assert ToWire(ps[i]) == Ok(vs[i]); }
    assert Map(WireOf, ps) == vs;
    VectorWire(ps);
    SetWire(ps);
  }

  lemma RecordForms(fs: seq<PyField>, vs: seq<Value>)
    requires |vs| == |fs| && forall i | 0 <= i < |fs| :: ToWire(fs[i].value) == Ok(vs[i])
    ensures ToWire(PRecord(fs)) == Ok(Vector(vs))
  {
    forall i | 0 <= i < |fs| ensures FieldWireOf(fs[i]) == vs[i] { assert ToWire(fs[i].value) == Ok(vs[i]); }
    assert Map(FieldWireOf, fs) == vs;
    RecordWire(fs);
  }

  lemma RecordWire(fs: seq<PyField>)
    requires forall f | f in fs :: ToWire(f.value).Ok?
    ensures ToWire(PRecord(fs)) == Ok(Vector(Map(FieldWireOf, fs)))
  {
    ToWireFieldsSpec(fs);
  }

  lemma TableForms(es: seq<PyEntry>, ws: seq<TableEntry>)
    requires |ws| == |es|
    requires forall i | 0 <= i < |es| :: ToWire(es[i].key) == Ok(ws[i].key) && ToWire(es[i].value) == Ok(ws[i].value)
    ensures ToWire(PTable(es)) == Ok(TableOf(ws))
  {
    forall i | 0 <= i < |es| ensures WireEntryOf(es[i]) == ws[i] {
      assert ToWire(es[i].key) == Ok(ws[i].key) && ToWire(es[i].value) == Ok(ws[i].value);
    }
    assert Map(WireEntryOf, es) == ws;
    TableWire(es);
  }

  // ----- From the wire and back -----

  /** A wire value comes back from Python unchanged; in particular no two values are confused. */
  lemma {:induction false} WireRoundTrip(v: Value)
    requires Valid(v)
    ensures ToWire(FromWire(v)) == Ok(v)
  {
    match v {
      case Vector(xs) =>
        forall x | x in xs ensures ToWire(FromWire(x)) == Ok(x) { WireRoundTrip(x); }
        VectorRoundTrip(xs);
      case Set(xs) =>
        forall x | x in xs ensures ToWire(FromWire(x)) == Ok(x) { WireRoundTrip(x); }
        SetRoundTrip(xs);
      case Table(es) =>
        forall e | e in es ensures ToWire(FromWire(e.key)) == Ok(e.key) && ToWire(FromWire(e.value)) == Ok(e.value) {
          WireRoundTrip(e.key);
          WireRoundTrip(e.value);
        }
        TableRoundTrip(es);
      case _ =>
    }
  }

  lemma VectorRoundTrip(xs: seq<Value>)
    requires forall x | x in xs :: ToWire(FromWire(x)) == Ok(x)
    ensures ToWire(FromWire(Vector(xs))) == Ok(Vector(xs))
  {
    var ys := Map(FromWire, xs);
    forall i | 0 <= i < |ys| ensures WireOf(ys[i]) == xs[i] && ToWire(ys[i]).Ok? {
      assert ys[i] == FromWire(xs[i]);
    }
    assert Map(WireOf, ys) == xs;
    VectorWire(ys);
    FromWireVector(xs);
  }

  lemma VectorWire(c: seq<PyValue>)
    requires forall y | y in c :: ToWire(y).Ok?
    ensures ToWire(PVector(c)) == Ok(Vector(Map(WireOf, c)))
  {
    ToWireSeqSpec(c);
  }

  lemma RecollectWire(xs: seq<PyValue>)
    requires forall i, j | 0 <= i < |xs| && 0 <= j < |xs| :: WireOf(xs[i]) == WireOf(xs[j]) ==> xs[i] == xs[j]
    ensures SetOf(Map(WireOf, Collect(PyLess, xs))) == SetOf(Map(WireOf, xs))
  {
    ValueOrderTotal();
    PyOrderTotal();
    CollectMapCollect(PyLess, ValueLess, WireOf, xs);
  }

  lemma RecollectWireEntries(es: seq<PyEntry>)
    requires forall i, j | 0 <= i < |es| && 0 <= j < |es| ::
               WireOf(es[i].key) == WireOf(es[j].key) ==> es[i].key == es[j].key
    ensures TableOf(Map(WireEntryOf, Collect(PyEntryLess, es))) == TableOf(Map(WireEntryOf, es))
  {
    ValueOrderTotal();
    PyOrderTotal();
    CollectMapCollect(PyEntryLess, EntryLess, WireEntryOf, es);
  }

  lemma SetRoundTrip(xs: seq<Value>)
    requires Ascending(ValueLess, xs) && forall x | x in xs :: ToWire(FromWire(x)) == Ok(x)
    ensures ToWire(FromWire(Set(xs))) == Ok(Set(xs))
  {
    var ys := Map(FromWire, xs);
    forall i | 0 <= i < |ys| ensures WireOf(ys[i]) == xs[i] && ToWire(ys[i]).Ok? {
      assert ys[i] == FromWire(xs[i]);
    }
    assert Map(WireOf, ys) == xs;
    SetToWire(ys, xs);
    FromWireSet(xs);
    SetRebuilt(xs);
  }

  lemma SetToWire(ys: seq<PyValue>, xs: seq<Value>)
    requires |ys| == |xs| && Map(WireOf, ys) == xs
    requires forall y | y in ys :: ToWire(y).Ok?
    requires forall i, j | 0 <= i < |ys| && 0 <= j < |ys| :: WireOf(ys[i]) == WireOf(ys[j]) ==> ys[i] == ys[j]
    ensures ToWire(PSet(Collect(PyLess, ys))) == Ok(SetOf(xs))
  {
    var c := Collect(PyLess, ys);
    PyCollected(ys);
    SetWire(c);
    RecollectWire(ys);
  }

  lemma SetWire(c: seq<PyValue>)
    requires forall y | y in c :: ToWire(y).Ok?
    ensures ToWire(PSet(c)) == Ok(SetOf(Map(WireOf, c)))
  {
    ToWireSeqSpec(c);
  }

  lemma TableRoundTrip(es: seq<TableEntry>)
    requires Ascending(EntryLess, es)
    requires forall e | e in es :: ToWire(FromWire(e.key)) == Ok(e.key) && ToWire(FromWire(e.value)) == Ok(e.value)
    ensures ToWire(FromWire(Table(es))) == Ok(Table(es))
  {
    var ys := Map(FromEntry, es);
    forall i | 0 <= i < |ys|
      ensures WireEntryOf(ys[i]) == es[i] && ToWire(ys[i].key).Ok? && ToWire(ys[i].value).Ok?
      ensures ys[i].key == FromWire(es[i].key) && WireOf(ys[i].key) == es[i].key
    {
      assert ys[i] == FromEntry(es[i]);
    }
    assert Map(WireEntryOf, ys) == es;
    TableToWire(ys, es);
    FromWireTable(es);
    TableRebuilt(es);
  }

  lemma TableToWire(ys: seq<PyEntry>, es: seq<TableEntry>)
    requires |ys| == |es| && Map(WireEntryOf, ys) == es
    requires forall y | y in ys :: ToWire(y.key).Ok? && ToWire(y.value).Ok?
    requires forall i, j | 0 <= i < |ys| && 0 <= j < |ys| ::
               WireOf(ys[i].key) == WireOf(ys[j].key) ==> ys[i].key == ys[j].key
    ensures ToWire(PTable(Collect(PyEntryLess, ys))) == Ok(TableOf(es))
  {
    var c := Collect(PyEntryLess, ys);
    PyCollectedEntries(ys);
    TableWire(c);
    RecollectWireEntries(ys);
  }

  lemma TableWire(c: seq<PyEntry>)
    requires forall y | y in c :: ToWire(y.key).Ok? && ToWire(y.value).Ok?
    ensures ToWire(PTable(c)) == Ok(TableOf(Map(WireEntryOf, c)))
  {
    ToWireEntriesSpec(c);
  }

  lemma FromWireTable(es: seq<TableEntry>)
    ensures FromWire(Table(es)) == PTable(Collect(PyEntryLess, Map(FromEntry, es)))
  {
    assert Map(FromEntry, es)
           == seq(|es|, i requires 0 <= i < |es| => PyEntry(FromWire(es[i].key), FromWire(es[i].value)));
  }

  lemma FromWireSet(xs: seq<Value>)
    ensures FromWire(Set(xs)) == PSet(Collect(PyLess, Map(FromWire, xs)))
  {
    assert Map(FromWire, xs) == seq(|xs|, i requires 0 <= i < |xs| => FromWire(xs[i]));
  }

  lemma EraseSet(xs: seq<PyValue>)
    ensures Erase(PSet(xs)) == PSet(Collect(PyLess, Map(Erase, xs)))
  {
    assert Map(Erase, xs) == seq(|xs|, i requires 0 <= i < |xs| => Erase(xs[i]));
  }

  lemma EraseTable(es: seq<PyEntry>)
    ensures Erase(PTable(es)) == PTable(Collect(PyEntryLess, Map(EraseEntry, es)))
  {
    assert Map(EraseEntry, es) == seq(|es|, i requires 0 <= i < |es| => PyEntry(Erase(es[i].key), Erase(es[i].value)));
  }

  lemma FromWireInjective(v: Value, w: Value)
    requires Valid(v) && Valid(w) && FromWire(v) == FromWire(w)
    ensures v == w
  {
    WireRoundTrip(v);
    WireRoundTrip(w);
  }

  // ----- To the wire and back is erasure -----

  /** Whenever the conversion to the wire succeeds, the way back gives the erased value. */
  lemma {:induction false} WireErases(p: PyValue)
    requires ToWire(p).Ok?
    ensures FromWire(ToWire(p).value) == Erase(p)
  {
    match p {
      case PVector(xs) =>
        ToWireSeqSpec(xs);
        forall x | x in xs ensures FromWire(WireOf(x)) == Erase(x) { WireErases(x); }
        VectorErases(xs);
      case PSet(xs) =>
        ToWireSeqSpec(xs);
        forall x | x in xs ensures FromWire(WireOf(x)) == Erase(x) && Valid(WireOf(x)) {
          WireErases(x);
          WireValid(x);
        }
        SetErases(xs);
      case PTable(es) =>
        ToWireEntriesSpec(es);
        forall e | e in es
          ensures FromEntry(WireEntryOf(e)) == EraseEntry(e) && Valid(WireOf(e.key))
        {
          WireErases(e.key);
          WireErases(e.value);
          WireValid(e.key);
        }
        TableErases(es);
      case PRecord(fs) =>
        ToWireFieldsSpec(fs);
        forall f | f in fs ensures FromWire(FieldWireOf(f)) == Erase(f.value) { WireErases(f.value); }
        RecordErases(fs);
      case _ => ScalarErases(p);
    }
  }

  lemma ScalarErases(p: PyValue)
    requires ToWire(p).Ok? && !p.PVector? && !p.PSet? && !p.PTable? && !p.PRecord?
    ensures FromWire(ToWire(p).value) == p && Erase(p) == p
  {
  }

  lemma RecollectPy(ws: seq<Value>)
    requires AllValid(ws)
    ensures Collect(PyLess, Map(FromWire, Collect(ValueLess, ws))) == Collect(PyLess, Map(FromWire, ws))
  {
    forall i, j | 0 <= i < |ws| && 0 <= j < |ws| && FromWire(ws[i]) == FromWire(ws[j]) ensures ws[i] == ws[j] {
      FromWireInjective(ws[i], ws[j]);
    }
    ValueOrderTotal();
    PyOrderTotal();
    CollectMapCollect(ValueLess, PyLess, FromWire, ws);
  }

  lemma RecollectPyEntries(ws: seq<TableEntry>)
    requires forall w | w in ws :: Valid(w.key)
    ensures Collect(PyEntryLess, Map(FromEntry, Collect(EntryLess, ws))) == Collect(PyEntryLess, Map(FromEntry, ws))
  {
    forall i, j | 0 <= i < |ws| && 0 <= j < |ws| && FromEntry(ws[i]).key == FromEntry(ws[j]).key
      ensures ws[i].key == ws[j].key
    {
      FromWireInjective(ws[i].key, ws[j].key);
    }
    ValueOrderTotal();
    PyOrderTotal();
    CollectMapCollect(EntryLess, PyEntryLess, FromEntry, ws);
  }

  lemma VectorErases(xs: seq<PyValue>)
    requires ToWireSeq(xs).Ok? && forall x | x in xs :: FromWire(WireOf(x)) == Erase(x)
    ensures FromWire(Vector(ToWireSeq(xs).value)) == Erase(PVector(xs))
  {
    ToWireSeqSpec(xs);
    var ws := Map(WireOf, xs);
    forall i | 0 <= i < |xs| ensures FromWire(ws[i]) == Erase(xs[i]) { assert xs[i] in xs; }
    assert Map(FromWire, ws) == Map(Erase, xs);
    FromWireVector(ws);
    EraseVector(xs);
  }

  lemma FromWireVector(xs: seq<Value>)
    ensures FromWire(Vector(xs)) == PVector(Map(FromWire, xs))
  {
    assert Map(FromWire, xs) == seq(|xs|, i requires 0 <= i < |xs| => FromWire(xs[i]));
  }

  lemma EraseVector(xs: seq<PyValue>)
    ensures Erase(PVector(xs)) == PVector(Map(Erase, xs))
  {
    assert Map(Erase, xs) == seq(|xs|, i requires 0 <= i < |xs| => Erase(xs[i]));
  }

  function ErasedField(f: PyField): PyValue {
    Erase(f.value)
  }

  lemma EraseRecord(fs: seq<PyField>)
    ensures Erase(PRecord(fs)) == PVector(Map(ErasedField, fs))
  {
    assert Map(ErasedField, fs) == seq(|fs|, i requires 0 <= i < |fs| => Erase(fs[i].value));
  }

  lemma RecordErases(fs: seq<PyField>)
    requires ToWireFields(fs).Ok? && forall f | f in fs :: FromWire(FieldWireOf(f)) == Erase(f.value)
    ensures FromWire(Vector(ToWireFields(fs).value)) == Erase(PRecord(fs))
  {
    ToWireFieldsSpec(fs);
    var ws := Map(FieldWireOf, fs);
    forall i | 0 <= i < |fs| ensures FromWire(ws[i]) == ErasedField(fs[i]) { assert fs[i] in fs; }
    assert Map(FromWire, ws) == Map(ErasedField, fs);
    FromWireVector(ws);
    EraseRecord(fs);
  }

  lemma SetErases(xs: seq<PyValue>)
    requires ToWireSeq(xs).Ok?
    requires forall x | x in xs :: FromWire(WireOf(x)) == Erase(x) && Valid(WireOf(x))
    ensures FromWire(SetOf(ToWireSeq(xs).value)) == Erase(PSet(xs))
  {
    ToWireSeqSpec(xs);
    var ws := Map(WireOf, xs);
    RecollectPy(ws);
    assert Map(FromWire, ws) == Map(Erase, xs);
    EraseSet(xs);
    FromWireSet(Collect(ValueLess, ws));
  }

  lemma TableErases(es: seq<PyEntry>)
    requires ToWireEntries(es).Ok?
    requires forall e | e in es :: FromEntry(WireEntryOf(e)) == EraseEntry(e) && Valid(WireOf(e.key))
    ensures FromWire(TableOf(ToWireEntries(es).value)) == Erase(PTable(es))
  {
    ToWireEntriesSpec(es);
    var ws := Map(WireEntryOf, es);
    WireEntriesErased(es);
    RecollectPyEntries(ws);
    EraseTable(es);
    FromWireTable(Collect(EntryLess, ws));
  }

  lemma WireEntriesErased(es: seq<PyEntry>)
    requires forall e | e in es :: FromEntry(WireEntryOf(e)) == EraseEntry(e) && Valid(WireOf(e.key))
    ensures Map(FromEntry, Map(WireEntryOf, es)) == Map(EraseEntry, es)
    ensures forall w | w in Map(WireEntryOf, es) :: Valid(w.key)
  {
    var ws := Map(WireEntryOf, es);
    forall i | 0 <= i < |ws| ensures FromEntry(ws[i]) == EraseEntry(es[i]) && Valid(ws[i].key) {
      assert ws[i] == WireEntryOf(es[i]) && es[i] in es;
    }
  }

  // ----- What erasure changes -----

  predicate Plain(p: PyValue) {
    RecordFree(p) && PyValid(p)
  }

  /** Erasure leaves no record, keeps containers canonical and never makes a set or table larger. */
  lemma {:induction false} EraseShape(p: PyValue)
    ensures RecordFree(Erase(p)) && PyValid(Erase(p))
    ensures p.PSet? ==> Erase(p).PSet? && |Erase(p).elems| <= |p.elems|
    ensures p.PTable? ==> Erase(p).PTable? && |Erase(p).entries| <= |p.entries|
  {
    match p {
      case PVector(xs) =>
        forall x | x in xs ensures Plain(Erase(x)) { EraseShape(x); }
      case PSet(xs) =>
        forall x | x in xs ensures Plain(Erase(x)) { EraseShape(x); }
        EraseSetShape(xs);
      case PTable(es) =>
        forall e | e in es ensures Plain(Erase(e.key)) && Plain(Erase(e.value)) {
          EraseShape(e.key);
          EraseShape(e.value);
        }
        EraseTableShape(es);
      case PRecord(fs) =>
        forall f | f in fs ensures Plain(Erase(f.value)) { EraseShape(f.value); }
      case _ =>
    }
  }

  lemma EraseSetShape(xs: seq<PyValue>)
    requires forall x | x in xs :: Plain(Erase(x))
    ensures Plain(Erase(PSet(xs))) && |Erase(PSet(xs)).elems| <= |xs|
  {
    var ys := Map(Erase, xs);
    PyCollected(ys);
    EraseSet(xs);
    assert forall y | y in ys :: Plain(y);
  }

  lemma EraseTableShape(es: seq<PyEntry>)
    requires forall e | e in es :: Plain(Erase(e.key)) && Plain(Erase(e.value))
    ensures Plain(Erase(PTable(es))) && |Erase(PTable(es)).entries| <= |es|
  {
    var ys := Map(EraseEntry, es);
    forall i | 0 <= i < |ys| ensures Plain(ys[i].key) && Plain(ys[i].value) {
      assert ys[i] == EraseEntry(es[i]);
    }
    PlainTable(ys);
    EraseTable(es);
  }

  lemma PlainTable(ys: seq<PyEntry>)
    requires forall y | y in ys :: Plain(y.key) && Plain(y.value)
    ensures Plain(PTable(Collect(PyEntryLess, ys))) && |Collect(PyEntryLess, ys)| <= |ys|
  {
    PyCollectedEntries(ys);
  }

  /** Erasure changes nothing exactly on the values without records. */
  lemma {:induction false} EraseIdentity(p: PyValue)
    requires PyValid(p)
    ensures Erase(p) == p <==> RecordFree(p)
  {
    EraseShape(p);
    if RecordFree(p) { EraseRecordFree(p); }
  }

  lemma {:induction false} EraseRecordFree(p: PyValue)
    requires PyValid(p) && RecordFree(p)
    ensures Erase(p) == p
  {
    match p {
      case PVector(xs) =>
        forall x | x in xs ensures Erase(x) == x { EraseRecordFree(x); }
      case PSet(xs) =>
        forall x | x in xs ensures Erase(x) == x { EraseRecordFree(x); }
        assert Map(Erase, xs) == xs;
        EraseSet(xs);
        PyCollected(xs);
      case PTable(es) =>
        forall e | e in es ensures EraseEntry(e) == e {
          EraseRecordFree(e.key);
          EraseRecordFree(e.value);
        }
        assert Map(EraseEntry, es) == es;
        EraseTable(es);
        PyCollectedEntries(es);
      case _ =>
    }
  }

  /** Of several keys that erasure makes equal, the table keeps the entry of the greatest. */
  lemma ErasedTableKeepsLast(es: seq<PyEntry>, i: nat)
    requires i < |es| && forall j | i < j < |es| :: Erase(es[j].key) != Erase(es[i].key)
    ensures EraseEntry(es[i]) in Erase(PTable(es)).entries
  {
    PyOrderTotal();
    var ys := Map(EraseEntry, es);
    CollectSpec(PyEntryLess, ys);
    EraseTable(es);
    assert LastOfClass(PyEntryLess, ys, i) && ys[i] == EraseEntry(es[i]);
  }
}
