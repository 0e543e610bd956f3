/** What the derived order of the Python values is, in terms of what they hold. */
module PythonOrder {
  import opened Ordering
  import opened Values
  import opened ValueOrder
  import opened PythonValues

  // ----- Variants -----

  /** The position of the variant decides before the fields. */
  lemma PositionFirst(m: U64, n: U64, a: seq<Value>, b: seq<Value>)
    requires m < n
    ensures ValueLess(Vector([Count(m)] + a), Vector([Count(n)] + b))
  {
    CmpByTag(Count(m), Count(n));
    var x, y := [Count(m)] + a, [Count(n)] + b;
    assert CmpSeq(x, y) == Cmp(x[0], y[0]).Then(CmpSeq(x[1..], y[1..]));
  }

  /** `p` is of the variant declared at position `i`. */
  predicate PyDeclared(i: U64, p: PyValue) {
    match i
    case 0 => p.PBoolean?
    case 1 => p.PCount?
    case 2 => p.PInteger?
    case 3 => p.PReal?
    case 4 => p.PTimespan?
    case 5 => p.PTimestamp?
    case 6 => p.PAddress?
    case 7 => p.PSubnet?
    case 8 => p.PPort?
    case 9 => p.PVector?
    case 10 => p.PSet?
    case 11 => p.PTable?
    case 12 => p.PRecord?
    case 13 => p.PString?
    case 14 => p.PEnum?
    case 15 => p.PNone?
    case _ => false
  }

  lemma DeclaredKey(i: U64, p: PyValue) returns (k: Value)
    requires PyDeclared(i, p)
    ensures k == Key(p) && k.Vector? && k.xs != [] && k.xs[0] == Count(i)
  {
    k := Key(p);
  }

  /** Values of different variants are ordered as the variants are declared: unlike on the wire,
      strings and enums come after the containers and `None` is last. */
  lemma PyDeclarationOrder(a: PyValue, b: PyValue, i: U64, j: U64)
    requires PyDeclared(i, a) && PyDeclared(j, b) && i < j
    ensures PyLess(a, b) && !PyLess(b, a)
  {
    var k := DeclaredKey(i, a);
    var l := DeclaredKey(j, b);
    PositionDecides(i, j, k.xs, l.xs);
  }

  lemma PositionDecides(i: U64, j: U64, xs: seq<Value>, ys: seq<Value>)
    requires i < j && xs != [] && ys != [] && xs[0] == Count(i) && ys[0] == Count(j)
    ensures ValueLess(Vector(xs), Vector(ys)) && !ValueLess(Vector(ys), Vector(xs))
  {
    PositionFirst(i, j, xs[1..], ys[1..]);
    assert xs == [Count(i)] + xs[1..] && ys == [Count(j)] + ys[1..];
    CmpFlip(Vector(xs), Vector(ys));
  }

  // ----- Scalars -----

  lemma {:induction false} CmpAfter(x: Value, xs: seq<Value>, ys: seq<Value>)
    ensures CmpSeq([x] + xs, [x] + ys) == CmpSeq(xs, ys)
  {
    CmpEqual(x, x);
    assert ([x] + xs)[1..] == xs && ([x] + ys)[1..] == ys;
  }

  lemma CmpOne(x: Value, y: Value)
    ensures CmpSeq([x], [y]) == Cmp(x, y)
  {
    assert [x][1..] == [] && [y][1..] == [];
    assert CmpSeq([x], [y]) == Cmp(x, y).Then(CmpSeq([], []));
  }

  /** Behind equal positions a single field decides. */
  lemma FieldDecides(i: U64, x: Value, y: Value)
    ensures ValueLess(Vector([Count(i), x]), Vector([Count(i), y])) <==> ValueLess(x, y)
  {
    CmpAfter(Count(i), [x], [y]);
    CmpOne(x, y);
    assert [Count(i)] + [x] == [Count(i), x] && [Count(i)] + [y] == [Count(i), y];
    CmpVectors([Count(i), x], [Count(i), y]);
  }

  lemma CmpTwo(a: Value, b: Value, x: Value, y: Value)
    ensures CmpSeq([a, b], [x, y]) == Cmp(a, x).Then(Cmp(b, y))
  {
    assert [a, b][1..] == [b] && [x, y][1..] == [y];
    CmpOne(b, y);
  }

  /** Of two fields the first decides before the second. */
  lemma FieldsDecide(i: U64, a: Value, b: Value, x: Value, y: Value)
    ensures ValueLess(Vector([Count(i), a, b]), Vector([Count(i), x, y])) <==>
            ValueLess(a, x) || (a == x && ValueLess(b, y))
  {
    CmpAfter(Count(i), [a, b], [x, y]);
    CmpTwo(a, b, x, y);
    CmpEqual(a, x);
    assert [Count(i)] + [a, b] == [Count(i), a, b] && [Count(i)] + [x, y] == [Count(i), x, y];
    CmpVectors([Count(i), a, b], [Count(i), x, y]);
  }

  /** Texts are ordered by the first differing character, a proper prefix being smaller. */
  lemma PyStringOrder(s: string, t: string)
    ensures PyLess(PString(s), PString(t)) <==> TextBefore(s, t)
  {
    FieldDecides(13, String(s), String(t));
    TextOrder(s, t);
  }

  lemma PyEnumOrder(s: string, t: string)
    ensures PyLess(PEnum(s), PEnum(t)) <==> TextBefore(s, t)
  {
    FieldDecides(14, String(s), String(t));
    TextOrder(s, t);
  }

  lemma PyNumberOrder(b: bool, c: bool, m: U64, n: U64, i: I64, j: I64, x: int, y: int)
    ensures PyLess(PBoolean(b), PBoolean(c)) <==> !b && c
    ensures PyLess(PCount(m), PCount(n)) <==> m < n
    ensures PyLess(PInteger(i), PInteger(j)) <==> i < j
    ensures PyLess(PTimestamp(x), PTimestamp(y)) <==> x < y
  {
    FieldDecides(0, Boolean(b), Boolean(c));
    FieldDecides(1, Count(m), Count(n));
    FieldDecides(2, Integer(i), Integer(j));
    FieldDecides(5, Timestamp(x), Timestamp(y));
    NumberOrder(b, c, m, n, i, j, x, y);
  }

  lemma PyMeasureOrder(f: Float, g: Float, d: Duration, e: Duration)
    ensures PyLess(PReal(f), PReal(g)) <==> FloatBefore(f, g)
    ensures PyLess(PTimespan(d), PTimespan(e)) <==> d.WholeNanoseconds() < e.WholeNanoseconds()
  {
    FieldDecides(3, Real(f), Real(g));
    FloatOrder(f, g);
    FieldDecides(4, Timespan(d), Timespan(e));
    TimespanOrder(d, e);
  }

  /** Subnets are ordered by their addresses, and then by their prefixes. */
  lemma PyAddressOrder(a: Ip, b: Ip, m: U8, n: U8)
    ensures PyLess(PAddress(a), PAddress(b)) <==> IpBefore(a, b)
    ensures PyLess(PSubnet(a, m), PSubnet(b, n)) <==> IpBefore(a, b) || (a == b && m < n)
  {
    IpOrder(a, b);
    FieldDecides(6, Address(a), Address(b));
    CountOrder(m, n);
    FieldsDecide(7, Address(a), Count(m), Address(b), Count(n));
  }

  lemma CountOrder(m: U64, n: U64)
    ensures ValueLess(Count(m), Count(n)) <==> m < n
  {
    NumberOrder(false, false, m, n, 0, 0, 0, 0);
  }

  /** The unknown protocol comes first, then TCP, UDP and ICMP. */
  predicate PyProtocolBefore(p: Protocol, q: Protocol) {
    match p
    case UNKNOWN => !q.UNKNOWN?
    case TCP => q.UDP? || q.ICMP?
    case UDP => q.ICMP?
    case ICMP => false
  }

  /** Ports are ordered by their numbers, and then by their protocols. */
  lemma PyPortOrder(m: U16, p: Protocol, n: U16, q: Protocol)
    ensures PyLess(PPort(m, p), PPort(n, q)) <==> m < n || (m == n && PyProtocolBefore(p, q))
  {
    FieldsDecide(8, Count(m), Count(PyProtocol(p)), Count(n), Count(PyProtocol(q)));
    CountOrder(m, n);
    CountOrder(PyProtocol(p), PyProtocol(q));
  }

  /** The unknown protocol is the smallest in Python and the greatest on the wire. */
  lemma ProtocolOrderDiffers(n: U16)
    ensures PyLess(PPort(n, UNKNOWN), PPort(n, TCP))
    ensures ValueLess(Port(PortId(n, TCP)), Port(PortId(n, UNKNOWN)))
  {
    PyPortOrder(n, UNKNOWN, n, TCP);
    PortOrder(PortId(n, TCP), PortId(n, UNKNOWN));
  }

  // ----- Containers -----

  lemma {:induction false} KeysAt(xs: seq<PyValue>)
    ensures |Keys(xs)| == |xs| && forall i | 0 <= i < |xs| :: Keys(xs)[i] == Key(xs[i])
  {
    if xs == [] {
    } else {
      KeysAt(xs[1..]);
    }
  }

  lemma {:induction false} EntryKeysAt(es: seq<PyEntry>)
    ensures |EntryKeys(es)| == |es| && forall i | 0 <= i < |es| :: EntryKeys(es)[i] == EntryKey(es[i])
  {
    if es == [] {
    } else {
      EntryKeysAt(es[1..]);
    }
  }

  lemma {:induction false} FieldKeysAt(fs: seq<PyField>)
    ensures |FieldKeys(fs)| == |fs| && forall i | 0 <= i < |fs| :: FieldKeys(fs)[i] == FieldKey(fs[i])
  {
    if fs == [] {
    } else {
      FieldKeysAt(fs[1..]);
    }
  }

  /** A one-to-one translation that keeps the order keeps the first difference. */
  lemma BelowMapped<T(!new), U(!new)>(less: (T, T) -> bool, lt: (U, U) -> bool, f: T -> U,
                                      xs: seq<T>, ys: seq<T>, us: seq<U>, vs: seq<U>)
    requires forall a, b :: f(a) == f(b) <==> a == b
    requires forall a, b :: lt(f(a), f(b)) <==> less(a, b)
    requires |us| == |xs| && forall i | 0 <= i < |xs| :: us[i] == f(xs[i])
    requires |vs| == |ys| && forall i | 0 <= i < |ys| :: vs[i] == f(ys[i])
    ensures (exists k: nat :: Below(lt, us, vs, k)) <==> exists k: nat :: Below(less, xs, ys, k)
  {
    if k: nat :| Below(lt, us, vs, k) { SameBelow(less, lt, f, xs, ys, us, vs, k); }
    if k: nat :| Below(less, xs, ys, k) { SameBelow(less, lt, f, xs, ys, us, vs, k); }
  }

  lemma SameBelow<T(!new), U(!new)>(less: (T, T) -> bool, lt: (U, U) -> bool, f: T -> U,
                                    xs: seq<T>, ys: seq<T>, us: seq<U>, vs: seq<U>, k: nat)
    requires forall a, b :: f(a) == f(b) <==> a == b
    requires forall a, b :: lt(f(a), f(b)) <==> less(a, b)
    requires |us| == |xs| && forall i | 0 <= i < |xs| :: us[i] == f(xs[i])
    requires |vs| == |ys| && forall i | 0 <= i < |ys| :: vs[i] == f(ys[i])
    ensures Below(lt, us, vs, k) <==> Below(less, xs, ys, k)
  {
    if k <= |xs| && k < |ys| {
      forall j | 0 <= j < k ensures us[j] == vs[j] <==> xs[j] == ys[j] {
        assert us[j] == f(xs[j]) && vs[j] == f(ys[j]);
      }
      assert k < |xs| ==> us[k] == f(xs[k]) && vs[k] == f(ys[k]);
    }
  }

  lemma KeyOneToOne()
    ensures forall a, b :: Key(a) == Key(b) <==> a == b
    ensures forall a, b :: EntryKey(a) == EntryKey(b) <==> a == b
    ensures forall a, b :: FieldKey(a) == FieldKey(b) <==> a == b
  {
    forall a, b ensures Key(a) == Key(b) <==> a == b {
      if Key(a) == Key(b) { KeyInjective(a, b); }
    }
    forall a, b ensures EntryKey(a) == EntryKey(b) <==> a == b {
      if EntryKey(a) == EntryKey(b) { EntryKeyInjective(a, b); }
    }
    forall a, b ensures FieldKey(a) == FieldKey(b) <==> a == b {
      if FieldKey(a) == FieldKey(b) { FieldKeyInjective(a, b); }
    }
  }

  /** Vectors, and sets by their ascending elements, are ordered by their first difference. */
  lemma PySequenceOrder(xs: seq<PyValue>, ys: seq<PyValue>)
    ensures PyLess(PVector(xs), PVector(ys)) <==> exists k: nat :: Below(PyLess, xs, ys, k)
    ensures PyLess(PSet(xs), PSet(ys)) <==> exists k: nat :: Below(PyLess, xs, ys, k)
  {
    FieldDecides(9, Vector(Keys(xs)), Vector(Keys(ys)));
    FieldDecides(10, Vector(Keys(xs)), Vector(Keys(ys)));
    LexicographicOrder(Keys(xs), Keys(ys));
    KeysAt(xs);
    KeysAt(ys);
    KeyOneToOne();
    BelowMapped(PyLess, ValueLess, Key, xs, ys, Keys(xs), Keys(ys));
  }

  /** Entries are compared by their keys, and by their values if the keys are equal. */
  predicate PyPairLess(d: PyEntry, e: PyEntry) {
    PyLess(d.key, e.key) || (d.key == e.key && PyLess(d.value, e.value))
  }

  /** Fields are compared by their names, and by their values if the names are equal. */
  predicate PyNamedLess(f: PyField, g: PyField) {
    TextBefore(f.name, g.name) || (f.name == g.name && PyLess(f.value, g.value))
  }

  lemma EntryKeyOrder(d: PyEntry, e: PyEntry)
    ensures ValueLess(EntryKey(d), EntryKey(e)) <==> PyPairLess(d, e)
  {
    CmpVectors([Key(d.key), Key(d.value)], [Key(e.key), Key(e.value)]);
    CmpTwo(Key(d.key), Key(d.value), Key(e.key), Key(e.value));
    CmpEqual(Key(d.key), Key(e.key));
    if Key(d.key) == Key(e.key) { KeyInjective(d.key, e.key); }
  }

  lemma FieldKeyOrder(f: PyField, g: PyField)
    ensures ValueLess(FieldKey(f), FieldKey(g)) <==> PyNamedLess(f, g)
  {
    CmpVectors([String(f.name), Key(f.value)], [String(g.name), Key(g.value)]);
    CmpTwo(String(f.name), Key(f.value), String(g.name), Key(g.value));
    CmpEqual(String(f.name), String(g.name));
    TextOrder(f.name, g.name);
  }

  /** Tables are ordered by their first differing entry. */
  lemma PyTableOrder(ds: seq<PyEntry>, es: seq<PyEntry>)
    ensures PyLess(PTable(ds), PTable(es)) <==> exists k: nat :: Below(PyPairLess, ds, es, k)
  {
    FieldDecides(11, Vector(EntryKeys(ds)), Vector(EntryKeys(es)));
    LexicographicOrder(EntryKeys(ds), EntryKeys(es));
    EntryKeysAt(ds);
    EntryKeysAt(es);
    KeyOneToOne();
    forall d, e ensures ValueLess(EntryKey(d), EntryKey(e)) <==> PyPairLess(d, e) { EntryKeyOrder(d, e); }
    BelowMapped(PyPairLess, ValueLess, EntryKey, ds, es, EntryKeys(ds), EntryKeys(es));
  }

  /** Records are ordered by their first differing field, and their fields ascend by name. */
  lemma PyRecordOrder(fs: seq<PyField>, gs: seq<PyField>)
    ensures PyLess(PRecord(fs), PRecord(gs)) <==> exists k: nat :: Below(PyNamedLess, fs, gs, k)
    ensures forall f, g :: PyFieldLess(f, g) <==> TextBefore(f.name, g.name)
  {
    FieldDecides(12, Vector(FieldKeys(fs)), Vector(FieldKeys(gs)));
    LexicographicOrder(FieldKeys(fs), FieldKeys(gs));
    FieldKeysAt(fs);
    FieldKeysAt(gs);
    KeyOneToOne();
    forall f, g ensures ValueLess(FieldKey(f), FieldKey(g)) <==> PyNamedLess(f, g) { FieldKeyOrder(f, g); }
    BelowMapped(PyNamedLess, ValueLess, FieldKey, fs, gs, FieldKeys(fs), FieldKeys(gs));
    forall f: PyField, g: PyField
      ensures PyFieldLess(f, g) <==> TextBefore(f.name, g.name)
    {
      TextOrder(f.name, g.name);
    }
  }

  // ----- What the order does to erased records -----

  /** Keys do merge: a record and the vector of its value are two members of a set before, one after. */
  lemma ErasureMerges(name: string)
    ensures var p := PSet([PVector([PNone]), PRecord([PyField(name, PNone)])]);
            PyValid(p) && Erase(p) == PSet([PVector([PNone])])
  {
    var v, r := PVector([PNone]), PRecord([PyField(name, PNone)]);
    PyDeclarationOrder(v, r, 9, 12);
    ErasedPair(v, r);
    PairValid(v, r);
    MergedTwice(v);
    EraseSet([v, r]);
  }

  lemma PairValid(v: PyValue, r: PyValue)
    requires PyLess(v, r) && PyValid(v) && PyValid(r)
    ensures PyValid(PSet([v, r]))
  {
  }

  lemma ErasedPair(v: PyValue, r: PyValue)
    requires v == PVector([PNone]) && r.PRecord? && |r.fields| == 1 && r.fields[0].value == PNone
    ensures Map(Erase, [v, r]) == [v, v] && PyValid(v) && PyValid(r)
  {
    assert Erase(v).xs == [PNone] && Erase(r).xs == [PNone];
  }

  lemma MergedTwice(v: PyValue)
    ensures Collect(PyLess, [v, v]) == [v]
  {
    PyOrderTotal();
    CollectSpec(PyLess, [v, v]);
    assert LastOfClass(PyLess, [v, v], 1) && [v, v][1] == v;
    AscendingUnique(PyLess, Collect(PyLess, [v, v]), [v]);
  }
}
