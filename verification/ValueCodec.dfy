/** The tagged JSON encoding of values. */
module ValueCodec {
  import opened Wrappers
  import opened Ordering
  import opened Values
  import opened Json
  import opened Decimal
  import Floats
  import Timespans
  import Ports

  /** The text forms that other crates define: timestamps, which not all have one in local time, addresses
      and subnets. */
  datatype Texts = Texts(
    showInstant: int -> Option<string>, readInstant: string -> Option<int>,
    showIp: Ip -> string, readIp: string -> Option<Ip>,
    showNet: Network -> string, readNet: string -> Option<Network>)
  {
    /** Each of these crates reads back what it prints. */
    ghost predicate Lawful() {
      && (forall x :: showInstant(x).Some? ==> readInstant(showInstant(x).value) == Some(x))
      && (forall x :: readIp(showIp(x)) == Some(x))
      && (forall x :: readNet(showNet(x)) == Some(x))
    }
  }

  /** `Abort` stands for the arithmetic overflow that ends the program while a timespan is read. */
  datatype DecodeError =
    | BadField(cause: FieldError)
    | UnknownVariant(tag: string)
    | WrongType
    | OutOfRange
    | BadText(text: string)
    | Abort

  datatype EncodeError = UnrepresentableTimespan | UnprintableTimestamp

  const TAG := "@data-type"
  const CONTENT := "data"

  /** The variants of `Value`, as named on the wire. */
  datatype Kind =
    | KNone | KBoolean | KCount | KInteger | KReal | KTimespan | KTimestamp | KString | KEnumValue
    | KAddress | KSubnet | KPort | KVector | KSet | KTable
  {
    function Name(): string {
      match this
      case KNone => "none"
      case KBoolean => "boolean"
      case KCount => "count"
      case KInteger => "integer"
      case KReal => "real"
      case KTimespan => "timespan"
      case KTimestamp => "timestamp"
      case KString => "string"
      case KEnumValue => "enum-value"
      case KAddress => "address"
      case KSubnet => "subnet"
      case KPort => "port"
      case KVector => "vector"
      case KSet => "set"
      case KTable => "table"
    }
  }

  function ParseKind(s: string): Option<Kind> {
    if s == "none" then Some(KNone)
    else if s == "boolean" then Some(KBoolean)
    else if s == "count" then Some(KCount)
    else if s == "integer" then Some(KInteger)
    else if s == "real" then Some(KReal)
    else if s == "timespan" then Some(KTimespan)
    else if s == "timestamp" then Some(KTimestamp)
    else if s == "string" then Some(KString)
    else if s == "enum-value" then Some(KEnumValue)
    else if s == "address" then Some(KAddress)
    else if s == "subnet" then Some(KSubnet)
    else if s == "port" then Some(KPort)
    else if s == "vector" then Some(KVector)
    else if s == "set" then Some(KSet)
    else if s == "table" then Some(KTable)
    else Option.None
  }

  lemma KindNames(k: Kind)
    ensures ParseKind(k.Name()) == Some(k)
  {
  }

  function Tagged(kind: Kind, content: Json): Json {
    JObject([Member(TAG, JString(kind.Name())), Member(CONTENT, content)])
  }

  // ----- Encoding -----

  function EncodeValue(t: Texts, v: Value): Result<Json, EncodeError>
    decreases v, 1
  {
    match v
    case None => Ok(Tagged(KNone, JObject([])))
    case Boolean(b) => Ok(Tagged(KBoolean, JBool(b)))
    case Count(n) => Ok(Tagged(KCount, JInt(n)))
    case Integer(i) => Ok(Tagged(KInteger, JInt(i)))
    case Real(f) => Ok(Tagged(KReal, if f.Finite? then JFloat(f.r) else JNull))
    case Timespan(d) =>
      (match Timespans.Serialize(d)
       case Ok(s) => Ok(Tagged(KTimespan, JString(s)))
       case Err(_) => Err(UnrepresentableTimespan))
    case Timestamp(x) =>
      (match t.showInstant(x)
       case Some(s) => Ok(Tagged(KTimestamp, JString(s)))
       case None => Err(UnprintableTimestamp))
    case String(s) => Ok(Tagged(KString, JString(s)))
    case EnumValue(s) => Ok(Tagged(KEnumValue, JString(s)))
    case Address(ip) => Ok(Tagged(KAddress, JString(t.showIp(ip))))
    case Subnet(net) => Ok(Tagged(KSubnet, JString(t.showNet(net))))
    case Port(p) => Ok(Tagged(KPort, JString(Ports.Show(p))))
    case Vector(xs) =>
      var js :- EncodeSeq(t, xs);
      Ok(Tagged(KVector, JArray(js)))
    case Set(xs) =>
      var js :- EncodeSeq(t, xs);
      Ok(Tagged(KSet, JArray(js)))
    case Table(es) =>
      var js :- EncodeEntries(t, es);
      Ok(Tagged(KTable, JArray(js)))
  }

  function EncodeSeq(t: Texts, xs: seq<Value>): Result<seq<Json>, EncodeError>
    decreases xs, 0
  {
    if xs == [] then Ok([])
    else
      var j :- EncodeValue(t, xs[0]);
      var js :- EncodeSeq(t, xs[1..]);
      Ok([j] + js)
  }

  function EncodeEntry(t: Texts, e: TableEntry): Result<Json, EncodeError>
    decreases e, 0
  {
    var k :- EncodeValue(t, e.key);
    var v :- EncodeValue(t, e.value);
    Ok(JObject([Member("key", k), Member("value", v)]))
  }

  function EncodeEntries(t: Texts, es: seq<TableEntry>): Result<seq<Json>, EncodeError>
    decreases es, 0
  {
    if es == [] then Ok([])
    else
      var j :- EncodeEntry(t, es[0]);
      var js :- EncodeEntries(t, es[1..]);
      Ok([j] + js)
  }

  /** The table serializer: one element after the other, stopping at the first failure. */
  method SerializeTable(t: Texts, entries: seq<TableEntry>) returns (r: Result<seq<Json>, EncodeError>)
    ensures r == EncodeEntries(t, entries)
  {
    var js: seq<Json> := [];
    ghost var all := EncodeEntries(t, entries);
    assert entries[0..] == entries && (all.Ok? ==> [] + all.value == all.value);
    for i := 0 to |entries|
      invariant EncodeEntries(t, entries) == Prefixed(js, EncodeEntries(t, entries[i..]))
    {
      assert entries[i..][1..] == entries[i + 1..];
      var entry := EncodeEntry(t, entries[i]);
      if entry.Err? {
        return Err(entry.error);
      }
      ghost var rest := EncodeEntries(t, entries[i + 1..]);
      assert rest.Ok? ==> js + ([entry.value] + rest.value) == js + [entry.value] + rest.value;
      js := js + [entry.value];
    }
    assert entries[|entries|..] == [] && js + [] == js;
    r := Ok(js);
  }

  // ----- Decoding -----

  function DecodeText<T>(j: Json, read: string -> Option<T>): Result<T, DecodeError> {
    if !j.JString? then Err(WrongType)
    else
      match read(j.s)
      case Some(x) => Ok(x)
      case None => Err(BadText(j.s))
  }

  function ReadTimespan(s: string): Result<Value, DecodeError> {
    match Timespans.Parse(s)
    case Ok(d) => Ok(Timespan(d))
    case Err(Panic) => Err(Abort)
    case Err(_) => Err(BadText(s))
  }

  function ReadPort(s: string): Result<Value, DecodeError> {
    match Ports.Parse(s)
    case Ok(p) => Ok(Port(p))
    case Err(_) => Err(BadText(s))
  }

  function DecodeKind(j: Json): Result<Kind, DecodeError> {
    if !j.JString? then Err(WrongType)
    else
      match ParseKind(j.s)
      case Some(kind) => Ok(kind)
      case None => Err(UnknownVariant(j.s))
  }

  /** What the members of an object call for: the content to decode as a kind, if there is any, and the
      error that is noticed behind it. */
  datatype Choice = Reject(error: DecodeError) | Choose(kind: Kind, content: Option<Json>, behind: Option<DecodeError>)

  /** The two fields are taken in document order, and the content is decoded as soon as both are known: a
      duplicate behind them is noticed only afterwards. Other members are ignored, and only a `none` may
      come without content. */
  function Chosen(ms: seq<Member>): (c: Choice)
    ensures c.Choose? && c.content.Some? ==> exists m | m in ms :: m.value == c.content.value
  {
    ChosenFrom(Named(ms, {TAG, CONTENT}))
  }

  function ChosenFrom(fs: seq<Member>): (c: Choice)
    ensures c.Choose? && c.content.Some? ==> exists m | m in fs :: m.value == c.content.value
  {
    if fs == [] then Reject(BadField(MissingField(TAG)))
    else if fs[0].name == TAG then
      match DecodeKind(fs[0].value)
      case Err(e) => Reject(e)
      case Ok(kind) =>
        if |fs| == 1 then
          if kind.KNone? then Choose(kind, Option.None, Option.None) else Reject(BadField(MissingField(CONTENT)))
        else if fs[1].name == TAG then Reject(BadField(DuplicateField(TAG)))
        else
          Choose(kind, Some(fs[1].value), Third(fs))
    else if |fs| == 1 then Reject(BadField(MissingField(TAG)))
    else if fs[1].name == CONTENT then Reject(BadField(DuplicateField(CONTENT)))
    else
      match DecodeKind(fs[1].value)
      case Err(e) => Reject(e)
      case Ok(kind) =>
        Choose(kind, Some(fs[0].value), Third(fs))
  }

  /** A third occurrence of one of two fields. */
  function Third(fs: seq<Member>): Option<DecodeError> {
    if |fs| > 2 then Some(BadField(DuplicateField(fs[2].name))) else Option.None
  }

  function Alone<T>(x: T, behind: Option<DecodeError>): Result<T, DecodeError> {
    match behind
    case Some(e) => Err(e)
    case None => Ok(x)
  }

  function DecodeValue(t: Texts, j: Json): Result<Value, DecodeError>
    decreases j, 1
  {
    if !j.JObject? then Err(WrongType)
    else
      match Chosen(j.members)
      case Reject(e) => Err(e)
      case Choose(_, None, _) => Ok(Value.None)
      case Choose(kind, Some(c), behind) =>
        var v :- DecodeContent(t, kind, c);
        Alone(v, behind)
  }

  function DecodeContent(t: Texts, kind: Kind, c: Json): Result<Value, DecodeError>
    decreases c, 2
  {
    match kind
    case KNone => Ok(Value.None)
    case KBoolean => if c.JBool? then Ok(Boolean(c.b)) else Err(WrongType)
    case KCount =>
      if !c.JInt? then Err(WrongType) else if IsU64(c.n) then Ok(Count(c.n)) else Err(OutOfRange)
    case KInteger =>
      if !c.JInt? then Err(WrongType) else if IsI64(c.n) then Ok(Integer(c.n)) else Err(OutOfRange)
    case KReal =>
      if c.JFloat? then Ok(Real(Finite(c.r)))
      else if c.JInt? then Ok(Real(Finite(Floats.RoundInt(c.n) as real)))
      else Err(WrongType)
    case KTimespan => if c.JString? then ReadTimespan(c.s) else Err(WrongType)
    case KTimestamp =>
      var x :- DecodeText(c, t.readInstant);
      Ok(Timestamp(x))
    case KString => if c.JString? then Ok(String(c.s)) else Err(WrongType)
    case KEnumValue => if c.JString? then Ok(EnumValue(c.s)) else Err(WrongType)
    case KAddress =>
      var x :- DecodeText(c, t.readIp);
      Ok(Address(x))
    case KSubnet =>
      var x :- DecodeText(c, t.readNet);
      Ok(Subnet(x))
    case KPort => if c.JString? then ReadPort(c.s) else Err(WrongType)
    case KVector =>
      if !c.JArray? then Err(WrongType)
      else
        var xs :- DecodeSeq(t, c.items);
        Ok(Vector(xs))
    case KSet =>
      if !c.JArray? then Err(WrongType)
      else
        var xs :- DecodeSeq(t, c.items);
        Ok(SetOf(xs))
    case KTable =>
      if !c.JArray? then Err(WrongType)
      else
        var es :- DecodeEntries(t, c.items);
        Ok(TableOf(es))
  }

  function DecodeSeq(t: Texts, js: seq<Json>): Result<seq<Value>, DecodeError>
    decreases js, 0
  {
    if js == [] then Ok([])
    else
      var x :- DecodeValue(t, js[0]);
      var xs :- DecodeSeq(t, js[1..]);
      Ok([x] + xs)
  }

  function DecodeEntry(t: Texts, j: Json): Result<TableEntry, DecodeError>
    decreases j, 1
  {
    if !j.JObject? then Err(WrongType)
    else
      var fs := Named(j.members, {"key", "value"});
      if fs == [] then Err(BadField(MissingField("key")))
      else
        var x :- DecodeValue(t, fs[0].value);
        if |fs| == 1 then Err(BadField(MissingField(if fs[0].name == "key" then "value" else "key")))
        else if fs[1].name == fs[0].name then Err(BadField(DuplicateField(fs[1].name)))
        else
          var y :- DecodeValue(t, fs[1].value);
          Alone(if fs[0].name == "key" then TableEntry(x, y) else TableEntry(y, x), Third(fs))
  }

  function DecodeEntries(t: Texts, js: seq<Json>): Result<seq<TableEntry>, DecodeError>
    decreases js, 0
  {
    if js == [] then Ok([])
    else
      var e :- DecodeEntry(t, js[0]);
      var es :- DecodeEntries(t, js[1..]);
      Ok([e] + es)
  }

  // ----- What can be encoded, and what survives -----

  /** Every timespan and timestamp in the value has a text form. */
  predicate Encodable(t: Texts, v: Value) {
    match v
    case Timespan(d) => d.nanos == 0 || IsI64(d.WholeNanoseconds())
    case Timestamp(x) => t.showInstant(x).Some?
    case Vector(xs) => forall x | x in xs :: Encodable(t, x)
    case Set(xs) => forall x | x in xs :: Encodable(t, x)
    case Table(es) => forall e | e in es :: Encodable(t, e.key) && Encodable(t, e.value)
    case _ => true
  }

  /** Every real in the value is finite. */
  predicate AllFinite(v: Value) {
    match v
    case Real(f) => f.Finite?
    case Vector(xs) => forall x | x in xs :: AllFinite(x)
    case Set(xs) => forall x | x in xs :: AllFinite(x)
    case Table(es) => forall e | e in es :: AllFinite(e.key) && AllFinite(e.value)
    case _ => true
  }

  /** Encoding fails exactly on a timespan without a text form, at any depth. */
  lemma {:induction false} EncodeSucceeds(t: Texts, v: Value)
    ensures EncodeValue(t, v).Ok? <==> Encodable(t, v)
    decreases v, 1
  {
    match v {
      case Vector(xs) => EncodeSeqSucceeds(t, xs);
      case Set(xs) => EncodeSeqSucceeds(t, xs);
      case Table(es) => EncodeEntriesSucceeds(t, es);
      case _ =>
    }
  }

  lemma {:induction false} EncodeSeqSucceeds(t: Texts, xs: seq<Value>)
    ensures EncodeSeq(t, xs).Ok? <==> forall x | x in xs :: Encodable(t, x)
    decreases xs, 0
  {
    if xs != [] {
      assert xs == [xs[0]] + xs[1..];
      EncodeSucceeds(t, xs[0]);
      EncodeSeqSucceeds(t, xs[1..]);
    }
  }

  lemma {:induction false} EncodeEntrySucceeds(t: Texts, e: TableEntry)
    ensures EncodeEntry(t, e).Ok? <==> Encodable(t, e.key) && Encodable(t, e.value)
    decreases e, 0
  {
    EncodeSucceeds(t, e.key);
    EncodeSucceeds(t, e.value);
  }

  lemma {:induction false} EncodeEntriesSucceeds(t: Texts, es: seq<TableEntry>)
    ensures EncodeEntries(t, es).Ok? <==> forall e | e in es :: Encodable(t, e.key) && Encodable(t, e.value)
    decreases es, 0
  {
    if es != [] {
      assert es == [es[0]] + es[1..];
      EncodeEntrySucceeds(t, es[0]);
      EncodeEntriesSucceeds(t, es[1..]);
    }
  }

  lemma DecodeTagged(t: Texts, kind: Kind, c: Json)
    ensures DecodeValue(t, Tagged(kind, c)) == DecodeContent(t, kind, c)
  {
    NamedAll(Tagged(kind, c).members, {TAG, CONTENT});
    KindNames(kind);
  }

  /** In document order or not, with whatever other members: an object is a value exactly if its tag
      occurs once and names a kind, and its content occurs once and is read as that kind, or not at all
      for a `none`. */
  lemma ValueFields(t: Texts, ms: seq<Member>, v: Value)
    ensures DecodeValue(t, JObject(ms)) == Ok(v) <==>
            var tags, contents := Named(ms, {TAG}), Named(ms, {CONTENT});
            && |tags| == 1 && DecodeKind(tags[0].value).Ok?
            && (if contents == [] then DecodeKind(tags[0].value).value.KNone? && v == Value.None
                else
                  && |contents| == 1
                  && DecodeContent(t, DecodeKind(tags[0].value).value, contents[0].value) == Ok(v))
  {
    ChosenFields(ms);
  }

  lemma ChosenFields(ms: seq<Member>)
    ensures var tags, contents := Named(ms, {TAG}), Named(ms, {CONTENT});
            if |tags| == 1 && |contents| <= 1 && DecodeKind(tags[0].value).Ok? then
              var kind := DecodeKind(tags[0].value).value;
              if contents != [] then Chosen(ms) == Choose(kind, Some(contents[0].value), Option.None)
              else if kind.KNone? then Chosen(ms) == Choose(kind, Option.None, Option.None)
              else Chosen(ms).Reject?
            else Chosen(ms).Reject? || (Chosen(ms).content.Some? && Chosen(ms).behind.Some?)
  {
    assert {TAG, CONTENT} == {TAG} + {CONTENT};
    NamedEither(ms, {TAG}, {CONTENT});
    NamedOnce(ms, {TAG}, {CONTENT});
  }

  /** The same for entries: each of the two fields occurs once and is read. */
  lemma EntryFields(t: Texts, ms: seq<Member>, e: TableEntry)
    ensures DecodeEntry(t, JObject(ms)) == Ok(e) <==>
            var keys, values := Named(ms, {"key"}), Named(ms, {"value"});
            && |keys| == 1 && |values| == 1
            && DecodeValue(t, keys[0].value) == Ok(e.key) && DecodeValue(t, values[0].value) == Ok(e.value)
  {
    assert {"key", "value"} == {"key"} + {"value"};
    NamedEither(ms, {"key"}, {"value"});
    NamedOnce(ms, {"key"}, {"value"});
  }

  /** A field is decoded before a missing or second one is noticed, so such a document can still abort. */
  lemma AbortComesFirst(t: Texts, days: I64)
    requires days >= 106_751_991_167_301
    ensures var overflow := Tagged(KTimespan, JString(ShowInt(days) + "d"));
            && DecodeEntry(t, JObject([Member("key", overflow)])) == Err(Abort)
            && DecodeEntry(t, JObject([Member("key", overflow), Member("key", overflow)])) == Err(Abort)
  {
    var s := ShowInt(days) + "d";
    DecodeTagged(t, KTimespan, JString(s));
    Timespans.DaysPanic(days);
    TextContent(t, s);
    FirstFieldFails(t, Tagged(KTimespan, JString(s)), Abort);
  }

  lemma FirstFieldFails(t: Texts, j: Json, e: DecodeError)
    requires DecodeValue(t, j) == Err(e)
    ensures DecodeEntry(t, JObject([Member("key", j)])) == Err(e)
    ensures DecodeEntry(t, JObject([Member("key", j), Member("key", j)])) == Err(e)
  {
    NamedAll([Member("key", j)], {"key", "value"});
    NamedAll([Member("key", j), Member("key", j)], {"key", "value"});
  }

  function KindOf(v: Value): Kind {
    match v
    case None => KNone
    case Boolean(_) => KBoolean
    case Count(_) => KCount
    case Integer(_) => KInteger
    case Real(_) => KReal
    case Timespan(_) => KTimespan
    case Timestamp(_) => KTimestamp
    case String(_) => KString
    case EnumValue(_) => KEnumValue
    case Address(_) => KAddress
    case Subnet(_) => KSubnet
    case Port(_) => KPort
    case Vector(_) => KVector
    case Set(_) => KSet
    case Table(_) => KTable
  }

  /** An encoding is tagged with the variant. */
  lemma EncodedForm(t: Texts, v: Value) returns (c: Json)
    requires EncodeValue(t, v).Ok?
    ensures EncodeValue(t, v).value == Tagged(KindOf(v), c)
  {
    c := EncodeValue(t, v).value.members[1].value;
  }

  lemma DecodeContainers(t: Texts, js: seq<Json>)
    ensures DecodeContent(t, KVector, JArray(js)) ==
            match DecodeSeq(t, js) case Ok(xs) => Ok(Vector(xs)) case Err(e) => Err(e)
    ensures DecodeContent(t, KSet, JArray(js)) ==
            match DecodeSeq(t, js) case Ok(xs) => Ok(SetOf(xs)) case Err(e) => Err(e)
    ensures DecodeContent(t, KTable, JArray(js)) ==
            match DecodeEntries(t, js) case Ok(es) => Ok(TableOf(es)) case Err(e) => Err(e)
  {
  }

  predicate Scalar(v: Value) {
    !v.Vector? && !v.Set? && !v.Table?
  }

  lemma RoundTripScalar(t: Texts, v: Value)
    requires t.Lawful() && Scalar(v) && EncodeValue(t, v).Ok?
    ensures DecodeValue(t, EncodeValue(t, v).value).Ok? <==> AllFinite(v)
    ensures AllFinite(v) ==> DecodeValue(t, EncodeValue(t, v).value) == Ok(v)
  {
    if v.Timespan? {
      RoundTripTimespan(t, v.d);
    } else if v.Port? {
      RoundTripPort(t, v.port);
    } else {
      var c := EncodedForm(t, v);
      DecodeTagged(t, KindOf(v), c);
      ScalarContent(t, v, c);
    }
  }

  lemma RoundTripTimespan(t: Texts, d: Duration)
    requires EncodeValue(t, Timespan(d)).Ok?
    ensures DecodeValue(t, EncodeValue(t, Timespan(d)).value) == Ok(Timespan(d))
  {
    var c := JString(Timespans.Serialize(d).value);
    assert EncodeValue(t, Timespan(d)) == Ok(Tagged(KTimespan, c));
    DecodeTagged(t, KTimespan, c);
    TextContent(t, c.s);
    ReadShownTimespan(d);
  }

  lemma RoundTripPort(t: Texts, p: PortId)
    ensures EncodeValue(t, Port(p)).Ok? && DecodeValue(t, EncodeValue(t, Port(p)).value) == Ok(Port(p))
  {
    var c := JString(Ports.Show(p));
    assert EncodeValue(t, Port(p)) == Ok(Tagged(KPort, c));
    DecodeTagged(t, KPort, c);
    TextContent(t, c.s);
    ReadShownPort(p);
  }

  lemma TextContent(t: Texts, s: string)
    ensures DecodeContent(t, KTimespan, JString(s)) == ReadTimespan(s)
    ensures DecodeContent(t, KPort, JString(s)) == ReadPort(s)
  {
  }

  lemma ReadShownTimespan(d: Duration)
    requires Timespans.Serialize(d).Ok?
    ensures ReadTimespan(Timespans.Serialize(d).value) == Ok(Timespan(d))
  {
    Timespans.RoundTrip(d);
  }

  lemma ReadShownPort(p: PortId)
    ensures ReadPort(Ports.Show(p)) == Ok(Port(p))
  {
    Ports.RoundTrip(p);
  }

  lemma ScalarContent(t: Texts, v: Value, c: Json)
    requires t.Lawful() && Scalar(v) && !v.Timespan? && !v.Port?
    requires EncodeValue(t, v) == Ok(Tagged(KindOf(v), c))
    ensures DecodeContent(t, KindOf(v), c).Ok? <==> AllFinite(v)
    ensures AllFinite(v) ==> DecodeContent(t, KindOf(v), c) == Ok(v)
  {
    assert c == EncodeValue(t, v).value.members[1].value;
  }

  /** A value encoded without failure is decoded to itself exactly when its reals are finite. */
  lemma {:induction false} RoundTrip(t: Texts, v: Value)
    requires t.Lawful() && Valid(v) && EncodeValue(t, v).Ok?
    ensures DecodeValue(t, EncodeValue(t, v).value).Ok? <==> AllFinite(v)
    ensures AllFinite(v) ==> DecodeValue(t, EncodeValue(t, v).value) == Ok(v)
    decreases v, 1
  {
    if Scalar(v) {
      RoundTripScalar(t, v);
    } else {
      RoundTripContainer(t, v);
    }
  }

  lemma {:induction false} RoundTripContainer(t: Texts, v: Value)
    requires t.Lawful() && Valid(v) && EncodeValue(t, v).Ok? && !Scalar(v)
    ensures DecodeValue(t, EncodeValue(t, v).value).Ok? <==> AllFinite(v)
    ensures AllFinite(v) ==> DecodeValue(t, EncodeValue(t, v).value) == Ok(v)
    decreases v, 0
  {
    var c := EncodedForm(t, v);
    DecodeTagged(t, KindOf(v), c);
    DecodeContainers(t, c.items);
    match v {
      case Vector(xs) => RoundTripSeq(t, xs);
      case Set(xs) =>
        RoundTripSeq(t, xs);
        SetRebuilt(xs);
      case Table(es) =>
        RoundTripEntries(t, es);
        TableRebuilt(es);
    }
  }

  lemma {:induction false} RoundTripSeq(t: Texts, xs: seq<Value>)
    requires t.Lawful() && AllValid(xs) && EncodeSeq(t, xs).Ok?
    ensures DecodeSeq(t, EncodeSeq(t, xs).value).Ok? <==> forall x | x in xs :: AllFinite(x)
    ensures (forall x | x in xs :: AllFinite(x)) ==> DecodeSeq(t, EncodeSeq(t, xs).value) == Ok(xs)
    decreases xs, 0
  {
    if xs != [] {
      var js := EncodeSeq(t, xs).value;
      assert xs == [xs[0]] + xs[1..];
      assert js[1..] == EncodeSeq(t, xs[1..]).value;
      RoundTrip(t, xs[0]);
      RoundTripSeq(t, xs[1..]);
    }
  }

  lemma DecodeTwo(t: Texts, k: Json, v: Json)
    ensures DecodeEntry(t, JObject([Member("key", k), Member("value", v)])) ==
            match (DecodeValue(t, k), DecodeValue(t, v))
            case (Err(e), _) => Err(e)
            case (_, Err(e)) => Err(e)
            case (Ok(key), Ok(value)) => Ok(TableEntry(key, value))
  {
    NamedAll([Member("key", k), Member("value", v)], {"key", "value"});
  }

  lemma {:induction false} RoundTripEntry(t: Texts, e: TableEntry)
    requires t.Lawful() && Valid(e.key) && Valid(e.value) && EncodeEntry(t, e).Ok?
    ensures DecodeEntry(t, EncodeEntry(t, e).value).Ok? <==> AllFinite(e.key) && AllFinite(e.value)
    ensures AllFinite(e.key) && AllFinite(e.value) ==> DecodeEntry(t, EncodeEntry(t, e).value) == Ok(e)
    decreases e, 0
  {
    DecodeTwo(t, EncodeValue(t, e.key).value, EncodeValue(t, e.value).value);
    RoundTrip(t, e.key);
    RoundTrip(t, e.value);
  }

  lemma {:induction false} RoundTripEntries(t: Texts, es: seq<TableEntry>)
    requires t.Lawful() && AllValidEntries(es) && EncodeEntries(t, es).Ok?
    ensures DecodeEntries(t, EncodeEntries(t, es).value).Ok? <==>
            forall e | e in es :: AllFinite(e.key) && AllFinite(e.value)
    ensures (forall e | e in es :: AllFinite(e.key) && AllFinite(e.value)) ==>
              DecodeEntries(t, EncodeEntries(t, es).value) == Ok(es)
    decreases es, 0
  {
    if es != [] {
      var js := EncodeEntries(t, es).value;
      assert es == [es[0]] + es[1..];
      assert js[1..] == EncodeEntries(t, es[1..]).value;
      RoundTripEntry(t, es[0]);
      RoundTripEntries(t, es[1..]);
    }
  }

  // ----- Whatever is decoded is canonical -----

  lemma {:induction false} DecodedValid(t: Texts, j: Json)
    ensures DecodeValue(t, j).Ok? ==> Valid(DecodeValue(t, j).value)
    decreases j, 1
  {
    if DecodeValue(t, j).Ok? && Chosen(j.members).content.Some? {
      DecodedContentValid(t, Chosen(j.members).kind, Chosen(j.members).content.value);
    }
  }

  lemma {:induction false} DecodedContentValid(t: Texts, kind: Kind, c: Json)
    ensures DecodeContent(t, kind, c).Ok? ==> Valid(DecodeContent(t, kind, c).value)
    decreases c, 2
  {
    if c.JArray? && DecodeContent(t, kind, c).Ok? {
      DecodedSeqValid(t, c.items);
      DecodedEntriesValid(t, c.items);
      if kind.KSet? { SetOfValid(DecodeSeq(t, c.items).value); }
      if kind.KTable? { TableOfValid(DecodeEntries(t, c.items).value); }
    }
  }

  lemma {:induction false} DecodedSeqValid(t: Texts, js: seq<Json>)
    ensures DecodeSeq(t, js).Ok? ==> AllValid(DecodeSeq(t, js).value)
    decreases js, 0
  {
    if js != [] {
      DecodedValid(t, js[0]);
      DecodedSeqValid(t, js[1..]);
    }
  }

  lemma {:induction false} DecodedEntryValid(t: Texts, j: Json)
    ensures DecodeEntry(t, j).Ok? ==> Valid(DecodeEntry(t, j).value.key) && Valid(DecodeEntry(t, j).value.value)
    decreases j, 1
  {
    if DecodeEntry(t, j).Ok? {
      var fs := Named(j.members, {"key", "value"});
      assert fs[0] in fs && fs[1] in fs;
      DecodedValid(t, fs[0].value);
      DecodedValid(t, fs[1].value);
    }
  }

  lemma {:induction false} DecodedEntriesValid(t: Texts, js: seq<Json>)
    ensures DecodeEntries(t, js).Ok? ==> AllValidEntries(DecodeEntries(t, js).value)
    decreases js, 0
  {
    if js != [] {
      DecodedEntryValid(t, js[0]);
      DecodedEntriesValid(t, js[1..]);
    }
  }

  /** A decoded table is canonical and keeps, of several entries with one key, the last one. */
  lemma DecodeTableLastWins(t: Texts, js: seq<Json>, es: seq<TableEntry>)
    requires DecodeEntries(t, js) == Ok(es)
    ensures DecodeValue(t, Tagged(KTable, JArray(js))) == Ok(TableOf(es)) && Valid(TableOf(es))
    ensures forall e :: e in TableOf(es).entries <==>
              exists i: nat :: i < |es| && es[i] == e && forall j | i < j < |es| :: es[j].key != e.key
  {
    DecodeTagged(t, KTable, JArray(js));
    DecodedEntriesValid(t, js);
    TableCanonical(es);
  }

  lemma {:induction false} EncodedEntryAt(t: Texts, es: seq<TableEntry>, i: nat)
    requires t.Lawful() && i < |es| && EncodeEntries(t, es).Ok?
    requires Valid(es[i].key) && Valid(es[i].value) && AllFinite(es[i].key) && AllFinite(es[i].value)
    ensures |EncodeEntries(t, es).value| == |es|
    ensures DecodeEntry(t, EncodeEntries(t, es).value[i]) == Ok(es[i])
  {
    var js := EncodeEntries(t, es).value;
    assert js[1..] == EncodeEntries(t, es[1..]).value;
    EncodedLength(t, es[1..]);
    if i == 0 {
      RoundTripEntry(t, es[0]);
    } else {
      EncodedEntryAt(t, es[1..], i - 1);
      assert js[i] == js[1..][i - 1];
    }
  }

  lemma {:induction false} EncodedLength(t: Texts, es: seq<TableEntry>)
    requires EncodeEntries(t, es).Ok?
    ensures |EncodeEntries(t, es).value| == |es|
  {
    if es == [] {
    } else {
      EncodedLength(t, es[1..]);
    }
  }

  /** A table is written in strictly ascending order of its keys, one element for each entry. */
  lemma EncodedTableAscends(t: Texts, es: seq<TableEntry>)
    requires t.Lawful() && Valid(Table(es)) && Encodable(t, Table(es)) && AllFinite(Table(es))
    ensures EncodeEntries(t, es).Ok? && |EncodeEntries(t, es).value| == |es|
    ensures forall i | 0 <= i < |es| :: DecodeEntry(t, EncodeEntries(t, es).value[i]) == Ok(es[i])
    ensures forall i, j | 0 <= i < j < |es| :: ValueLess(es[i].key, es[j].key)
  {
    EncodeEntriesSucceeds(t, es);
    EncodedLength(t, es);
    assert forall i, j | 0 <= i < j < |es| :: EntryLess(es[i], es[j]);
    forall i | 0 <= i < |es| ensures DecodeEntry(t, EncodeEntries(t, es).value[i]) == Ok(es[i]) {
      assert es[i] in es;
      EncodedEntryAt(t, es, i);
    }
  }
}
