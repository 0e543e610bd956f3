/** The documents of values, written out. */
module Documents {
  import opened Wrappers
  import opened Values
  import opened Decimal
  import opened Json
  import opened ValueCodec
  import Floats
  import Ports
  import Timespans

  /** A tag and content, in this order. */
  function Doc(tag: string, content: Json): Json {
    JObject([Member("@data-type", JString(tag)), Member("data", content)])
  }

  // ----- What is written -----

  lemma PlainDocuments(t: Texts, b: bool, n: U64, i: I64, s: string)
    ensures EncodeValue(t, Value.None) == Ok(Doc("none", JObject([])))
    ensures EncodeValue(t, Boolean(b)) == Ok(Doc("boolean", JBool(b)))
    ensures EncodeValue(t, Count(n)) == Ok(Doc("count", JInt(n)))
    ensures EncodeValue(t, Integer(i)) == Ok(Doc("integer", JInt(i)))
    ensures EncodeValue(t, String(s)) == Ok(Doc("string", JString(s)))
    ensures EncodeValue(t, EnumValue(s)) == Ok(Doc("enum-value", JString(s)))
  {
  }

  /** Reals that are not finite become `null`. */
  lemma RealDocument(t: Texts, f: Float)
    ensures EncodeValue(t, Real(f)) == Ok(Doc("real", match f case Finite(r) => JFloat(r) case _ => JNull))
  {
  }

  /** Whole seconds are written as such, other lengths in nanoseconds if these fit `i64`. */
  lemma TimespanDocument(t: Texts, d: Duration)
    ensures d.nanos == 0 ==> EncodeValue(t, Timespan(d)) == Ok(Doc("timespan", JString(ShowInt(d.secs) + "s")))
    ensures d.nanos != 0 ==>
              var n := d.secs * 1_000_000_000 + d.nanos;
              EncodeValue(t, Timespan(d)) ==
              if -0x8000_0000_0000_0000 <= n <= 0x7fff_ffff_ffff_ffff then
                Ok(Doc("timespan", JString(ShowInt(n) + "ns")))
              else Err(UnrepresentableTimespan)
  {
  }

  lemma HostDocuments(t: Texts, x: int, ip: Ip, net: Network)
    ensures EncodeValue(t, Timestamp(x)) ==
            match t.showInstant(x)
            case Some(s) => Ok(Doc("timestamp", JString(s)))
            case None => Err(UnprintableTimestamp)
    ensures EncodeValue(t, Address(ip)) == Ok(Doc("address", JString(t.showIp(ip))))
    ensures EncodeValue(t, Subnet(net)) == Ok(Doc("subnet", JString(t.showNet(net))))
  {
  }

  lemma PortDocument(t: Texts, n: U16)
    ensures EncodeValue(t, Port(PortId(n, TCP))) == Ok(Doc("port", JString(ShowInt(n) + "/" + "tcp")))
    ensures EncodeValue(t, Port(PortId(n, UDP))) == Ok(Doc("port", JString(ShowInt(n) + "/" + "udp")))
    ensures EncodeValue(t, Port(PortId(n, ICMP))) == Ok(Doc("port", JString(ShowInt(n) + "/" + "icmp")))
    ensures EncodeValue(t, Port(PortId(n, UNKNOWN))) == Ok(Doc("port", JString(ShowInt(n) + "/" + "?")))
  {
  }

  lemma {:induction false} ElementsEncoded(t: Texts, xs: seq<Value>, js: seq<Json>)
    requires |js| == |xs| && forall i | 0 <= i < |xs| :: EncodeValue(t, xs[i]) == Ok(js[i])
    ensures EncodeSeq(t, xs) == Ok(js)
  {
    if xs == [] {
      assert js == [];
    } else {
      assert EncodeValue(t, xs[0]) == Ok(js[0]);
      ElementsEncoded(t, xs[1..], js[1..]);
      assert js == [js[0]] + js[1..];
    }
  }

  /** The document of a sequence is that of its elements, in their order. */
  lemma SequenceDocuments(t: Texts, xs: seq<Value>, js: seq<Json>)
    requires |js| == |xs| && forall i | 0 <= i < |xs| :: EncodeValue(t, xs[i]) == Ok(js[i])
    ensures EncodeValue(t, Vector(xs)) == Ok(Doc("vector", JArray(js)))
    ensures EncodeValue(t, Set(xs)) == Ok(Doc("set", JArray(js)))
  {
    ElementsEncoded(t, xs, js);
  }

  lemma {:induction false} EntriesEncoded(t: Texts, es: seq<TableEntry>, ks: seq<Json>, vs: seq<Json>)
    requires |es| == |ks| == |vs|
    requires forall i | 0 <= i < |es| ::
               EncodeValue(t, es[i].key) == Ok(ks[i]) && EncodeValue(t, es[i].value) == Ok(vs[i])
    ensures EncodeEntries(t, es) == Ok(Pairs(ks, vs))
  {
    if es == [] {
      assert Pairs(ks, vs) == [];
    } else {
      assert EncodeValue(t, es[0].key) == Ok(ks[0]) && EncodeValue(t, es[0].value) == Ok(vs[0]);
      EntriesEncoded(t, es[1..], ks[1..], vs[1..]);
      assert Pairs(ks, vs) == [Pair(ks[0], vs[0])] + Pairs(ks[1..], vs[1..]);
    }
  }

  function Pair(k: Json, v: Json): Json {
    JObject([Member("key", k), Member("value", v)])
  }

  function Pairs(ks: seq<Json>, vs: seq<Json>): seq<Json>
    requires |ks| == |vs|
  {
    seq(|ks|, i requires 0 <= i < |ks| => Pair(ks[i], vs[i]))
  }

  /** The document of a table is an array of objects with a key and a value, not an object. */
  lemma TableDocument(t: Texts, es: seq<TableEntry>, ks: seq<Json>, vs: seq<Json>)
    requires |es| == |ks| == |vs|
    requires forall i | 0 <= i < |es| ::
               EncodeValue(t, es[i].key) == Ok(ks[i]) && EncodeValue(t, es[i].value) == Ok(vs[i])
    ensures EncodeValue(t, Table(es)) == Ok(Doc("table", JArray(Pairs(ks, vs))))
  {
    EntriesEncoded(t, es, ks, vs);
  }

  // ----- What is read -----

  lemma AsContent(t: Texts, tag: string, kind: Kind, c: Json)
    requires tag == kind.Name()
    ensures DecodeValue(t, Doc(tag, c)) == DecodeContent(t, kind, c)
  {
    DecodeTagged(t, kind, c);
  }

  /** Whatever the content. */
  lemma ReadNone(t: Texts, c: Json)
    ensures DecodeValue(t, Doc("none", c)) == Ok(Value.None)
  {
    AsContent(t, "none", KNone, c);
  }

  lemma ReadNoneAlone(t: Texts)
    ensures DecodeValue(t, JObject([Member("@data-type", JString("none"))])) == Ok(Value.None)
  {
    NamedAll([Member(TAG, JString("none"))], {TAG, CONTENT});
  }

  lemma ReadBoolean(t: Texts, c: Json)
    ensures DecodeValue(t, Doc("boolean", c)) == if c.JBool? then Ok(Boolean(c.b)) else Err(WrongType)
  {
    AsContent(t, "boolean", KBoolean, c);
  }

  lemma ReadString(t: Texts, c: Json)
    ensures DecodeValue(t, Doc("string", c)) == if c.JString? then Ok(String(c.s)) else Err(WrongType)
  {
    AsContent(t, "string", KString, c);
  }

  lemma ReadEnumValue(t: Texts, c: Json)
    ensures DecodeValue(t, Doc("enum-value", c)) == if c.JString? then Ok(EnumValue(c.s)) else Err(WrongType)
  {
    AsContent(t, "enum-value", KEnumValue, c);
  }

  /** A count is a JSON integer that is not negative. */
  lemma ReadCount(t: Texts, c: Json)
    ensures DecodeValue(t, Doc("count", c)) ==
            match c
            case JInt(n) => if n >= 0 then Ok(Count(n)) else Err(OutOfRange)
            case _ => Err(WrongType)
  {
    AsContent(t, "count", KCount, c);
  }

  /** An integer is a JSON integer that is not too large. */
  lemma ReadInteger(t: Texts, c: Json)
    ensures DecodeValue(t, Doc("integer", c)) ==
            match c
            case JInt(n) => if n <= 0x7fff_ffff_ffff_ffff then Ok(Integer(n)) else Err(OutOfRange)
            case _ => Err(WrongType)
  {
    AsContent(t, "integer", KInteger, c);
  }

  /** A real may be written as an integer, and is then rounded to a double. */
  lemma ReadReal(t: Texts, c: Json)
    ensures DecodeValue(t, Doc("real", c)) ==
            match c
            case JFloat(r) => Ok(Real(Finite(r)))
            case JInt(n) => Ok(Real(Finite(Floats.RoundInt(n) as real)))
            case _ => Err(WrongType)
  {
    AsContent(t, "real", KReal, c);
  }

  lemma ReadTimestamp(t: Texts, c: Json)
    ensures DecodeValue(t, Doc("timestamp", c)) ==
            match c
            case JString(s) => (match t.readInstant(s) case Some(x) => Ok(Timestamp(x)) case None => Err(BadText(s)))
            case _ => Err(WrongType)
  {
    AsContent(t, "timestamp", KTimestamp, c);
  }

  lemma ReadAddress(t: Texts, c: Json)
    ensures DecodeValue(t, Doc("address", c)) ==
            match c
            case JString(s) => (match t.readIp(s) case Some(ip) => Ok(Address(ip)) case None => Err(BadText(s)))
            case _ => Err(WrongType)
  {
    AsContent(t, "address", KAddress, c);
  }

  lemma ReadSubnet(t: Texts, c: Json)
    ensures DecodeValue(t, Doc("subnet", c)) ==
            match c
            case JString(s) => (match t.readNet(s) case Some(net) => Ok(Subnet(net)) case None => Err(BadText(s)))
            case _ => Err(WrongType)
  {
    AsContent(t, "subnet", KSubnet, c);
  }

  lemma TimespanRead(s: string)
    ensures ReadTimespan(s) ==
            match Timespans.Parse(s)
            case Ok(d) => Ok(Timespan(d))
            case Err(e) => Err(if e.Panic? then Abort else BadText(s))
  {
  }

  lemma PortRead(s: string)
    ensures ReadPort(s) == match Ports.Parse(s) case Ok(p) => Ok(Port(p)) case Err(_) => Err(BadText(s))
  {
  }

  /** A text that is no timespan is reported; only the overflow of its seconds aborts. */
  lemma ReadTimespanText(t: Texts, c: Json)
    ensures DecodeValue(t, Doc("timespan", c)) ==
            match c
            case JString(s) =>
              (match Timespans.Parse(s)
               case Ok(d) => Ok(Timespan(d))
               case Err(e) => Err(if e.Panic? then Abort else BadText(s)))
            case _ => Err(WrongType)
  {
    AsContent(t, "timespan", KTimespan, c);
    if c.JString? {
      TextContent(t, c.s);
      TimespanRead(c.s);
    }
  }

  lemma ReadPortText(t: Texts, c: Json)
    ensures DecodeValue(t, Doc("port", c)) ==
            match c
            case JString(s) => (match Ports.Parse(s) case Ok(p) => Ok(Port(p)) case Err(_) => Err(BadText(s)))
            case _ => Err(WrongType)
  {
    AsContent(t, "port", KPort, c);
    if c.JString? {
      TextContent(t, c.s);
      PortRead(c.s);
    }
  }

  /** What becomes of a sequence, from what becomes of its elements: the first error, if any, decides. */
  ghost predicate Sequenced<T>(rs: seq<Result<T, DecodeError>>, r: Result<seq<T>, DecodeError>) {
    match r
    case Ok(xs) => |xs| == |rs| && forall i | 0 <= i < |rs| :: rs[i] == Ok(xs[i])
    case Err(e) => exists i :: 0 <= i < |rs| && rs[i] == Err(e) && forall j | 0 <= j < i :: rs[j].Ok?
  }

  lemma SequencedNext<T>(first: Result<T, DecodeError>, rs: seq<Result<T, DecodeError>>,
                         r: Result<seq<T>, DecodeError>)
    requires Sequenced(rs, r)
    ensures Sequenced([first] + rs, Joined(first, r))
  {
    var all := [first] + rs;
    if first.Err? {
      assert all[0] == Err(first.error);
    } else {
      assert forall i | 1 <= i < |all| :: all[i] == rs[i - 1];
      if r.Err? { LaterError(first, rs, r.error); }
    }
  }

  lemma LaterError<T>(first: Result<T, DecodeError>, rs: seq<Result<T, DecodeError>>, e: DecodeError)
    requires first.Ok?
    requires exists i :: 0 <= i < |rs| && rs[i] == Err(e) && forall j | 0 <= j < i :: rs[j].Ok?
    ensures var all := [first] + rs;
            exists i :: 0 <= i < |all| && all[i] == Err(e) && forall j | 0 <= j < i :: all[j].Ok?
  {
    var all := [first] + rs;
    var i :| 0 <= i < |rs| && rs[i] == Err(e) && forall j | 0 <= j < i :: rs[j].Ok?;
    assert all[i + 1] == Err(e);
    forall j | 0 <= j < i + 1 ensures all[j].Ok? {
      assert j > 0 ==> all[j] == rs[j - 1];
    }
  }

  function Elements(t: Texts, js: seq<Json>): seq<Result<Value, DecodeError>> {
    seq(|js|, i requires 0 <= i < |js| => DecodeValue(t, js[i]))
  }

  lemma DecodeSeqNext(t: Texts, js: seq<Json>)
    requires js != []
    ensures DecodeSeq(t, js) == Joined(DecodeValue(t, js[0]), DecodeSeq(t, js[1..]))
  {
  }

  lemma ElementsNext(t: Texts, js: seq<Json>)
    requires js != []
    ensures Elements(t, js) == [DecodeValue(t, js[0])] + Elements(t, js[1..])
  {
  }

  lemma {:induction false} ElementsSequenced(t: Texts, js: seq<Json>)
    ensures Sequenced(Elements(t, js), DecodeSeq(t, js))
  {
    if js == [] {
      assert DecodeSeq(t, js) == Ok([]);
    } else {
      ElementsSequenced(t, js[1..]);
      DecodeSeqNext(t, js);
      ElementsNext(t, js);
      SequencedNext(DecodeValue(t, js[0]), Elements(t, js[1..]), DecodeSeq(t, js[1..]));
    }
  }

  lemma VectorContent(t: Texts, js: seq<Json>, r: Result<seq<Value>, DecodeError>)
    requires DecodeSeq(t, js) == r
    ensures DecodeContent(t, KVector, JArray(js)) == match r case Ok(xs) => Ok(Vector(xs)) case Err(e) => Err(e)
  {
  }

  lemma SetContent(t: Texts, js: seq<Json>, r: Result<seq<Value>, DecodeError>)
    requires DecodeSeq(t, js) == r
    ensures DecodeContent(t, KSet, JArray(js)) == match r case Ok(xs) => Ok(SetOf(xs)) case Err(e) => Err(e)
  {
  }

  lemma TableContent(t: Texts, js: seq<Json>, r: Result<seq<TableEntry>, DecodeError>)
    requires DecodeEntries(t, js) == r
    ensures DecodeContent(t, KTable, JArray(js)) == match r case Ok(es) => Ok(TableOf(es)) case Err(e) => Err(e)
  {
  }

  lemma ReadVector(t: Texts, js: seq<Json>) returns (r: Result<seq<Value>, DecodeError>)
    ensures Sequenced(Elements(t, js), r)
    ensures DecodeValue(t, Doc("vector", JArray(js))) == match r case Ok(xs) => Ok(Vector(xs)) case Err(e) => Err(e)
  {
    r := DecodeSeq(t, js);
    ElementsSequenced(t, js);
    AsContent(t, "vector", KVector, JArray(js));
    VectorContent(t, js, r);
  }

  /** The elements of a set are collected. */
  lemma ReadSet(t: Texts, js: seq<Json>) returns (r: Result<seq<Value>, DecodeError>)
    ensures Sequenced(Elements(t, js), r)
    ensures DecodeValue(t, Doc("set", JArray(js))) == match r case Ok(xs) => Ok(SetOf(xs)) case Err(e) => Err(e)
  {
    r := DecodeSeq(t, js);
    ElementsSequenced(t, js);
    AsContent(t, "set", KSet, JArray(js));
    SetContent(t, js, r);
  }

  /** An entry is read key first. */
  function EntryRead(t: Texts, k: Json, v: Json): Result<TableEntry, DecodeError> {
    match (DecodeValue(t, k), DecodeValue(t, v))
    case (Err(e), _) => Err(e)
    case (_, Err(e)) => Err(e)
    case (Ok(key), Ok(value)) => Ok(TableEntry(key, value))
  }

  function Entries(t: Texts, ks: seq<Json>, vs: seq<Json>): seq<Result<TableEntry, DecodeError>>
    requires |ks| == |vs|
  {
    seq(|ks|, i requires 0 <= i < |ks| => EntryRead(t, ks[i], vs[i]))
  }

  lemma PairRead(t: Texts, k: Json, v: Json)
    ensures DecodeEntry(t, Pair(k, v)) == EntryRead(t, k, v)
  {
    DecodeTwo(t, k, v);
  }

  lemma DecodeEntriesNext(t: Texts, js: seq<Json>)
    requires js != []
    ensures DecodeEntries(t, js) == Joined(DecodeEntry(t, js[0]), DecodeEntries(t, js[1..]))
  {
  }

  lemma EntriesNext(t: Texts, ks: seq<Json>, vs: seq<Json>)
    requires |ks| == |vs| > 0
    ensures Entries(t, ks, vs) == [EntryRead(t, ks[0], vs[0])] + Entries(t, ks[1..], vs[1..])
  {
  }

  lemma DecodePairsNext(t: Texts, ks: seq<Json>, vs: seq<Json>)
    requires |ks| == |vs| > 0
    ensures DecodeEntries(t, Pairs(ks, vs))
            == Joined(EntryRead(t, ks[0], vs[0]), DecodeEntries(t, Pairs(ks[1..], vs[1..])))
  {
    var js := Pairs(ks, vs);
    assert js[0] == Pair(ks[0], vs[0]) && js[1..] == Pairs(ks[1..], vs[1..]);
    DecodeEntriesNext(t, js);
    PairRead(t, ks[0], vs[0]);
  }

  lemma {:induction false} EntriesSequenced(t: Texts, ks: seq<Json>, vs: seq<Json>)
    requires |ks| == |vs|
    ensures Sequenced(Entries(t, ks, vs), DecodeEntries(t, Pairs(ks, vs)))
  {
    if ks == [] {
      assert Pairs(ks, vs) == [];
      assert DecodeEntries(t, []) == Ok([]);
    } else {
      EntriesSequenced(t, ks[1..], vs[1..]);
      DecodePairsNext(t, ks, vs);
      EntriesNext(t, ks, vs);
      var rest := DecodeEntries(t, Pairs(ks[1..], vs[1..]));
      SequencedNext(EntryRead(t, ks[0], vs[0]), Entries(t, ks[1..], vs[1..]), rest);
    }
  }

  /** The entries of a table are collected. */
  lemma ReadTable(t: Texts, ks: seq<Json>, vs: seq<Json>) returns (r: Result<seq<TableEntry>, DecodeError>)
    requires |ks| == |vs|
    ensures Sequenced(Entries(t, ks, vs), r)
    ensures DecodeValue(t, Doc("table", JArray(Pairs(ks, vs)))) ==
            match r case Ok(es) => Ok(TableOf(es)) case Err(e) => Err(e)
  {
    var js := Pairs(ks, vs);
    r := DecodeEntries(t, js);
    EntriesSequenced(t, ks, vs);
    AsContent(t, "table", KTable, JArray(js));
    TableContent(t, js, r);
  }

  lemma ReadNoArray(t: Texts, tag: string, c: Json)
    requires !c.JArray? && (tag == "vector" || tag == "set" || tag == "table")
    ensures DecodeValue(t, Doc(tag, c)) == Err(WrongType)
  {
    var kind := if tag == "vector" then KVector else if tag == "set" then KSet else KTable;
    AsContent(t, tag, kind, c);
  }

  // ----- What is refused -----

  const TAGS: set<string> := {
    "none", "boolean", "count", "integer", "real", "timespan", "timestamp", "string", "enum-value", "address", "subnet",
    "port", "vector", "set", "table"}

  /** Only these tags name variants. */
  lemma UnknownTag(t: Texts, tag: string, c: Json)
    ensures tag !in TAGS ==> DecodeValue(t, Doc(tag, c)) == Err(UnknownVariant(tag))
    ensures tag in TAGS ==> DecodeKind(JString(tag)).Ok?
  {
    var ms := [Member("@data-type", JString(tag)), Member("data", c)];
    NamedAll(ms, {TAG, CONTENT});
  }

  /** What is missing or repeated is named; a repeated field is refused before another one is read. */
  lemma MissingMembers(t: Texts, c: Json, tag: string)
    requires tag in TAGS
    ensures DecodeValue(t, JObject([])) == Err(BadField(MissingField("@data-type")))
    ensures DecodeValue(t, JObject([Member("data", c)])) == Err(BadField(MissingField("@data-type")))
    ensures tag != "none" ==>
              DecodeValue(t, JObject([Member("@data-type", JString(tag))])) == Err(BadField(MissingField("data")))
    ensures !c.JObject? ==> DecodeValue(t, c) == Err(WrongType)
  {
    NamedAll([], {TAG, CONTENT});
    NamedAll([Member(CONTENT, c)], {TAG, CONTENT});
    NamedAll([Member(TAG, JString(tag))], {TAG, CONTENT});
  }

  /** A tag must be a text, and a table entry an object. */
  lemma Mistyped(t: Texts, tag: Json, ms: seq<Member>, entry: Json)
    requires !tag.JString? && !entry.JObject?
    ensures DecodeValue(t, JObject([Member("@data-type", tag)] + ms)) == Err(WrongType)
    ensures DecodeEntry(t, entry) == Err(WrongType)
  {
    var m := Member(TAG, tag);
    NamedAppend([m], ms, {TAG, CONTENT});
    NamedAll([m], {TAG, CONTENT});
  }

  lemma RepeatedMembers(t: Texts, c: Json, d: Json, tag: string)
    requires tag in TAGS
    ensures DecodeValue(t, JObject([Member("data", c), Member("data", d)])) == Err(BadField(DuplicateField("data")))
    ensures DecodeValue(t, JObject([Member("@data-type", JString(tag)), Member("@data-type", c)]))
            == Err(BadField(DuplicateField("@data-type")))
  {
    NamedAll([Member(CONTENT, c), Member(CONTENT, d)], {TAG, CONTENT});
    NamedAll([Member(TAG, JString(tag)), Member(TAG, c)], {TAG, CONTENT});
  }

  lemma ChosenThird(tag: string, c: Json, m: Member)
    requires m.name == "@data-type" || m.name == "data"
    ensures Chosen([Member("@data-type", JString(tag)), Member("data", c), m]) ==
            match DecodeKind(JString(tag))
            case Ok(kind) => Choose(kind, Some(c), Some(BadField(DuplicateField(m.name))))
            case Err(e) => Reject(e)
    ensures Chosen([Member("@data-type", JString(tag)), Member("data", c)]) ==
            match DecodeKind(JString(tag))
            case Ok(kind) => Choose(kind, Some(c), Option.None)
            case Err(e) => Reject(e)
  {
    var fs := [Member(TAG, JString(tag)), Member(CONTENT, c)];
    NamedAll(fs, {TAG, CONTENT});
    NamedAll(fs + [m], {TAG, CONTENT});
    assert fs + [m] == [fs[0], fs[1], m];
  }

  /** A third of the two fields is noticed only once the value has been read. */
  lemma ThirdMember(t: Texts, c: Json, tag: string, m: Member)
    requires m.name == "@data-type" || m.name == "data"
    ensures DecodeValue(t, JObject([Member("@data-type", JString(tag)), Member("data", c), m])) ==
            match DecodeValue(t, Doc(tag, c))
            case Ok(_) => Err(BadField(DuplicateField(m.name)))
            case Err(e) => Err(e)
  {
    ChosenThird(tag, c, m);
  }

  /** The content may come first: it is kept until the tag is known. */
  lemma ContentFirst(t: Texts, tag: Json, c: Json, ms: seq<Member>)
    ensures DecodeValue(t, JObject([Member("data", c), Member("@data-type", tag)] + ms))
            == DecodeValue(t, JObject([Member("@data-type", tag), Member("data", c)] + ms))
  {
    SwappedMembers(tag, c, ms);
  }

  lemma SwappedMembers(tag: Json, c: Json, ms: seq<Member>)
    ensures Chosen([Member(CONTENT, c), Member(TAG, tag)] + ms) == Chosen([Member(TAG, tag), Member(CONTENT, c)] + ms)
  {
    var m, n := Member(TAG, tag), Member(CONTENT, c);
    NamedAppend([m, n], ms, {TAG, CONTENT});
    NamedAppend([n, m], ms, {TAG, CONTENT});
    NamedAll([m, n], {TAG, CONTENT});
    NamedAll([n, m], {TAG, CONTENT});
  }

  lemma EntryMembers(t: Texts, j: Json, v: Value)
    requires DecodeValue(t, j) == Ok(v)
    ensures DecodeEntry(t, JObject([])) == Err(BadField(MissingField("key")))
    ensures DecodeEntry(t, JObject([Member("key", j)])) == Err(BadField(MissingField("value")))
    ensures DecodeEntry(t, JObject([Member("value", j)])) == Err(BadField(MissingField("key")))
    ensures DecodeEntry(t, JObject([Member("key", j), Member("key", j)])) == Err(BadField(DuplicateField("key")))
    ensures DecodeEntry(t, JObject([Member("value", j), Member("value", j)])) == Err(BadField(DuplicateField("value")))
  {
    NamedAll([], {"key", "value"});
    NamedAll([Member("key", j)], {"key", "value"});
    NamedAll([Member("value", j)], {"key", "value"});
    NamedAll([Member("key", j), Member("key", j)], {"key", "value"});
    NamedAll([Member("value", j), Member("value", j)], {"key", "value"});
  }

  lemma EntryFrom(t: Texts, ms: seq<Member>, fs: seq<Member>)
    requires Named(ms, {"key", "value"}) == fs && |fs| == 3 && fs[0].name == "key" && fs[1].name == "value"
    ensures DecodeEntry(t, JObject(ms)) ==
            match EntryRead(t, fs[0].value, fs[1].value)
            case Ok(_) => Err(BadField(DuplicateField(fs[2].name)))
            case Err(e) => Err(e)
  {
  }

  /** A third key or value is noticed only once the entry has been read. */
  lemma EntryThird(t: Texts, k: Json, v: Json, m: Member)
    requires m.name == "key" || m.name == "value"
    ensures DecodeEntry(t, JObject([Member("key", k), Member("value", v), m])) ==
            match EntryRead(t, k, v)
            case Ok(_) => Err(BadField(DuplicateField(m.name)))
            case Err(e) => Err(e)
  {
    var fs := [Member("key", k), Member("value", v), m];
    NamedAll(fs, {"key", "value"});
    EntryFrom(t, fs, fs);
  }
}
