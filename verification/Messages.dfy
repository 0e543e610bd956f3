/** Events, their recognition in values, and the messages of the protocol. */
module Messages {
  import opened Wrappers
  import opened Values
  import opened Json
  import opened ValueCodec

  datatype Event = Event(name: string, args: seq<Value>, metadata: seq<Value>) {
    function WithMetadata(xs: seq<Value>): Event {
      this.(metadata := xs)
    }
  }

  datatype Data = EventData(event: Event) | Other(value: Value)

  const EVENT_TYPE: U64 := 1
  const FORMAT_NR: U64 := 1

  // ----- Event recognition -----

  /** `From<Value> for Data`: a missing metadata element is empty, any other one is wrapped. */
  function DataOf(v: Value): Data {
    if v.Vector? && |v.xs| > 2 && v.xs[1] == Count(EVENT_TYPE) && v.xs[2].Vector? then
      var data := v.xs[2].xs;
      if |data| > 1 && data[0].String? && data[1].Vector? then
        var metadata :=
          if |data| <= 2 then []
          else if data[2].Vector? then data[2].xs
          else [data[2]];
        EventData(Event(data[0].s, data[1].xs, []).WithMetadata(metadata))
      else Other(v)
    else Other(v)
  }

  /** `From<Data> for Value`. */
  function ValueOf(d: Data): Value {
    match d
    case EventData(e) =>
      Vector([Count(FORMAT_NR), Count(EVENT_TYPE), Vector([String(e.name), Vector(e.args), Vector(e.metadata)])])
    case Other(v) => v
  }

  /** The form in which a value comes back after being read as data and written again. */
  function Canonical(v: Value): Value {
    ValueOf(DataOf(v))
  }

  /** What a peer sees of some data. */
  function Normalised(d: Data): Data {
    DataOf(ValueOf(d))
  }

  /** Events are fixed by normalisation; other data is fixed exactly when it is not event-shaped. */
  lemma NormalisedFixes(d: Data)
    ensures d.EventData? ==> Normalised(d) == d
    ensures d.Other? ==> (Normalised(d) == d <==> !DataOf(d.value).EventData?)
    ensures Normalised(Normalised(d)) == Normalised(d)
  {
  }

  /** Recognition is a normal form: recognising the canonical form changes nothing, and
      canonicalising twice is canonicalising once. */
  lemma RecognitionNormalForm(v: Value)
    ensures DataOf(Canonical(v)) == DataOf(v)
    ensures Canonical(Canonical(v)) == Canonical(v)
    ensures DataOf(v).Other? ==> Canonical(v) == v
  {
  }

  /** An event-shaped value is canonical exactly when its format number is 1, nothing is left over
      and the metadata is present as a vector. */
  lemma EventCanonicalIff(v: Value)
    requires DataOf(v).EventData?
    ensures Canonical(v) == v <==>
            v.xs[0] == Count(FORMAT_NR) && |v.xs| == 3 && |v.xs[2].xs| == 3 && v.xs[2].xs[2].Vector?
  {
    var c := Canonical(v);
    var data := v.xs[2].xs;
    if v.xs[0] == Count(FORMAT_NR) && |v.xs| == 3 && |data| == 3 && data[2].Vector? {
      assert data == c.xs[2].xs;
      assert v.xs == c.xs;
    }
  }

  /** Exactly these values are events: any first element, the number 1, and a vector of a name, a vector
      of arguments and possibly more. Without a third element there in the inner vector the metadata is
      empty, a vector holds the metadata, and anything else is the only metadata; what follows is lost. */
  lemma EventRecognised(first: Value, name: string, args: seq<Value>, more: seq<Value>, rest: seq<Value>)
    ensures DataOf(EventShape(first, name, args, more, rest)) ==
            EventData(Event(name, args, if more == [] then [] else if more[0].Vector? then more[0].xs else [more[0]]))
  {
    var data := [String(name), Vector(args)] + more;
    assert more == [] ==> data == [String(name), Vector(args)];
    assert more != [] ==> data[2] == more[0];
    assert EventShape(first, name, args, more, rest).xs[..3] == [first, Count(1), Vector(data)];
  }

  function EventShape(first: Value, name: string, args: seq<Value>, more: seq<Value>, rest: seq<Value>): Value {
    Vector([first, Count(1), Vector([String(name), Vector(args)] + more)] + rest)
  }

  lemma OnlyEventsRecognised(v: Value)
    ensures DataOf(v).EventData? <==>
            exists first, name, args, more, rest :: v == EventShape(first, name, args, more, rest)
    ensures !DataOf(v).EventData? ==> DataOf(v) == Other(v)
  {
    if DataOf(v).EventData? {
      var data := v.xs[2].xs;
      assert data == [String(data[0].s), Vector(data[1].xs)] + data[2..];
      assert v.xs == [v.xs[0], Count(1), Vector(data)] + v.xs[3..];
      assert v == EventShape(v.xs[0], data[0].s, data[1].xs, data[2..], v.xs[3..]);
    }
    if first, name, args, more, rest :| v == EventShape(first, name, args, more, rest) {
      EventRecognised(first, name, args, more, rest);
    }
  }

  // ----- Messages -----

  datatype Message =
    | Ack(endpoint: string, version: string)
    | Error(code: string, context: string)
    | DataMessage(topic: string, data: Data)

  function EncodeMessage(t: Texts, m: Message): Result<Json, EncodeError> {
    match m
    case Ack(endpoint, version) =>
      Ok(JObject([Member("type", JString("ack")),
                  Member("endpoint", JString(endpoint)), Member("version", JString(version))]))
    case Error(code, context) =>
      Ok(JObject([Member("type", JString("error")),
                  Member("code", JString(code)), Member("context", JString(context))]))
    case DataMessage(topic, data) =>
      var j :- EncodeValue(t, ValueOf(data));
      Ok(JObject([Member("type", JString("data-message")), Member("topic", JString(topic))] + j.members))
  }

  function StringValue(j: Json): Result<string, DecodeError> {
    if j.JString? then Ok(j.s) else Err(WrongType)
  }

  function Missing<T>(name: string): Result<T, DecodeError> {
    Err(BadField(MissingField(name)))
  }

  function Duplicate<T>(name: string): Result<T, DecodeError> {
    Err(BadField(DuplicateField(name)))
  }

  /** A required text: a second occurrence is noticed once the first has been read. */
  function StringField(ms: seq<Member>, name: string): Result<string, DecodeError> {
    var fs := Named(ms, {name});
    if fs == [] then Missing(name)
    else
      var s :- StringValue(fs[0].value);
      if |fs| > 1 then Duplicate(name) else Ok(s)
  }

  /** Two required texts, taken in document order; the second one has an alias. */
  function StringFields(ms: seq<Member>, first: string, second: string, alias: string)
    : Result<(string, string), DecodeError>
  {
    var fs := Named(ms, {first, second, alias});
    if fs == [] then Missing(first)
    else
      var s :- StringValue(fs[0].value);
      if |fs| == 1 then Missing(if fs[0].name == first then second else first)
      else if fs[0].name == first && fs[1].name == first then Duplicate(first)
      else if fs[0].name != first && fs[1].name != first then Duplicate(second)
      else
        var r :- StringValue(fs[1].value);
        if |fs| > 2 then Duplicate(if fs[2].name == first then first else second)
        else Ok(if fs[0].name == first then (s, r) else (r, s))
  }

  datatype MessageKind = KAck | KError | KDataMessage

  function ParseMessageKind(s: string): Result<MessageKind, DecodeError> {
    if s == "ack" then Ok(KAck)
    else if s == "error" then Ok(KError)
    else if s == "data-message" then Ok(KDataMessage)
    else Err(UnknownVariant(s))
  }

  function TypeField(ms: seq<Member>): Result<MessageKind, DecodeError> {
    var fs := Named(ms, {"type"});
    if fs == [] then Missing("type")
    else
      var s :- StringValue(fs[0].value);
      var kind :- ParseMessageKind(s);
      if |fs| > 1 then Duplicate("type") else Ok(kind)
  }

  /** The context of an error may also be named `message`, but not both. The data of a message is read
      from the members that its other fields leave over. */
  function DecodeMessage(t: Texts, j: Json): Result<Message, DecodeError> {
    if !j.JObject? then Err(WrongType)
    else
      var kind :- TypeField(j.members);
      match kind
      case KAck =>
        var fields :- StringFields(j.members, "endpoint", "version", "version");
        Ok(Ack(fields.0, fields.1))
      case KError =>
        var fields :- StringFields(j.members, "code", "context", "message");
        Ok(Error(fields.0, fields.1))
      case KDataMessage =>
        var topic :- StringField(j.members, "topic");
        var value :- DecodeValue(t, JObject(Without(j.members, {"type", "topic"})));
        Ok(DataMessage(topic, DataOf(value)))
  }

  predicate EncodableMessage(t: Texts, m: Message) {
    m.DataMessage? ==> Encodable(t, ValueOf(m.data))
  }

  predicate FiniteMessage(m: Message) {
    m.DataMessage? ==> AllFinite(ValueOf(m.data))
  }

  predicate ValidMessage(m: Message) {
    m.DataMessage? ==> Valid(ValueOf(m.data))
  }

  /** What a peer reads when a message is sent to it. */
  function NormalisedMessage(m: Message): Message {
    if m.DataMessage? then m.(data := Normalised(m.data)) else m
  }

  /** The members of an encoded value survive flattening: none of them is called `type` or `topic`. */
  lemma Flattened(topic: Json, kind: Json, k: Kind, c: Json)
    ensures var ms := [Member("type", kind), Member("topic", topic)] + Tagged(k, c).members;
            && Named(ms, {"type"}) == [Member("type", kind)]
            && Named(ms, {"topic"}) == [Member("topic", topic)]
            && JObject(Without(ms, {"type", "topic"})) == Tagged(k, c)
  {
    var vs := Tagged(k, c).members;
    var ms := [Member("type", kind), Member("topic", topic)] + vs;
    NamedAppend([Member("type", kind), Member("topic", topic)], vs, {"type"});
    NamedAppend([Member("type", kind), Member("topic", topic)], vs, {"topic"});
    NamedTwo(Member("type", kind), Member("topic", topic), {"type"});
    NamedTwo(Member("type", kind), Member("topic", topic), {"topic"});
    NamedNone(vs, {"type"});
    NamedNone(vs, {"topic"});
    assert ms[1..][1..] == vs;
    WithoutOther(vs, {"type", "topic"});
  }

  lemma {:induction false} WithoutOther(ms: seq<Member>, names: set<string>)
    requires forall i | 0 <= i < |ms| :: ms[i].name !in names
    ensures Without(ms, names) == ms
  {
    if ms != [] { WithoutOther(ms[1..], names); }
  }

  /** Encoding fails exactly on a timespan without a text form; otherwise decoding gives the message
      with its data normalised, exactly when its reals are finite. */
  lemma MessageRoundTrip(t: Texts, m: Message)
    requires t.Lawful() && ValidMessage(m)
    ensures EncodeMessage(t, m).Ok? <==> EncodableMessage(t, m)
    ensures EncodeMessage(t, m).Ok? ==>
              (DecodeMessage(t, EncodeMessage(t, m).value) == Ok(NormalisedMessage(m)) <==> FiniteMessage(m))
    ensures EncodeMessage(t, m).Ok? && !FiniteMessage(m) ==> DecodeMessage(t, EncodeMessage(t, m).value).Err?
  {
    match m {
      case Ack(_, _) => AckRoundTrip(t, m);
      case Error(_, _) => ErrorRoundTrip(t, m);
      case DataMessage(_, _) => DataRoundTrip(t, m);
    }
  }

  /** The document of an event, as the protocol prescribes it. */
  lemma EventDocument(t: Texts, topic: string, e: Event, args: seq<Json>, metadata: seq<Json>)
    requires EncodeSeq(t, e.args) == Ok(args) && EncodeSeq(t, e.metadata) == Ok(metadata)
    ensures EncodeMessage(t, DataMessage(topic, EventData(e))) == Ok(
              JObject([
                Member("type", JString("data-message")),
                Member("topic", JString(topic)),
                Member("@data-type", JString("vector")),
                Member("data", JArray([
                  JObject([Member("@data-type", JString("count")), Member("data", JInt(1))]),
                  JObject([Member("@data-type", JString("count")), Member("data", JInt(1))]),
                  JObject([Member("@data-type", JString("vector")), Member("data", JArray([
                    JObject([Member("@data-type", JString("string")), Member("data", JString(e.name))]),
                    JObject([Member("@data-type", JString("vector")), Member("data", JArray(args))]),
                    JObject([Member("@data-type", JString("vector")), Member("data", JArray(metadata))])]))])]))]))
  {
    var c, n, a, m := Count(1), String(e.name), Vector(e.args), Vector(e.metadata);
    EncodeThree(t, n, a, m);
    var data := Vector([n, a, m]);
    var parts := JArray([EncodeValue(t, n).value, EncodeValue(t, a).value, EncodeValue(t, m).value]);
    assert EncodeValue(t, data) == Ok(Tagged(KVector, parts));
    EncodeThree(t, c, c, data);
    var all := Vector([c, c, data]);
    var content := JArray([EncodeValue(t, c).value, EncodeValue(t, c).value, EncodeValue(t, data).value]);
    assert EncodeValue(t, all) == Ok(Tagged(KVector, content));
    assert [Member("type", JString("data-message")), Member("topic", JString(topic))] + Tagged(KVector, content).members
           == [Member("type", JString("data-message")), Member("topic", JString(topic)),
               Member("@data-type", JString("vector")), Member("data", content)];
  }

  lemma EncodeFirst(t: Texts, x: Value, xs: seq<Value>)
    requires EncodeValue(t, x).Ok? && EncodeSeq(t, xs).Ok?
    ensures EncodeSeq(t, [x] + xs) == Ok([EncodeValue(t, x).value] + EncodeSeq(t, xs).value)
  {
    assert ([x] + xs)[1..] == xs;
  }

  lemma EncodeThree(t: Texts, a: Value, b: Value, c: Value)
    requires EncodeValue(t, a).Ok? && EncodeValue(t, b).Ok? && EncodeValue(t, c).Ok?
    ensures EncodeSeq(t, [a, b, c]) == Ok([EncodeValue(t, a).value, EncodeValue(t, b).value, EncodeValue(t, c).value])
  {
    var ja, jb, jc := EncodeValue(t, a).value, EncodeValue(t, b).value, EncodeValue(t, c).value;
    EncodeFirst(t, c, []);
    assert [c] + [] == [c] && EncodeSeq(t, []).value == [] && [jc] + [] == [jc];
    EncodeFirst(t, b, [c]);
    assert [b] + [c] == [b, c] && [jb] + [jc] == [jb, jc];
    EncodeFirst(t, a, [b, c]);
    assert [a] + [b, c] == [a, b, c] && [ja] + [jb, jc] == [ja, jb, jc];
  }

  lemma TypeOfThree(m: Member, fs: seq<Member>, names: set<string>)
    requires m.name == "type" && "type" !in names && |fs| == 2 && forall f | f in fs :: f.name in names
    ensures Named([m, fs[0], fs[1]], {"type"}) == [m] && Named([m, fs[0], fs[1]], names) == fs
  {
    assert [m, fs[0], fs[1]] == [m] + fs;
    NamedAppend([m], fs, {"type"});
    NamedAppend([m], fs, names);
    NamedAll([m], {"type"});
    NamedNone(fs, {"type"});
    NamedNone([m], names);
    NamedAll(fs, names);
    assert [m] + [] == [m] && [] + fs == fs;
  }

  /** A message of two texts. */
  lemma TwoTexts(kind: string, a: string, b: string, alias: string, x: string, y: string)
    requires a != b && a != alias && "type" != a && "type" != b && "type" != alias
    ensures var ms := [Member("type", JString(kind)), Member(a, JString(x)), Member(b, JString(y))];
            && TypeField(ms) == ParseMessageKind(kind)
            && StringFields(ms, a, b, alias) == Ok((x, y))
  {
    var m, fs := Member("type", JString(kind)), [Member(a, JString(x)), Member(b, JString(y))];
    TypeOfThree(m, fs, {a, b, alias});
  }

  lemma AckRoundTrip(t: Texts, m: Message)
    requires m.Ack?
    ensures DecodeMessage(t, EncodeMessage(t, m).value) == Ok(m)
  {
    TwoTexts("ack", "endpoint", "version", "version", m.endpoint, m.version);
  }

  lemma ErrorRoundTrip(t: Texts, m: Message)
    requires m.Error?
    ensures DecodeMessage(t, EncodeMessage(t, m).value) == Ok(m)
  {
    TwoTexts("error", "code", "context", "message", m.code, m.context);
  }

  /** The context of an error is read under its other name as well. */
  lemma ErrorAlias(t: Texts, code: string, context: string)
    ensures DecodeMessage(t, JObject([Member("type", JString("error")), Member("code", JString(code)),
                                      Member("message", JString(context))])) == Ok(Error(code, context))
  {
    TwoTexts("error", "code", "message", "context", code, context);
    assert {"code", "message", "context"} == {"code", "context", "message"};
  }

  lemma DataHeader(topic: string, k: Kind, c: Json)
    ensures var ms := [Member("type", JString("data-message")), Member("topic", JString(topic))] + Tagged(k, c).members;
            && TypeField(ms) == Ok(KDataMessage) && StringField(ms, "topic") == Ok(topic)
            && JObject(Without(ms, {"type", "topic"})) == Tagged(k, c)
  {
    Flattened(JString(topic), JString("data-message"), k, c);
  }

  lemma DecodeData(t: Texts, ms: seq<Member>, topic: string, rest: Json)
    requires TypeField(ms) == Ok(KDataMessage) && StringField(ms, "topic") == Ok(topic)
    requires JObject(Without(ms, {"type", "topic"})) == rest
    ensures DecodeMessage(t, JObject(ms)) ==
            match DecodeValue(t, rest)
            case Ok(v) => Ok(DataMessage(topic, DataOf(v)))
            case Err(e) => Err(e)
  {
  }

  lemma DataRoundTrip(t: Texts, m: Message)
    requires m.DataMessage? && t.Lawful() && ValidMessage(m)
    ensures EncodeMessage(t, m).Ok? <==> EncodableMessage(t, m)
    ensures EncodeMessage(t, m).Ok? && FiniteMessage(m) ==>
              DecodeMessage(t, EncodeMessage(t, m).value) == Ok(NormalisedMessage(m))
    ensures EncodeMessage(t, m).Ok? && !FiniteMessage(m) ==> DecodeMessage(t, EncodeMessage(t, m).value).Err?
  {
    var v := ValueOf(m.data);
    EncodeSucceeds(t, v);
    if Encodable(t, v) {
      var c := EncodedForm(t, v);
      SentForm(t, m, KindOf(v), c);
      DataHeader(m.topic, KindOf(v), c);
      DecodeData(t, EncodeMessage(t, m).value.members, m.topic, Tagged(KindOf(v), c));
      RoundTrip(t, v);
    }
  }

  lemma SentForm(t: Texts, m: Message, k: Kind, c: Json)
    requires m.DataMessage? && EncodeValue(t, ValueOf(m.data)) == Ok(Tagged(k, c))
    ensures EncodeMessage(t, m) ==
            Ok(JObject([Member("type", JString("data-message")), Member("topic", JString(m.topic))]
                       + Tagged(k, c).members))
  {
  }

  /** Flattening is invisible: the data of any object with the members of a message is read as the object
      itself would be, whatever the order of its members and whatever unknown ones it has. */
  lemma FlatteningInvisible(t: Texts, ms: seq<Member>)
    ensures DecodeValue(t, JObject(Without(ms, {"type", "topic"}))) == DecodeValue(t, JObject(ms))
  {
    ChosenWithout(ms, {"type", "topic"});
  }

  lemma ChosenWithout(ms: seq<Member>, names: set<string>)
    requires TAG !in names && CONTENT !in names
    ensures Chosen(Without(ms, names)) == Chosen(ms)
  {
    NamedWithout(ms, names, {TAG, CONTENT});
  }
}
