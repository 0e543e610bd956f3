/** The documents of messages, written out: what is sent, and exactly what is read. */
module MessageDocuments {
  import opened Wrappers
  import opened Values
  import opened Json
  import opened ValueCodec
  import opened Messages

  // ----- What is written -----

  lemma ControlDocuments(t: Texts, endpoint: string, version: string, code: string, context: string)
    ensures EncodeMessage(t, Ack(endpoint, version)) == Ok(JObject([
              Member("type", JString("ack")),
              Member("endpoint", JString(endpoint)),
              Member("version", JString(version))]))
    ensures EncodeMessage(t, Error(code, context)) == Ok(JObject([
              Member("type", JString("error")),
              Member("code", JString(code)),
              Member("context", JString(context))]))
  {
  }

  // ----- What is read -----

  /** One of the names occurs, once, with this text. */
  predicate OneText(ms: seq<Member>, names: set<string>, s: string) {
    |Named(ms, names)| == 1 && Named(ms, names)[0].value == JString(s)
  }

  lemma FieldRead(ms: seq<Member>, name: string, s: string)
    ensures StringField(ms, name) == Ok(s) <==> OneText(ms, {name}, s)
  {
  }

  lemma TypeRead(ms: seq<Member>)
    ensures TypeField(ms) == Ok(KAck) <==> OneText(ms, {"type"}, "ack")
    ensures TypeField(ms) == Ok(KError) <==> OneText(ms, {"type"}, "error")
    ensures TypeField(ms) == Ok(KDataMessage) <==> OneText(ms, {"type"}, "data-message")
  {
  }

  lemma PairRead(ms: seq<Member>, first: string, second: string, alias: string, x: string, y: string)
    ensures var fs := Named(ms, {first, second, alias});
            StringFields(ms, first, second, alias) == Ok((x, y)) <==>
            && |fs| == 2
            && (fs[0].name == first <==> fs[1].name != first)
            && fs[0].value == JString(if fs[0].name == first then x else y)
            && fs[1].value == JString(if fs[0].name == first then y else x)
  {
  }

  lemma FieldsRead(ms: seq<Member>, first: string, second: string, alias: string, x: string, y: string)
    requires first != second && first != alias
    ensures StringFields(ms, first, second, alias) == Ok((x, y)) <==>
            OneText(ms, {first}, x) && OneText(ms, {second, alias}, y)
  {
    PairRead(ms, first, second, alias, x, y);
    var a, b := {first}, {second, alias};
    assert {first, second, alias} == a + b;
    OnePair(ms, a, b, x, y);
    var fs := Named(ms, a + b);
    assert forall f | f in fs :: f.name in a <==> f.name == first;
    assert |fs| == 2 ==> fs[0] in fs && fs[1] in fs;
  }

  lemma OnePair(ms: seq<Member>, a: set<string>, b: set<string>, x: string, y: string)
    requires a !! b
    ensures var fs := Named(ms, a + b);
            OneText(ms, a, x) && OneText(ms, b, y) <==>
            && |fs| == 2
            && (fs[0].name in a <==> fs[1].name !in a)
            && fs[0].value == JString(if fs[0].name in a then x else y)
            && fs[1].value == JString(if fs[0].name in a then y else x)
  {
    NamedOnce(ms, a, b);
    var fs := Named(ms, a + b);
    if |fs| == 2 { assert fs[0] in fs && fs[1] in fs; }
  }

  /** In any order and with any other members, exactly these objects are acknowledgements. */
  lemma AckRead(t: Texts, ms: seq<Member>, endpoint: string, version: string)
    ensures DecodeMessage(t, JObject(ms)) == Ok(Ack(endpoint, version)) <==>
            && OneText(ms, {"type"}, "ack")
            && OneText(ms, {"endpoint"}, endpoint)
            && OneText(ms, {"version"}, version)
  {
    TypeRead(ms);
    FieldsRead(ms, "endpoint", "version", "version", endpoint, version);
    assert {"version", "version"} == {"version"};
  }

  /** Exactly these are errors: the context has two names, of which one occurs. */
  lemma ErrorRead(t: Texts, ms: seq<Member>, code: string, context: string)
    ensures DecodeMessage(t, JObject(ms)) == Ok(Error(code, context)) <==>
            && OneText(ms, {"type"}, "error")
            && OneText(ms, {"code"}, code)
            && OneText(ms, {"context", "message"}, context)
  {
    TypeRead(ms);
    FieldsRead(ms, "code", "context", "message", code, context);
  }

  lemma DataKind(t: Texts, ms: seq<Member>, topic: string, data: Data)
    requires TypeField(ms) == Ok(KDataMessage)
    ensures DecodeMessage(t, JObject(ms)) == Ok(DataMessage(topic, data)) <==>
            var v := DecodeValue(t, JObject(Without(ms, {"type", "topic"})));
            StringField(ms, "topic") == Ok(topic) && v.Ok? && data == DataOf(v.value)
  {
  }

  lemma OtherKind(t: Texts, ms: seq<Member>, topic: string, data: Data)
    requires TypeField(ms) != Ok(KDataMessage)
    ensures DecodeMessage(t, JObject(ms)) != Ok(DataMessage(topic, data))
  {
  }

  /** Exactly these are data messages: the object is itself the document of a value. */
  lemma DataRead(t: Texts, ms: seq<Member>, topic: string, data: Data)
    ensures DecodeMessage(t, JObject(ms)) == Ok(DataMessage(topic, data)) <==>
            var v := DecodeValue(t, JObject(ms));
            && OneText(ms, {"type"}, "data-message")
            && OneText(ms, {"topic"}, topic)
            && v.Ok? && data == DataOf(v.value)
  {
    TypeRead(ms);
    FieldRead(ms, "topic", topic);
    FlatteningInvisible(t, ms);
    if TypeField(ms) == Ok(KDataMessage) {
      DataKind(t, ms, topic, data);
    } else {
      OtherKind(t, ms, topic, data);
    }
  }

  // ----- What is refused -----

  /** The type is read first, and must be one of three texts. */
  lemma TypeRefused(t: Texts, j: Json, kind: string, m: Member, ms: seq<Member>)
    requires Named(ms, {"type"}) == [] && m.name == "type"
    ensures !j.JObject? ==> DecodeMessage(t, j) == Err(WrongType)
    ensures DecodeMessage(t, JObject(ms)) == Err(BadField(MissingField("type")))
    ensures !m.value.JString? ==> DecodeMessage(t, JObject([m] + ms)) == Err(WrongType)
    ensures kind != "ack" && kind != "error" && kind != "data-message" && m.value == JString(kind) ==>
              DecodeMessage(t, JObject([m] + ms)) == Err(UnknownVariant(kind))
  {
    NamedAppend([m], ms, {"type"});
    NamedAll([m], {"type"});
    assert [m] + [] == [m];
  }

  /** A second type is noticed once the first has been read, and so is a second topic. */
  lemma Repeated(t: Texts, ms: seq<Member>, more: seq<Member>, m: Member, kind: string, topic: string)
    requires m.name == "type" && (kind == "ack" || kind == "error" || kind == "data-message")
    ensures DecodeMessage(t, JObject([Member("type", JString(kind)), m] + ms)) == Err(BadField(DuplicateField("type")))
    ensures var fs := [Member("topic", JString(topic)), Member("topic", m.value)];
            StringField(fs + more, "topic") == Err(BadField(DuplicateField("topic")))
  {
    var types := [Member("type", JString(kind)), m];
    var topics := [Member("topic", JString(topic)), Member("topic", m.value)];
    NamedAppend(types, ms, {"type"});
    NamedAll(types, {"type"});
    NamedAppend(topics, more, {"topic"});
    NamedAll(topics, {"topic"});
  }

  /** Two texts are read in the order in which they come: what is missing is named. */
  lemma TextMissing(first: string, second: string, alias: string, x: string)
    requires first != second && first != alias
    ensures StringFields([], first, second, alias) == Err(BadField(MissingField(first)))
    ensures StringFields([Member(first, JString(x))], first, second, alias) == Err(BadField(MissingField(second)))
    ensures StringFields([Member(second, JString(x))], first, second, alias) == Err(BadField(MissingField(first)))
    ensures StringFields([Member(alias, JString(x))], first, second, alias) == Err(BadField(MissingField(first)))
  {
    var names := {first, second, alias};
    NamedAll([], names);
    NamedAll([Member(first, JString(x))], names);
    NamedAll([Member(second, JString(x))], names);
    NamedAll([Member(alias, JString(x))], names);
  }

  /** What is repeated is named, under its first name, before it is looked at. */
  lemma TextRepeated(first: string, second: string, alias: string, x: string, y: Json)
    requires first != second && first != alias
    ensures StringFields([Member(first, JString(x)), Member(first, y)], first, second, alias)
            == Err(BadField(DuplicateField(first)))
    ensures StringFields([Member(second, JString(x)), Member(alias, y)], first, second, alias)
            == Err(BadField(DuplicateField(second)))
  {
    var names := {first, second, alias};
    NamedAll([Member(first, JString(x)), Member(first, y)], names);
    NamedAll([Member(second, JString(x)), Member(alias, y)], names);
  }

  lemma TextThird(first: string, second: string, alias: string, x: string, y: string, z: Member)
    requires first != second && first != alias && z.name in {first, second, alias}
    ensures StringFields([Member(first, JString(x)), Member(second, JString(y)), z], first, second, alias)
            == Err(BadField(DuplicateField(if z.name == first then first else second)))
  {
    var fs := [Member(first, JString(x)), Member(second, JString(y)), z];
    NamedAll(fs, {first, second, alias});
  }

  lemma TextMistyped(first: string, second: string, alias: string, x: Json, y: Json)
    requires first != second && first != alias && !(x.JString? && y.JString?)
    ensures StringFields([Member(first, x), Member(second, y)], first, second, alias) == Err(WrongType)
    ensures StringFields([Member(alias, x), Member(first, y)], first, second, alias) == Err(WrongType)
  {
    var names := {first, second, alias};
    NamedAll([Member(first, x), Member(second, y)], names);
    NamedAll([Member(alias, x), Member(first, y)], names);
  }
}
