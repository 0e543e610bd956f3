/** What the peer of a service reads from the documents it is sent. */
module EndToEnd {
  import opened Wrappers
  import opened Json
  import opened Values
  import opened Messages
  import opened ValueCodec
  import opened Protocol
  import opened Reactions
  import opened ServiceRuns

  /** The document behind a payload. */
  function Serialized(t: Texts, p: Protocol.Payload): Result<Json, EncodeError> {
    match p
    case Subscribe(topics) => Ok(JArray(seq(|topics|, i requires 0 <= i < |topics| => JString(topics[i]))))
    case Publish(m) => EncodeMessage(t, m)
  }

  /** The subscription is an array of its topics, in their order. */
  lemma SubscriptionDocument(t: Texts, topics: seq<string>)
    ensures var r := Serialized(t, Subscribe(topics));
            && r.Ok? && r.value.JArray? && |r.value.items| == |topics|
            && forall i | 0 <= i < |topics| :: r.value.items[i] == JString(topics[i])
  {
  }

  /** The events that survive serialization and parsing: canonical, with finite reals. */
  predicate Faithful(p: Publication) {
    var m := DataMessage(p.topic, EventData(p.event));
    ValidMessage(m) && FiniteMessage(m)
  }

  lemma FaithfulRead(t: Texts, p: Publication)
    requires t.Lawful() && Faithful(p) && EncodablePayload(t, EventPayload(p.topic, p.event))
    ensures Serialized(t, EventPayload(p.topic, p.event)).Ok?
    ensures DecodeMessage(t, Serialized(t, EventPayload(p.topic, p.event)).value)
            == Ok(DataMessage(p.topic, EventData(p.event)))
  {
    var m := DataMessage(p.topic, EventData(p.event));
    MessageRoundTrip(t, m);
    NormalisedFixes(m.data);
  }

  /** In every run, the documents sent after the subscription serialize, and the peer reads from them
      exactly the accepted events, in order, up to what is still under way. */
  lemma PeerReadsEvents(c: Config, run: seq<Label>, s: Running)
    requires c.texts.Lawful() && Exec(c, run) == Some(s)
    requires forall p | p in s.accepted :: Faithful(p)
    ensures forall i | 1 <= i < |s.sent| && s.sent[i].Document? ::
              && i - 1 < |s.accepted|
              && Serialized(c.texts, s.sent[i].payload).Ok?
              && DecodeMessage(c.texts, Serialized(c.texts, s.sent[i].payload).value)
                 == Ok(DataMessage(s.accepted[i - 1].topic, EventData(s.accepted[i - 1].event)))
  {
    RunInv(c, run);
    FramesSent(c, run, s);
    forall i | 1 <= i < |s.sent| && s.sent[i].Document?
      ensures i - 1 < |s.accepted|
      ensures Serialized(c.texts, s.sent[i].payload).Ok?
      ensures DecodeMessage(c.texts, Serialized(c.texts, s.sent[i].payload).value)
              == Ok(DataMessage(s.accepted[i - 1].topic, EventData(s.accepted[i - 1].event)))
    {
      SentDocument(c, s, i);
      FaithfulRead(c.texts, s.accepted[i - 1]);
    }
  }

  lemma SentDocument(c: Config, s: Running, i: nat)
    requires s.sent <= Documents(c, s.accepted) + [CloseFrame] && EncodingInv(c, s)
    requires 1 <= i < |s.sent| && s.sent[i].Document?
    ensures i - 1 < |s.accepted|
    ensures s.sent[i].payload == EventPayload(s.accepted[i - 1].topic, s.accepted[i - 1].event)
    ensures EncodablePayload(c.texts, s.sent[i].payload)
  {
    var all := Documents(c, s.accepted) + [CloseFrame];
    assert s.sent[i] == all[i] && s.sent[i] in s.sent;
  }

  /** Publishing an event with an unprintable timespan ends the service: the conversion that the program
      expects never to fail does fail, for every duration with a sub-second part whose nanoseconds
      leave the range of `i64`. */
  lemma PublishPanics(c: Config, s: Running)
    requires Enabled(c, s, Recv) && s.channel != []
    ensures Step(c, s, Recv).pc == Done(Panicked) <==>
            Serialized(c.texts, EventPayload(s.channel[0].topic, s.channel[0].event)).Err?
  {
    EncodeSucceeds(c.texts, ValueOf(EventData(s.channel[0].event)));
  }

  /** An incoming text or binary frame; `None` is one that holds no JSON document. */
  function FrameOf(t: Texts, document: Option<Json>): Frame {
    match document
    case None => Payload(Err(WrongType))
    case Some(j) => Payload(DecodeMessage(t, j))
  }

  /** Text that is no document, and a document that is no message, are told to the client by the loop. */
  lemma UnreadableFrame(c: Config, s: Running, document: Option<Json>)
    requires s.pc.Loop?
    requires match document
             case None => true
             case Some(j) => DecodeMessage(c.texts, j).Err? && DecodeMessage(c.texts, j) != Err(Abort)
    ensures var f := FrameOf(c.texts, document);
            Step(c, s, Next(Arrived(f)))
            == s.(consumed := s.consumed + [f], callbacks := s.callbacks + [OnError(DeserializationError(BadJson))])
  {
    LoopErrors(c, s, if document.None? then WrongType else DecodeMessage(c.texts, document.value).error);
  }

  /** An event that a peer serializes reaches the client unchanged, in two steps of the main loop. */
  lemma EventReachesClient(c: Config, run: seq<Label>, s: Running, p: Publication, j: Json)
    requires c.texts.Lawful() && Exec(c, run) == Some(s) && s.pc.Loop?
    requires Faithful(p) && Serialized(c.texts, EventPayload(p.topic, p.event)) == Ok(j)
    ensures var d := Step(c, s, Next(Arrived(FrameOf(c.texts, Some(j)))));
            && d.pc.Delivering? && Enabled(c, d, Deliver)
            && Step(c, d, Deliver).callbacks == s.callbacks + [OnEvent(p.topic, p.event)]
            && Step(c, d, Deliver).pc.Loop? && Step(c, d, Deliver).sent == s.sent
  {
    EncodeSucceeds(c.texts, ValueOf(EventData(p.event)));
    FaithfulRead(c.texts, p);
    LoopHead(c, run, s);
    EventDelivered(c, s, p.topic, p.event);
  }

  /** Such an event exists. */
  lemma UnprintableEvent(t: Texts, topic: string)
    ensures var d: RawDuration := RawDuration.Duration(3_144_960_000_000_000, 1);
            d.Normal() && Serialized(t, EventPayload(topic, Event("e", [Timespan(d)], []))).Err?
  {
    var d: Duration := RawDuration.Duration(3_144_960_000_000_000, 1);
    var e := Event("e", [Timespan(d)], []);
    EncodeSucceeds(t, ValueOf(EventData(e)));
    assert !Encodable(t, Timespan(d)) && Timespan(d) in e.args;
    assert !Encodable(t, Vector(e.args));
    var data := [String(e.name), Vector(e.args), Vector(e.metadata)];
    assert Vector(e.args) in data;
    assert !Encodable(t, Vector(data));
    assert Vector(data) in ValueOf(EventData(e)).xs;
  }

  /** Publishing it after a successful handshake ends the service with a panic. */
  lemma PanickingRun(c: Config, endpoint: string, version: string, topic: string)
    requires c.capacity > 0
    ensures var d: RawDuration := RawDuration.Duration(3_144_960_000_000_000, 1);
            var p := Publication(topic, Event("e", [Timespan(d)], []));
            var run := [Flushed(true), Next(Arrived(Payload(Ok(Ack(endpoint, version))))), Accept(p), Recv];
            Exec(c, run).Some? && Exec(c, run).value.pc == Done(Panicked)
  {
    var d: Duration := RawDuration.Duration(3_144_960_000_000_000, 1);
    var p := Publication(topic, Event("e", [Timespan(d)], []));
    UnprintableEvent(c.texts, topic);
    RunToLoop(c, endpoint, version);
    var run := [Flushed(true), Next(Arrived(Payload(Ok(Ack(endpoint, version)))))];
    var s := Exec(c, run).value;
    ExecOne(c, run, s, Accept(p));
    var t := Step(c, s, Accept(p));
    PublishPanics(c, t);
    ExecOne(c, run + [Accept(p)], t, Recv);
    assert run + [Accept(p)] + [Recv]
           == [Flushed(true), Next(Arrived(Payload(Ok(Ack(endpoint, version))))), Accept(p), Recv];
  }

  lemma RunToLoop(c: Config, endpoint: string, version: string)
    ensures var run := [Flushed(true), Next(Arrived(Payload(Ok(Ack(endpoint, version)))))];
            && Exec(c, run).Some? && Exec(c, run).value.pc.Loop?
            && Exec(c, run).value.open && Exec(c, run).value.channel == []
  {
    var s := Start(c);
    ExecOne(c, [], s, Flushed(true));
    var t := Step(c, s, Flushed(true));
    var l := Next(Arrived(Payload(Ok(Ack(endpoint, version)))));
    assert [] + [Flushed(true)] == [Flushed(true)];
    ExecOne(c, [Flushed(true)], t, l);
    assert [Flushed(true)] + [l] == [Flushed(true), l];
  }
}
