/** What the service does about each frame and each end of the stream, written out. */
module Reactions {
  import opened Wrappers
  import opened Values
  import opened Messages
  import opened Protocol
  import opened ValueCodec
  import opened ServiceRuns

  /** The state with one more frame read. */
  function Consumed(s: Running, f: Frame): Running {
    s.(consumed := s.consumed + [f])
  }

  /** A ping is skipped in the handshake and in the main loop. */
  lemma PingSkipped(c: Config, s: Running)
    requires s.pc.Handshake? || s.pc.Loop?
    ensures Step(c, s, Next(Arrived(Ping))) == s.(consumed := s.consumed + [Ping])
  {
  }

  /** In the handshake whatever is not a message ends the service. */
  lemma HandshakeErrors(c: Config, s: Running, e: DecodeError)
    requires s.pc.Handshake?
    ensures Step(c, s, Next(Arrived(OtherFrame)))
            == Consumed(s, OtherFrame).(pc := Done(ProtocolFailure(DeserializationError(UnexpectedMessageType))))
    ensures e != Abort ==>
              Step(c, s, Next(Arrived(Payload(Err(e)))))
              == Consumed(s, Payload(Err(e))).(pc := Done(ProtocolFailure(DeserializationError(BadJson))))
    ensures Step(c, s, Next(Arrived(Payload(Err(Abort))))) == Consumed(s, Payload(Err(Abort))).(pc := Done(Panicked))
  {
  }

  /** Of the messages only the acknowledgement opens the main loop. */
  lemma HandshakeMessages(c: Config, s: Running, endpoint: string, version: string, m: Message)
    requires s.pc.Handshake? && !m.Ack?
    ensures var f := Payload(Ok(Ack(endpoint, version)));
            Step(c, s, Next(Arrived(f)))
            == Consumed(s, f).(callbacks := s.callbacks + [Connected(endpoint, version)], pc := Loop)
    ensures Step(c, s, Next(Arrived(Payload(Ok(m))))) == Consumed(s, Payload(Ok(m))).(pc := Done(TransportError))
  {
  }

  /** In the main loop the client is told about whatever is not a message, and the loop goes on. */
  lemma LoopErrors(c: Config, s: Running, e: DecodeError)
    requires s.pc.Loop?
    ensures Step(c, s, Next(Arrived(OtherFrame)))
            == Consumed(s, OtherFrame).(
                 callbacks := s.callbacks + [OnError(DeserializationError(UnexpectedMessageType))])
    ensures e != Abort ==>
              Step(c, s, Next(Arrived(Payload(Err(e)))))
              == Consumed(s, Payload(Err(e))).(callbacks := s.callbacks + [OnError(DeserializationError(BadJson))])
    ensures Step(c, s, Next(Arrived(Payload(Err(Abort))))) == Consumed(s, Payload(Err(Abort))).(pc := Done(Panicked))
  {
  }

  /** A data message that holds no event ends the service, and names what it holds. */
  lemma LoopRefuses(c: Config, s: Running, topic: string, v: Value)
    requires s.pc.Loop?
    ensures var f := Payload(Ok(DataMessage(topic, Other(v))));
            Step(c, s, Next(Arrived(f))) == Consumed(s, f).(pc := Done(ProtocolFailure(UnexpectedEventPayload(v))))
  {
  }

  /** An acknowledgement in the main loop is absorbed once and then ends the service. */
  lemma LoopAck(c: Config, s: Running, endpoint: string, version: string)
    requires s.pc.Loop? && s.binding.inbox == []
    ensures var f := Payload(Ok(Ack(endpoint, version)));
            Step(c, s, Next(Arrived(f)))
            == if s.binding.state.Subscribing? then Consumed(s, f).(binding := s.binding.(state := Subscribed))
               else Consumed(s, f).(pc := Done(ProtocolFailure(AlreadySubscribed)))
  {
    var f := Payload(Ok(Ack(endpoint, version)));
    assert Consumed(s, f).pc == Loop;
  }

  /** Events and errors are passed on: the message is queued, and the callback takes it off again. */
  lemma LoopDelivers(c: Config, s: Running, m: Message, made: Callback)
    requires s.pc.Loop? && s.binding.inbox == []
    requires match m
             case DataMessage(topic, EventData(event)) => made == OnEvent(topic, event)
             case Error(code, context) => made == OnError(ZeekError(code, context))
             case _ => false
    ensures var f := Payload(Ok(m));
            var d := Step(c, s, Next(Arrived(f)));
            && d == Consumed(s, f).(binding := s.binding.(inbox := [m]), pc := Delivering)
            && Enabled(c, d, Deliver)
            && Step(c, d, Deliver) == Consumed(s, f).(callbacks := s.callbacks + [made])
  {
    assert [] + [m] == [m] && [m][1..] == [];
  }

  /** The end of the stream ends the service without an error, and a broken stream with one. */
  lemma StreamEnds(c: Config, s: Running)
    requires s.pc.Handshake? || s.pc.Loop?
    ensures Step(c, s, Next(End)) == s.(pc := Done(Finished))
    ensures Step(c, s, Next(Broken)) == s.(pc := Done(TransportError))
  {
  }

  /** A document is sent from the head of the outbox; a send that fails ends the service with an error. */
  lemma Sending(c: Config, s: Running, p: Protocol.Payload, rest: seq<Protocol.Payload>)
    requires (s.pc.Opening? || s.pc.Publishing?) && s.binding.outbox == [p] + rest
    ensures var b := s.binding.(outbox := rest);
            && Step(c, s, Flushed(false)) == s.(binding := b, pc := Done(TransportError))
            && Step(c, s, Flushed(true))
               == s.(binding := b, sent := s.sent + [Document(p)],
                     pc := if rest != [] then s.pc else if s.pc.Opening? then Handshake else Loop)
  {
    assert s.binding.outbox[1..] == rest;
  }

  /** Once all handles are dropped and the channel is empty, a Close frame is sent and the service ends. */
  lemma Closes(c: Config, s: Running)
    requires s.pc.Loop? && s.channel == [] && !s.open
    ensures Step(c, s, Recv) == s.(pc := Closing)
    ensures Step(c, s.(pc := Closing), Flushed(true)) == s.(sent := s.sent + [CloseFrame], pc := Done(Finished))
    ensures Step(c, s.(pc := Closing), Flushed(false)) == s.(pc := Done(TransportError))
  {
  }

  /** The oldest event leaves the channel; it is queued for sending unless it has no document. */
  lemma Publishes(c: Config, s: Running, p: Publication, rest: seq<Publication>)
    requires s.pc.Loop? && s.binding.outbox == [] && s.channel == [p] + rest
    ensures var m := DataMessage(p.topic, EventData(p.event));
            var t := s.(channel := rest, taken := s.taken + [p]);
            Step(c, s, Recv)
            == if EncodeMessage(c.texts, m).Ok? then
                 t.(binding := s.binding.(outbox := [Protocol.Publish(m)]), pc := Publishing)
               else t.(pc := Done(Panicked))
  {
    EncodeSucceeds(c.texts, ValueOf(EventData(p.event)));
    assert s.channel[1..] == rest;
    assert [] + [EventPayload(p.topic, p.event)] == [EventPayload(p.topic, p.event)];
  }

  // ----- Runs -----

  /** Whatever has happened, a service that has not ended can go on, clients can publish while there is
      room and hang up at any time, and the main loop listens to both sides. */
  lemma NeverStuck(c: Config, run: seq<Label>, s: Running, p: Publication, item: StreamItem)
    requires Exec(c, run) == Some(s)
    ensures s.pc.Opening? || s.pc.Publishing? || s.pc.Closing? ==>
              Enabled(c, s, Flushed(true)) && Enabled(c, s, Flushed(false))
    ensures s.pc.Handshake? || s.pc.Loop? ==> Enabled(c, s, Next(item))
    ensures s.pc.Loop? ==> (Enabled(c, s, Recv) <==> s.channel != [] || !s.open)
    ensures s.pc.Delivering? ==> Enabled(c, s, Deliver)
    ensures s.open ==> Enabled(c, s, Hangup) && (!s.pc.Done? && |s.channel| < c.capacity ==> Enabled(c, s, Accept(p)))
  {
    RunInv(c, run);
  }

  /** Publishing and hanging up touch only the channel. */
  lemma ClientsMove(c: Config, s: Running, p: Publication)
    ensures Enabled(c, s, Accept(p)) ==>
              Step(c, s, Accept(p)) == s.(channel := s.channel + [p], accepted := s.accepted + [p])
    ensures Enabled(c, s, Hangup) ==> Step(c, s, Hangup) == s.(open := false)
  {
  }

  function WithoutPings(frames: seq<Frame>): seq<Frame> {
    if frames == [] then []
    else WithoutPings(frames[..|frames| - 1]) + if frames[|frames| - 1].Ping? then [] else [frames[|frames| - 1]]
  }

  lemma PingReaction(ph: Phase)
    ensures React(ph, Ping) == (ph, [])
  {
  }

  lemma WithoutLast(init: seq<Frame>, f: Frame)
    ensures WithoutPings(init + [f]) == WithoutPings(init) + if f.Ping? then [] else [f]
  {
    assert (init + [f])[..|init + [f]| - 1] == init;
  }

  lemma {:induction false} PingsInvisible(frames: seq<Frame>)
    ensures PhaseAfter(frames) == PhaseAfter(WithoutPings(frames))
    ensures CallbacksFor(frames) == CallbacksFor(WithoutPings(frames))
  {
    if frames == [] {
    } else {
      var init, f := frames[..|frames| - 1], frames[|frames| - 1];
      assert frames == init + [f];
      PingsInvisible(init);
      FrameStep(init, f);
      WithoutLast(init, f);
      if f.Ping? {
        PingReaction(PhaseAfter(init));
        assert WithoutPings(frames) == WithoutPings(init);
      } else {
        FrameStep(WithoutPings(init), f);
      }
    }
  }

  /** Two runs that differ in pings only make the same callbacks, whatever else differs. */
  lemma PingsDoNotMatter(c: Config, run: seq<Label>, s: Running, d: Config, other: seq<Label>, t: Running)
    requires Exec(c, run) == Some(s) && Exec(d, other) == Some(t)
    requires WithoutPings(s.consumed) == WithoutPings(t.consumed)
    requires !s.pc.Delivering? && !t.pc.Delivering?
    ensures s.callbacks == t.callbacks
  {
    CallbacksDetermined(c, run, s);
    CallbacksDetermined(d, other, t);
    PingsInvisible(s.consumed);
    PingsInvisible(t.consumed);
  }
}
