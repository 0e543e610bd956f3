/** The service loop as a state machine over the interleavings of its environment. */
module ServiceRuns {
  import opened Wrappers
  import opened Messages
  import opened Protocol
  import opened ValueCodec

  // ----- The environment -----

  /** An incoming WebSocket frame; text and binary frames carry the result of reading a message. */
  datatype Frame = Ping | Payload(read: Result<Message, DecodeError>) | OtherFrame

  datatype Reading = IsPing | IsMessage(message: Message) | IsError(cause: FrameError) | Aborts

  function Read(f: Frame): Reading {
    match f
    case Ping => IsPing
    case Payload(Ok(m)) => IsMessage(m)
    case Payload(Err(Abort)) => Aborts
    case Payload(Err(_)) => IsError(BadJson)
    case OtherFrame => IsError(UnexpectedMessageType)
  }

  datatype StreamItem = End | Broken | Arrived(frame: Frame)

  datatype Publication = Publication(topic: string, event: Event)

  datatype Out = Document(payload: Protocol.Payload) | CloseFrame

  datatype Callback =
    | Connected(endpoint: string, version: string)
    | OnEvent(topic: string, event: Event)
    | OnError(error: ProtocolError)

  /** How `serve` ends; `Panicked` is the abort of the service by a failed conversion. */
  datatype Outcome = Finished | TransportError | ProtocolFailure(error: ProtocolError) | Panicked

  /** What happens next: a client publishes or drops its last handle, a send completes, a `select!`
      branch becomes ready, or a callback is made. */
  datatype Label =
    | Accept(publication: Publication)
    | Hangup
    | Flushed(ok: bool)
    | Recv
    | Next(item: StreamItem)
    | Deliver

  // ----- The state machine -----

  datatype Pc = Opening | Handshake | Loop | Publishing | Delivering | Closing | Done(outcome: Outcome)

  /** The text forms outside the library, the subscription and the capacity of the channel. */
  datatype Config = Config(texts: Texts, topics: seq<string>, capacity: nat)

  /** The state of a running service, with everything accepted, taken, sent, read and called back. */
  datatype Running = Running(
    pc: Pc,
    binding: BindingState,
    channel: seq<Publication>,
    open: bool,
    accepted: seq<Publication>,
    taken: seq<Publication>,
    sent: seq<Out>,
    consumed: seq<Frame>,
    callbacks: seq<Callback>)

  function Start(c: Config): Running {
    Running(Opening, NewBinding(c.topics), [], true, [], [], [], [], [])
  }

  predicate Enabled(c: Config, s: Running, l: Label) {
    match l
    case Accept(_) => !s.pc.Done? && s.open && |s.channel| < c.capacity
    case Hangup => s.open
    case Flushed(_) =>
      (s.pc.Opening? || s.pc.Publishing? || s.pc.Closing?) && (!s.pc.Closing? ==> s.binding.outbox != [])
    case Recv => s.pc.Loop? && (s.channel != [] || !s.open)
    case Next(_) => s.pc.Handshake? || s.pc.Loop?
    case Deliver => s.pc.Delivering? && s.binding.inbox != []
  }

  function CallbackOf(r: Received): seq<Callback> {
    match r
    case Got(topic, event) => [OnEvent(topic, event)]
    case Failed(e) => [OnError(e)]
    case _ => []
  }

  function Flush(s: Running, ok: bool): Running
    requires s.binding.outbox != []
  {
    var (b, x) := s.binding.Outgoing();
    if !ok then s.(binding := b, pc := Done(TransportError))
    else
      s.(binding := b, sent := s.sent + [Document(x.value)],
         pc := if b.outbox != [] then s.pc else if s.pc.Opening? then Handshake else Loop)
  }

  /** The publish branch of the `select!`. */
  function Publish(c: Config, s: Running): Running {
    if s.channel == [] then s.(pc := Closing)
    else
      var p := s.channel[0];
      var t := s.(channel := s.channel[1..], taken := s.taken + [p]);
      if !EncodableMessage(c.texts, DataMessage(p.topic, EventData(p.event))) then t.(pc := Done(Panicked))
      else t.(binding := s.binding.PublishEvent(p.topic, p.event), pc := Publishing)
  }

  function Shake(s: Running, f: Frame): Running {
    match Read(f)
    case IsPing => s
    case Aborts => s.(pc := Done(Panicked))
    case IsError(e) => s.(pc := Done(ProtocolFailure(DeserializationError(e))))
    case IsMessage(Ack(endpoint, version)) => s.(callbacks := s.callbacks + [Connected(endpoint, version)], pc := Loop)
    case IsMessage(_) => s.(pc := Done(TransportError))
  }

  /** The stream branch of the `select!`. */
  function Receive(s: Running, f: Frame): Running {
    match Read(f)
    case IsPing => s
    case Aborts => s.(pc := Done(Panicked))
    case IsError(e) => s.(callbacks := s.callbacks + [OnError(DeserializationError(e))])
    case IsMessage(m) =>
      var (b, e) := s.binding.HandleIncoming(m);
      if e.Some? then s.(pc := Done(ProtocolFailure(e.value)))
      else s.(binding := b, pc := if b.inbox == [] then Loop else Delivering)
  }

  function Step(c: Config, s: Running, l: Label): Running
    requires Enabled(c, s, l)
  {
    match l
    case Accept(p) => s.(channel := s.channel + [p], accepted := s.accepted + [p])
    case Hangup => s.(open := false)
    case Flushed(ok) =>
      if !s.pc.Closing? then Flush(s, ok)
      else if ok then s.(sent := s.sent + [CloseFrame], pc := Done(Finished))
      else s.(pc := Done(TransportError))
    case Recv => Publish(c, s)
    case Next(End) => s.(pc := Done(Finished))
    case Next(Broken) => s.(pc := Done(TransportError))
    case Next(Arrived(f)) =>
      var t := s.(consumed := s.consumed + [f]);
      if s.pc.Handshake? then Shake(t, f) else Receive(t, f)
    case Deliver =>
      var (b, r) := s.binding.ReceiveEvent();
      s.(binding := b, callbacks := s.callbacks + CallbackOf(r), pc := if b.inbox == [] then Loop else Delivering)
  }

  /** The state after a run, if each of its labels was enabled. */
  function Exec(c: Config, run: seq<Label>): Option<Running> {
    if run == [] then Some(Start(c))
    else
      match Exec(c, run[..|run| - 1])
      case None => Option.None
      case Some(s) =>
        if Enabled(c, s, run[|run| - 1]) then Some(Step(c, s, run[|run| - 1])) else Option.None
  }

  // ----- What the incoming frames alone determine -----

  datatype Phase = Waiting | Serving(absorbed: bool) | Stopped(outcome: Outcome)

  /** The reaction to one frame: the next phase and the callbacks made for it. */
  function React(ph: Phase, f: Frame): (Phase, seq<Callback>) {
    match (ph, Read(f))
    case (Stopped(_), _) => (ph, [])
    case (_, IsPing) => (ph, [])
    case (_, Aborts) => (Stopped(Panicked), [])
    case (Waiting, IsError(e)) => (Stopped(ProtocolFailure(DeserializationError(e))), [])
    case (Waiting, IsMessage(Ack(endpoint, version))) => (Serving(false), [Connected(endpoint, version)])
    case (Waiting, IsMessage(_)) => (Stopped(TransportError), [])
    case (Serving(_), IsError(e)) => (ph, [OnError(DeserializationError(e))])
    case (Serving(absorbed), IsMessage(Ack(_, _))) =>
      (if absorbed then Stopped(ProtocolFailure(AlreadySubscribed)) else Serving(true), [])
    case (Serving(_), IsMessage(Error(code, context))) => (ph, [OnError(ZeekError(code, context))])
    case (Serving(_), IsMessage(DataMessage(topic, EventData(event)))) => (ph, [OnEvent(topic, event)])
    case (Serving(_), IsMessage(DataMessage(_, Other(v)))) => (Stopped(ProtocolFailure(UnexpectedEventPayload(v))), [])
  }

  function PhaseAfter(frames: seq<Frame>): Phase {
    if frames == [] then Waiting else React(PhaseAfter(frames[..|frames| - 1]), frames[|frames| - 1]).0
  }

  function CallbacksFor(frames: seq<Frame>): seq<Callback> {
    if frames == [] then []
    else
      CallbacksFor(frames[..|frames| - 1]) + React(PhaseAfter(frames[..|frames| - 1]), frames[|frames| - 1]).1
  }

  predicate IsAck(f: Frame) {
    f.Payload? && f.read.Ok? && f.read.value.Ack?
  }

  function AckCount(frames: seq<Frame>): nat {
    if frames == [] then 0
    else AckCount(frames[..|frames| - 1]) + if IsAck(frames[|frames| - 1]) then 1 else 0
  }

  // ----- What the channel alone determines -----

  function Documents(c: Config, ps: seq<Publication>): seq<Out> {
    [Document(Subscribe(c.topics))]
    + seq(|ps|, i requires 0 <= i < |ps| => Document(EventPayload(ps[i].topic, ps[i].event)))
  }

  // ----- The invariant -----

  /** The callbacks still owed for the messages in the inbox. */
  function Owed(inbox: seq<Message>): seq<Callback> {
    if inbox == [] then [] else CallbackOf(ResultOf(inbox[0])) + Owed(inbox[1..])
  }

  predicate ChannelInv(c: Config, s: Running) {
    && |s.channel| <= c.capacity
    && s.accepted == s.taken + s.channel
  }

  /** The state agrees with what the frames read so far determine: a phase, callbacks and the number
      of acknowledgements. */
  predicate InputOk(pc: Pc, b: BindingState, made: seq<Callback>, ph: Phase, due: seq<Callback>, acks: nat) {
    && made + Owed(b.inbox) == due
    && (pc.Delivering? <==> b.inbox != [])
    && |b.inbox| <= 1 && (b.inbox != [] ==> Clean(b.inbox[0]))
    && match pc
       case Opening => ph == Waiting && acks == 0 && b.state.Subscribing?
       case Handshake => ph == Waiting && acks == 0 && b.state.Subscribing?
       case Done(outcome) =>
         && (ph.Stopped? ==> ph.outcome == outcome)
         && (outcome.ProtocolFailure? ==> ph.Stopped?)
         && acks <= 3
         && (acks == 3 <==> outcome == ProtocolFailure(AlreadySubscribed))
       case _ => ph == Serving(b.state.Subscribed?) && acks == if b.state.Subscribed? then 2 else 1
  }

  predicate InputInv(s: Running) {
    InputOk(s.pc, s.binding, s.callbacks, PhaseAfter(s.consumed), CallbacksFor(s.consumed), AckCount(s.consumed))
  }

  predicate OutputInv(c: Config, s: Running) {
    var all := Documents(c, s.taken);
    match s.pc
    case Opening => s.taken == [] && s.sent == [] && s.binding.outbox == [Subscribe(c.topics)]
    case Handshake => s.taken == [] && s.sent == all && s.binding.outbox == []
    case Publishing => |s.binding.outbox| == 1 && s.sent + [Document(s.binding.outbox[0])] == all
    case Closing => s.sent == all && s.binding.outbox == [] && s.channel == [] && !s.open
    case Done(outcome) =>
      || (s.sent == all + [CloseFrame] && outcome.Finished? && s.channel == [] && !s.open)
      || s.sent == all
      || s.sent == all[..|all| - 1]
    case _ => s.sent == all && s.binding.outbox == []
  }

  /** The callbacks start with the connection, and nothing but the subscription is sent before. */
  predicate OrderInv(s: Running) {
    && (s.pc.Opening? || s.pc.Handshake? ==> s.callbacks == [])
    && (!s.pc.Opening? && !s.pc.Handshake? && !s.pc.Done? ==> s.callbacks != [])
    && (s.taken != [] || CloseFrame in s.sent ==> s.callbacks != [])
    && (forall i | 0 <= i < |s.callbacks| :: s.callbacks[i].Connected? <==> i == 0)
  }

  predicate EncodablePayload(t: Texts, p: Protocol.Payload) {
    p.Publish? ==> EncodableMessage(t, p.message)
  }

  /** Only documents whose serialization succeeded are queued and sent. */
  predicate EncodingInv(c: Config, s: Running) {
    && (forall p | p in s.binding.outbox :: EncodablePayload(c.texts, p))
    && (forall x | x in s.sent :: x.Document? ==> EncodablePayload(c.texts, x.payload))
  }

  predicate Inv(c: Config, s: Running) {
    ChannelInv(c, s) && InputInv(s) && OutputInv(c, s) && OrderInv(s) && EncodingInv(c, s)
  }

  lemma StartInv(c: Config)
    ensures Inv(c, Start(c))
  {
  }

  lemma DocumentsAppend(c: Config, ps: seq<Publication>, p: Publication)
    ensures Documents(c, ps + [p]) == Documents(c, ps) + [Document(EventPayload(p.topic, p.event))]
  {
  }

  lemma FlushInv(c: Config, s: Running, ok: bool)
    requires Inv(c, s) && Enabled(c, s, Flushed(ok))
    ensures Inv(c, Step(c, s, Flushed(ok)))
  {
    var t := Step(c, s, Flushed(ok));
    var all := Documents(c, s.taken);
    if s.pc.Opening? {
      assert all == [Document(Subscribe(c.topics))];
    } else if s.pc.Publishing? {
      assert all[..|all| - 1] == s.sent;
    }
  }

  lemma PublishInv(c: Config, s: Running)
    requires Inv(c, s) && Enabled(c, s, Recv)
    ensures Inv(c, Step(c, s, Recv))
  {
    if s.channel != [] {
      PublishOutput(c, s);
      assert s.taken + s.channel == s.taken + [s.channel[0]] + s.channel[1..];
    }
  }

  lemma PublishOutput(c: Config, s: Running)
    requires OutputInv(c, s) && s.pc.Loop? && s.channel != []
    ensures OutputInv(c, Publish(c, s))
  {
    var p := s.channel[0];
    DocumentsAppend(c, s.taken, p);
    var all := Documents(c, s.taken + [p]);
    assert all[..|all| - 1] == s.sent;
  }

  lemma FrameStep(frames: seq<Frame>, f: Frame)
    ensures PhaseAfter(frames + [f]) == React(PhaseAfter(frames), f).0
    ensures CallbacksFor(frames + [f]) == CallbacksFor(frames) + React(PhaseAfter(frames), f).1
    ensures AckCount(frames + [f]) == AckCount(frames) + if IsAck(f) then 1 else 0
  {
    assert (frames + [f])[..|frames + [f]| - 1] == frames;
  }

  lemma ShakeInput(s: Running, f: Frame, ph: Phase, due: seq<Callback>, acks: nat)
    requires s.pc.Handshake? && InputOk(s.pc, s.binding, s.callbacks, ph, due, acks) && OrderInv(s)
    ensures var t, r := Shake(s, f), React(ph, f);
            && InputOk(t.pc, t.binding, t.callbacks, r.0, due + r.1, acks + if IsAck(f) then 1 else 0)
            && OrderInv(t)
  {
  }

  lemma ReceiveInput(s: Running, f: Frame, ph: Phase, due: seq<Callback>, acks: nat)
    requires s.pc.Loop? && InputOk(s.pc, s.binding, s.callbacks, ph, due, acks) && OrderInv(s)
    ensures var t, r := Receive(s, f), React(ph, f);
            && InputOk(t.pc, t.binding, t.callbacks, r.0, due + r.1, acks + if IsAck(f) then 1 else 0)
            && OrderInv(t)
  {
    var t := Receive(s, f);
    if t.pc.Delivering? {
      assert t.binding.inbox == [f.read.value];
    }
  }

  /** Reading a frame touches neither the channel nor what is sent. */
  lemma ReadingKeeps(s: Running, f: Frame, t: Running)
    requires t == Shake(s, f) || t == Receive(s, f)
    ensures t.consumed == s.consumed && t.sent == s.sent && t.channel == s.channel && t.open == s.open
    ensures t.accepted == s.accepted && t.taken == s.taken && t.binding.outbox == s.binding.outbox
    ensures t.pc == s.pc || t.pc.Loop? || t.pc.Delivering? || t.pc.Done?
  {
  }

  lemma ArrivedInput(s: Running, f: Frame, t: Running)
    requires InputInv(s) && OrderInv(s)
    requires s.pc.Handshake? || s.pc.Loop?
    requires var u := s.(consumed := s.consumed + [f]); t == if s.pc.Handshake? then Shake(u, f) else Receive(u, f)
    ensures InputInv(t) && OrderInv(t)
  {
    FrameStep(s.consumed, f);
    var u := s.(consumed := s.consumed + [f]);
    ReadingKeeps(u, f, t);
    if s.pc.Handshake? {
      ShakeInput(u, f, PhaseAfter(s.consumed), CallbacksFor(s.consumed), AckCount(s.consumed));
    } else {
      ReceiveInput(u, f, PhaseAfter(s.consumed), CallbacksFor(s.consumed), AckCount(s.consumed));
    }
  }

  lemma ArrivedInv(c: Config, s: Running, f: Frame)
    requires Inv(c, s) && Enabled(c, s, Next(Arrived(f)))
    ensures Inv(c, Step(c, s, Next(Arrived(f))))
  {
    var t := Step(c, s, Next(Arrived(f)));
    ArrivedInput(s, f, t);
    ReadingKeeps(s.(consumed := s.consumed + [f]), f, t);
  }

  lemma DeliverInv(c: Config, s: Running)
    requires Inv(c, s) && Enabled(c, s, Deliver)
    ensures Inv(c, Step(c, s, Deliver))
  {
    var inbox := s.binding.inbox;
    assert inbox[0] in inbox && inbox[1..] == [];
  }

  lemma StepInv(c: Config, s: Running, l: Label)
    requires Inv(c, s) && Enabled(c, s, l)
    ensures Inv(c, Step(c, s, l))
  {
    match l {
      case Flushed(ok) => FlushInv(c, s, ok);
      case Recv => PublishInv(c, s);
      case Next(Arrived(f)) => ArrivedInv(c, s, f);
      case Deliver => DeliverInv(c, s);
      case _ =>
    }
  }

  /** Every reachable state satisfies the invariant. */
  lemma {:induction false} RunInv(c: Config, run: seq<Label>)
    requires Exec(c, run).Some?
    ensures Inv(c, Exec(c, run).value)
  {
    if run == [] {
      StartInv(c);
    } else {
      RunInv(c, run[..|run| - 1]);
      StepInv(c, Exec(c, run[..|run| - 1]).value, run[|run| - 1]);
    }
  }

  // ----- Properties of every run -----

  /** Reading more frames only adds callbacks, at most one for each frame. */
  lemma {:induction false} CallbacksPrefix(frames: seq<Frame>, k: nat)
    requires k <= |frames|
    ensures CallbacksFor(frames[..k]) <= CallbacksFor(frames)
    ensures |CallbacksFor(frames)| <= |frames|
  {
    if |frames| > 0 {
      var init := frames[..|frames| - 1];
      if k < |frames| {
        CallbacksPrefix(init, k);
        assert init[..k] == frames[..k];
      } else {
        CallbacksPrefix(init, 0);
        assert frames[..k] == frames;
      }
    }
  }

  /** Whatever the interleaving, the channel and the subscription, the callbacks made are a function of
      the frames read: all that these call for, or all but the one being made. */
  lemma CallbacksDetermined(c: Config, run: seq<Label>, s: Running)
    requires Exec(c, run) == Some(s)
    ensures s.callbacks + Owed(s.binding.inbox) == CallbacksFor(s.consumed)
    ensures !s.pc.Delivering? ==> s.callbacks == CallbacksFor(s.consumed)
    ensures |s.callbacks| <= |s.consumed| && |CallbacksFor(s.consumed)| <= |s.callbacks| + 1
  {
    RunInv(c, run);
    CallbacksPrefix(s.consumed, 0);
    OwedOne(s.binding.inbox);
  }

  lemma OwedOne(inbox: seq<Message>)
    requires |inbox| <= 1
    ensures |Owed(inbox)| <= 1
  {
    if inbox != [] { assert inbox[1..] == []; }
  }

  /** The frames sent are at all times a prefix of the subscription, the accepted events in channel
      order and one final Close; no more events than the channel holds are ever behind. */
  lemma FramesSent(c: Config, run: seq<Label>, s: Running)
    requires Exec(c, run) == Some(s)
    ensures s.sent <= Documents(c, s.accepted) + [CloseFrame]
    ensures s.accepted == s.taken + s.channel && |s.channel| <= c.capacity
    ensures |s.accepted| <= |s.sent| + c.capacity
  {
    RunInv(c, run);
    SentPrefix(c, s);
  }

  lemma SentPrefix(c: Config, s: Running)
    requires ChannelInv(c, s) && OutputInv(c, s)
    ensures s.sent <= Documents(c, s.accepted) + [CloseFrame]
    ensures |s.accepted| <= |s.sent| + c.capacity
  {
    var all := Documents(c, s.taken);
    assert Documents(c, s.accepted) == all + Documents(c, s.channel)[1..];
    if s.channel == [] { assert s.accepted == s.taken; }
    assert s.sent <= all || s.sent == all + [CloseFrame];
  }

  lemma NoCloseInDocuments(c: Config, ps: seq<Publication>)
    ensures CloseFrame !in Documents(c, ps)
  {
  }

  /** A graceful close loses nothing: every accepted event was sent, once and in order, before it. */
  lemma GracefulClose(c: Config, run: seq<Label>, s: Running)
    requires Exec(c, run) == Some(s)
    ensures CloseFrame in s.sent <==>
            s.sent == Documents(c, s.accepted) + [CloseFrame] && s.pc == Done(Finished) && s.channel == [] && !s.open
  {
    RunInv(c, run);
    NoCloseInDocuments(c, s.taken);
    var all := Documents(c, s.taken);
    assert CloseFrame !in all[..|all| - 1];
    if s.channel == [] { assert s.accepted == s.taken; }
    if s.binding.outbox != [] && s.pc.Publishing? { assert CloseFrame !in s.sent + [Document(s.binding.outbox[0])]; }
    assert CloseFrame in s.sent ==> s.sent == all + [CloseFrame];
  }

  /** Handshake safety: the subscription is the first frame, `connected` is the first callback and is
      made once, and before it nothing else is sent and no other callback is made. */
  lemma HandshakeSafety(c: Config, run: seq<Label>, s: Running)
    requires Exec(c, run) == Some(s)
    ensures s.sent != [] ==> s.sent[0] == Document(Subscribe(c.topics))
    ensures |s.sent| > 1 ==> s.callbacks != []
    ensures forall i | 0 <= i < |s.callbacks| :: s.callbacks[i].Connected? <==> i == 0
  {
    RunInv(c, run);
    FramesSent(c, run, s);
    if |s.sent| > 1 && s.taken == [] && s.pc.Done? {
      var all := Documents(c, s.taken);
      assert s.sent == all + [CloseFrame];
      assert CloseFrame in s.sent;
    }
  }

  /** The third acknowledgement of a run, and only it, ends the run with `AlreadySubscribed`. */
  lemma AckLimit(c: Config, run: seq<Label>, s: Running)
    requires Exec(c, run) == Some(s)
    ensures AckCount(s.consumed) <= 3
    ensures AckCount(s.consumed) == 3 <==> s.pc == Done(ProtocolFailure(AlreadySubscribed))
  {
    RunInv(c, run);
  }

  /** The acknowledgement of the handshake is not passed to the binding, so the first later one is
      absorbed without a trace and the next one is an error. */
  lemma LaterAck(c: Config, run: seq<Label>, s: Running, f: Frame)
    requires Exec(c, run) == Some(s) && s.pc.Loop? && IsAck(f)
    ensures var t := Step(c, s, Next(Arrived(f)));
            && t.callbacks == s.callbacks && t.sent == s.sent
            && (if AckCount(s.consumed) == 1 then t.pc == Loop && t.binding.state.Subscribed?
                else t.pc == Done(ProtocolFailure(AlreadySubscribed)))
  {
    RunInv(c, run);
  }

  /** A protocol failure is the reaction to the frames read; it does not depend on the interleaving. */
  lemma FailureDetermined(c: Config, run: seq<Label>, s: Running, e: ProtocolError)
    requires Exec(c, run) == Some(s)
    ensures s.pc == Done(ProtocolFailure(e)) <==> PhaseAfter(s.consumed) == Stopped(ProtocolFailure(e))
  {
    RunInv(c, run);
  }

  /** At the head of the main loop both queues of the binding are empty, and each of the two inner
      loops runs for one element only. */
  lemma LoopHead(c: Config, run: seq<Label>, s: Running)
    requires Exec(c, run) == Some(s)
    ensures s.pc.Loop? ==> s.binding.inbox == [] && s.binding.outbox == []
    ensures s.pc.Publishing? ==> Enabled(c, s, Flushed(true)) && Step(c, s, Flushed(true)).pc == Loop
    ensures s.pc.Delivering? ==> Enabled(c, s, Deliver) && Step(c, s, Deliver).pc == Loop
  {
    RunInv(c, run);
  }

  // ----- Progress -----

  /** What remains to happen once all handles are dropped: `n` events and the Close frame are sent. */
  function Drain(n: nat): seq<Label> {
    [Recv, Flushed(true)] + if n == 0 then [] else Drain(n - 1)
  }

  predicate Sendable(c: Config, ps: seq<Publication>) {
    forall p | p in ps :: EncodablePayload(c.texts, EventPayload(p.topic, p.event))
  }

  lemma ExecOne(c: Config, run: seq<Label>, s: Running, l: Label)
    requires Exec(c, run) == Some(s) && Enabled(c, s, l)
    ensures Exec(c, run + [l]) == Some(Step(c, s, l))
  {
    assert (run + [l])[..|run + [l]| - 1] == run;
  }

  lemma PublishRound(c: Config, s: Running)
    requires s.pc.Loop? && s.binding.outbox == [] && s.channel != [] && Sendable(c, s.channel)
    ensures Enabled(c, s, Recv) && Enabled(c, Step(c, s, Recv), Flushed(true))
    ensures var u := Step(c, Step(c, s, Recv), Flushed(true));
            u.pc == Loop && u.channel == s.channel[1..] && u.open == s.open && u.accepted == s.accepted
  {
    var p := s.channel[0];
    assert p in s.channel;
    assert [] + [EventPayload(p.topic, p.event)] == [EventPayload(p.topic, p.event)];
  }

  lemma CloseRound(c: Config, s: Running)
    requires s.pc.Loop? && s.channel == [] && !s.open
    ensures Enabled(c, s, Recv) && Enabled(c, Step(c, s, Recv), Flushed(true))
    ensures Step(c, Step(c, s, Recv), Flushed(true)) == s.(sent := s.sent + [CloseFrame], pc := Done(Finished))
  {
  }

  lemma SendingPair(c: Config, run: seq<Label>, s: Running)
    requires Exec(c, run) == Some(s) && Enabled(c, s, Recv) && Enabled(c, Step(c, s, Recv), Flushed(true))
    ensures Exec(c, run + [Recv, Flushed(true)]) == Some(Step(c, Step(c, s, Recv), Flushed(true)))
  {
    ExecOne(c, run, s, Recv);
    ExecOne(c, run + [Recv], Step(c, s, Recv), Flushed(true));
    assert run + [Recv] + [Flushed(true)] == run + [Recv, Flushed(true)];
  }

  lemma DrainNext(run: seq<Label>, n: nat)
    requires n > 0
    ensures run + [Recv, Flushed(true)] + Drain(n - 1) == run + Drain(n)
  {
  }

  lemma EventSent(c: Config, run: seq<Label>, s: Running) returns (u: Running)
    requires Exec(c, run) == Some(s) && s.pc.Loop? && s.channel != [] && Sendable(c, s.channel)
    ensures Exec(c, run + [Recv, Flushed(true)]) == Some(u)
    ensures u.pc == Loop && u.channel == s.channel[1..] && u.open == s.open && u.accepted == s.accepted
  {
    LoopHead(c, run, s);
    PublishRound(c, s);
    SendingPair(c, run, s);
    u := Step(c, Step(c, s, Recv), Flushed(true));
  }

  /** Progress: from every loop head that a run reaches with all handles dropped, sending alone ends the
      run gracefully, with every accepted event sent, once and in order, before the Close frame. */
  lemma {:induction false} DrainFinishes(c: Config, run: seq<Label>, s: Running)
    requires Exec(c, run) == Some(s) && s.pc.Loop? && !s.open && Sendable(c, s.channel)
    ensures var e := Exec(c, run + Drain(|s.channel|));
            && e.Some? && e.value.pc == Done(Finished) && e.value.accepted == s.accepted
            && e.value.sent == Documents(c, s.accepted) + [CloseFrame]
    decreases |s.channel|
  {
    if s.channel == [] {
      DrainedCloses(c, run, s);
    } else {
      DrainNext(run, |s.channel|);
      var u := EventSent(c, run, s);
      DrainFinishes(c, run + [Recv, Flushed(true)], u);
    }
  }

  lemma DrainedCloses(c: Config, run: seq<Label>, s: Running)
    requires Exec(c, run) == Some(s) && s.pc.Loop? && !s.open && s.channel == []
    ensures Exec(c, run + Drain(0))
            == Some(s.(sent := Documents(c, s.accepted) + [CloseFrame], pc := Done(Finished)))
  {
    RunInv(c, run);
    assert s.accepted == s.taken;
    CloseRound(c, s);
    SendingPair(c, run, s);
    assert Drain(0) == [Recv, Flushed(true)];
  }

  /** From the head of the main loop, an event that is read is passed to the client and the loop is back
      at its head. */
  lemma EventDelivered(c: Config, s: Running, topic: string, event: Event)
    requires s.pc.Loop? && s.binding.inbox == []
    ensures var d := Step(c, s, Next(Arrived(Payload(Ok(DataMessage(topic, EventData(event)))))));
            && d.pc.Delivering? && Enabled(c, d, Deliver)
            && Step(c, d, Deliver).callbacks == s.callbacks + [OnEvent(topic, event)]
            && Step(c, d, Deliver).pc.Loop? && Step(c, d, Deliver).sent == s.sent
  {
    var m := DataMessage(topic, EventData(event));
    assert [] + [m] == [m] && [m][1..] == [];
  }
}
