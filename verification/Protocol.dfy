/** The sans-I/O protocol binding: two queues and a subscription state. */
module Protocol {
  import opened Wrappers
  import opened Values
  import opened Messages
  import opened ValueCodec

  datatype State = Subscribing | Subscribed

  /** A document waiting to be sent, named by what was serialized. */
  datatype Payload = Subscribe(topics: seq<string>) | Publish(message: Message)

  datatype FrameError = UnexpectedMessageType | BadJson

  datatype ProtocolError =
    | AlreadySubscribed
    | ZeekError(code: string, context: string)
    | UnexpectedEventPayload(value: Value)
    | DeserializationError(cause: FrameError)

  /** What `receive_event` returns; `Unreachable` marks the two sites that must not be reached. */
  datatype Received =
    | Nothing
    | Got(topic: string, event: Event)
    | Failed(error: ProtocolError)
    | Unreachable

  // ----- The binding as a value -----

  datatype BindingState = BindingState(state: State, inbox: seq<Message>, outbox: seq<Payload>) {
    function HandleIncoming(m: Message): (BindingState, Option<ProtocolError>) {
      match m
      case Ack(_, _) =>
        if state.Subscribing? then (this.(state := Subscribed), Option.None) else (this, Some(AlreadySubscribed))
      case DataMessage(_, Other(v)) => (this, Some(UnexpectedEventPayload(v)))
      case _ => (this.(inbox := inbox + [m]), Option.None)
    }

    function Outgoing(): (BindingState, Option<Payload>) {
      if outbox == [] then (this, Option.None) else (this.(outbox := outbox[1..]), Some(outbox[0]))
    }

    function ReceiveEvent(): (BindingState, Received) {
      if inbox == [] then (this, Nothing) else (this.(inbox := inbox[1..]), ResultOf(inbox[0]))
    }

    function PublishEvent(topic: string, event: Event): BindingState {
      this.(outbox := outbox + [EventPayload(topic, event)])
    }
  }

  function NewBinding(topics: seq<string>): BindingState {
    BindingState(Subscribing, [], [Subscribe(topics)])
  }

  function ResultOf(m: Message): Received {
    match m
    case DataMessage(topic, EventData(event)) => Got(topic, event)
    case DataMessage(_, Other(_)) => Unreachable
    case Error(code, context) => Failed(ZeekError(code, context))
    case Ack(_, _) => Unreachable
  }

  function EventPayload(topic: string, event: Event): Payload {
    Publish(DataMessage(topic, EventData(event)))
  }

  // ----- Histories of public calls -----

  datatype Call =
    | HandleCall(message: Message)
    | OutgoingCall
    | ReceiveCall
    | PublishCall(topic: string, event: Event)

  /** A binding with everything that was handed in, returned, published and taken so far. */
  datatype History = History(
    topics: seq<string>,
    binding: BindingState,
    handed: seq<Message>,
    results: seq<Received>,
    published: seq<Payload>,
    taken: seq<Payload>)

  function Begin(topics: seq<string>): History {
    History(topics, NewBinding(topics), [], [], [], [])
  }

  function Apply(h: History, c: Call): History {
    match c
    case HandleCall(m) => h.(binding := h.binding.HandleIncoming(m).0, handed := h.handed + [m])
    case OutgoingCall =>
      var (b, p) := h.binding.Outgoing();
      h.(binding := b, taken := if p.Some? then h.taken + [p.value] else h.taken)
    case ReceiveCall =>
      var (b, r) := h.binding.ReceiveEvent();
      h.(binding := b, results := if r.Nothing? then h.results else h.results + [r])
    case PublishCall(topic, event) =>
      h.(binding := h.binding.PublishEvent(topic, event), published := h.published + [EventPayload(topic, event)])
  }

  function Run(topics: seq<string>, calls: seq<Call>): History {
    if calls == [] then Begin(topics) else Apply(Run(topics, calls[..|calls| - 1]), calls[|calls| - 1])
  }

  /** The messages that belong into the inbox. */
  predicate Clean(m: Message) {
    m.Error? || (m.DataMessage? && m.data.EventData?)
  }

  function CleanOnes(ms: seq<Message>): seq<Message> {
    if ms == [] then []
    else CleanOnes(ms[..|ms| - 1]) + if Clean(ms[|ms| - 1]) then [ms[|ms| - 1]] else []
  }

  function ResultsOf(ms: seq<Message>): seq<Received> {
    seq(|ms|, i requires 0 <= i < |ms| => ResultOf(ms[i]))
  }

  predicate AckIn(ms: seq<Message>) {
    exists m | m in ms :: m.Ack?
  }

  /** Conservation: results and inbox together are the accepted messages in order, sent and pending
      documents together are the subscription and the published events in order. */
  predicate Conserved(h: History) {
    && (forall m | m in h.binding.inbox :: Clean(m))
    && h.results + ResultsOf(h.binding.inbox) == ResultsOf(CleanOnes(h.handed))
    && h.taken + h.binding.outbox == [Subscribe(h.topics)] + h.published
    && (h.binding.state.Subscribed? <==> AckIn(h.handed))
    && (forall r | r in h.results :: r.Got? || (r.Failed? && r.error.ZeekError?))
  }

  lemma BeginConserved(topics: seq<string>)
    ensures Conserved(Begin(topics))
  {
  }

  lemma HandleConserves(h: History, m: Message)
    requires Conserved(h)
    ensures Conserved(Apply(h, HandleCall(m)))
    ensures Clean(m) <==> Apply(h, HandleCall(m)).binding.inbox != h.binding.inbox
    ensures h.binding.HandleIncoming(m).1.Some? <==> (m.Ack? && AckIn(h.handed)) || (m.DataMessage? && m.data.Other?)
    ensures h.binding.HandleIncoming(m).1.Some? ==> Apply(h, HandleCall(m)).binding == h.binding
  {
    var g := Apply(h, HandleCall(m));
    assert g.handed[..|g.handed| - 1] == h.handed;
    if Clean(m) {
      assert ResultsOf(g.binding.inbox) == ResultsOf(h.binding.inbox) + [ResultOf(m)];
      assert ResultsOf(CleanOnes(g.handed)) == ResultsOf(CleanOnes(h.handed)) + [ResultOf(m)];
    } else {
      assert CleanOnes(g.handed) == CleanOnes(h.handed);
    }
    assert forall x :: x in g.handed <==> x in h.handed || x == m;
  }

  lemma ApplyConserves(h: History, c: Call)
    requires Conserved(h)
    ensures Conserved(Apply(h, c))
  {
    var g := Apply(h, c);
    match c {
      case HandleCall(m) => HandleConserves(h, m);
      case OutgoingCall =>
        if h.binding.outbox != [] { assert h.binding.outbox == [h.binding.outbox[0]] + g.binding.outbox; }
      case ReceiveCall =>
        var inbox := h.binding.inbox;
        if inbox != [] {
          assert inbox[0] in inbox;
          assert ResultsOf(inbox) == [ResultOf(inbox[0])] + ResultsOf(inbox[1..]);
        }
      case PublishCall(topic, event) =>
        assert g.taken + g.binding.outbox == h.taken + h.binding.outbox + [EventPayload(topic, event)];
    }
  }

  /** Every sequence of public calls conserves both queues and never reaches an unreachable site. */
  lemma {:induction false} RunConserves(topics: seq<string>, calls: seq<Call>)
    ensures Conserved(Run(topics, calls)) && Run(topics, calls).topics == topics
    ensures Unreachable !in Run(topics, calls).results
    ensures !Run(topics, calls).binding.ReceiveEvent().1.Unreachable?
  {
    if calls != [] {
      RunConserves(topics, calls[..|calls| - 1]);
      ApplyConserves(Run(topics, calls[..|calls| - 1]), calls[|calls| - 1]);
    }
    var inbox := Run(topics, calls).binding.inbox;
    assert inbox != [] ==> inbox[0] in inbox;
  }

  // ----- The first event of a queue -----

  predicate IsEvent(m: Message) {
    m.DataMessage? && m.data.EventData?
  }

  function EventsOf(q: seq<Message>): seq<(string, Event)> {
    if q == [] then []
    else (if IsEvent(q[0]) then [(q[0].topic, q[0].data.event)] else []) + EventsOf(q[1..])
  }

  lemma {:induction false} EventsAfterPrefix(p: seq<Message>, q: seq<Message>)
    requires forall m | m in p :: !IsEvent(m)
    ensures EventsOf(p + q) == EventsOf(q)
  {
    if p == [] {
      assert p + q == q;
    } else {
      assert (p + q)[1..] == p[1..] + q;
      EventsAfterPrefix(p[1..], q);
    }
  }

  /** The receiving side. */
  class Inbox {
    var queue: seq<Message>

    constructor ()
      ensures queue == []
    {
      queue := [];
    }

    method Handle(m: Message)
      modifies this
      ensures queue == old(queue) + [m]
    {
      queue := queue + [m];
    }

    method NextMessage() returns (r: Option<Message>)
      modifies this
      ensures old(queue) == [] ==> r.None? && queue == []
      ensures old(queue) != [] ==> r == Some(old(queue)[0]) && queue == old(queue)[1..]
    {
      if queue == [] {
        return Option.None;
      }
      r := Some(queue[0]);
      queue := queue[1..];
    }

    /** Discards the messages before the first event, and returns and removes that event. */
    method NextEvent() returns (r: Option<(string, Event)>)
      modifies this
      ensures r.None? ==> queue == [] && forall m | m in old(queue) :: !IsEvent(m)
      ensures r.Some? ==>
                exists k: nat ::
                  && k < |old(queue)| && old(queue)[k] == DataMessage(r.value.0, EventData(r.value.1))
                  && (forall i | 0 <= i < k :: !IsEvent(old(queue)[i]))
                  && queue == old(queue)[k + 1..]
      ensures EventsOf(old(queue)) == (if r.Some? then [r.value] else []) + EventsOf(queue)
    {
      ghost var q := queue;
      ghost var k := 0;
      while true
        invariant k <= |q| && queue == q[k..]
        invariant forall i | 0 <= i < k :: !IsEvent(q[i])
        decreases |queue|
      {
        assert q == q[..k] + q[k..];
        EventsAfterPrefix(q[..k], q[k..]);
        var next := NextMessage();
        if next.None? {
          assert q[..k] == q;
          return Option.None;
        }
        assert queue == q[k + 1..];
        match next.value {
          case DataMessage(topic, EventData(event)) =>
            assert q[k] == DataMessage(topic, EventData(event));
            return Some((topic, event));
          case _ =>
        }
        k := k + 1;
      }
    }

    /** Asking for events until there is none yields the events of the queue, in order. */
    method DrainEvents() returns (events: seq<(string, Event)>)
      modifies this
      ensures events == EventsOf(old(queue)) && queue == []
    {
      events := [];
      while true
        invariant events + EventsOf(queue) == EventsOf(old(queue))
        decreases |queue|
      {
        var next := NextEvent();
        if next.None? {
          return;
        }
        events := events + [next.value];
      }
    }
  }

  /** The sending side. Serializing a message must succeed: the conversion panics otherwise. */
  class Outbox {
    const texts: Texts
    var queue: seq<Payload>

    constructor (texts: Texts, topics: seq<string>)
      ensures this.texts == texts && queue == [Subscribe(topics)]
    {
      this.texts := texts;
      queue := [Subscribe(topics)];
    }

    method NextData() returns (r: Option<Payload>)
      modifies this
      ensures old(queue) == [] ==> r.None? && queue == []
      ensures old(queue) != [] ==> r == Some(old(queue)[0]) && queue == old(queue)[1..]
    {
      if queue == [] {
        return Option.None;
      }
      r := Some(queue[0]);
      queue := queue[1..];
    }

    method Enqueue(m: Message)
      requires EncodableMessage(texts, m)
      modifies this
      ensures queue == old(queue) + [Publish(m)]
    {
      queue := queue + [Publish(m)];
    }
  }

  /** The binding. `history` records the calls made so far and what they returned. */
  class Binding {
    var state: State
    const inbox: Inbox
    const outbox: Outbox
    ghost var history: History

    ghost function Model(): BindingState
      reads this, inbox, outbox
    {
      BindingState(state, inbox.queue, outbox.queue)
    }

    ghost predicate Valid()
      reads this, inbox, outbox
    {
      history.binding == Model() && Conserved(history)
    }

    constructor (texts: Texts, topics: seq<string>)
      ensures Valid() && history == Begin(topics) && outbox.texts == texts
      ensures fresh(inbox) && fresh(outbox)
    {
      state := Subscribing;
      inbox := new Inbox();
      outbox := new Outbox(texts, topics);
      history := Begin(topics);
      new;
      BeginConserved(topics);
    }

    method HandleIncoming(m: Message) returns (r: Option<ProtocolError>)
      requires Valid()
      modifies this, inbox
      ensures Valid() && history == Apply(old(history), HandleCall(m))
      ensures r == old(Model()).HandleIncoming(m).1 && Model() == old(Model()).HandleIncoming(m).0
      ensures r.Some? ==> Model() == old(Model())
    {
      ghost var h := history;
      HandleConserves(h, m);
      history := Apply(h, HandleCall(m));
      match m {
        case Ack(_, _) =>
          if state.Subscribed? {
            return Some(AlreadySubscribed);
          }
          state := Subscribed;
        case DataMessage(_, Other(unexpected)) =>
          return Some(UnexpectedEventPayload(unexpected));
        case _ =>
          inbox.Handle(m);
      }
      r := Option.None;
    }

    method Outgoing() returns (r: Option<Payload>)
      requires Valid()
      modifies this, outbox
      ensures Valid() && history == Apply(old(history), OutgoingCall)
      ensures r == old(Model()).Outgoing().1 && Model() == old(Model()).Outgoing().0
    {
      ApplyConserves(history, OutgoingCall);
      history := Apply(history, OutgoingCall);
      r := outbox.NextData();
    }

    /** Both sites that the source calls unreachable are. */
    method ReceiveEvent() returns (r: Received)
      requires Valid()
      modifies this, inbox
      ensures Valid() && history == Apply(old(history), ReceiveCall)
      ensures r == old(Model()).ReceiveEvent().1 && Model() == old(Model()).ReceiveEvent().0
      ensures !r.Unreachable?
    {
      assert inbox.queue != [] ==> inbox.queue[0] in inbox.queue;
      ApplyConserves(history, ReceiveCall);
      history := Apply(history, ReceiveCall);
      var next := inbox.NextMessage();
      if next.None? {
        return Nothing;
      }
      match next.value {
        case DataMessage(topic, EventData(event)) => r := Got(topic, event);
        case Error(code, context) => r := Failed(ZeekError(code, context));
        case DataMessage(_, Other(_)) => assert false;
        case Ack(_, _) => assert false;
      }
    }

    method PublishEvent(topic: string, event: Event)
      requires Valid() && EncodableMessage(outbox.texts, DataMessage(topic, EventData(event)))
      modifies this, outbox
      ensures Valid() && history == Apply(old(history), PublishCall(topic, event))
      ensures Model() == old(Model()).PublishEvent(topic, event)
    {
      ApplyConserves(history, PublishCall(topic, event));
      history := Apply(history, PublishCall(topic, event));
      outbox.Enqueue(DataMessage(topic, EventData(event)));
    }

    /** Gives up the binding for its two sides, which no longer enforce the protocol. */
    method Split() returns (i: Inbox, o: Outbox)
      requires Valid()
      ensures i.queue == Model().inbox && o.queue == Model().outbox
      ensures ResultsOf(CleanOnes(history.handed)) == history.results + ResultsOf(i.queue)
      ensures [Subscribe(history.topics)] + history.published == history.taken + o.queue
    {
      i, o := inbox, outbox;
    }
  }
}
