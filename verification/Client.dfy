/** The service loop as the program runs it, against a script of what its environment does. */
module Client {
  import opened Wrappers
  import opened Messages
  import opened Protocol
  import opened ServiceRuns

  /** Whether a part of the loop goes on, or `serve` returns or stays pending forever. */
  datatype Progress = Continue | Leave(outcome: Option<Outcome>)

  /** Runs one more label of a script. */
  lemma ExecNext(c: Config, script: seq<Label>, pos: nat)
    requires pos < |script| && Exec(c, script[..pos]).Some?
    requires Enabled(c, Exec(c, script[..pos]).value, script[pos])
    ensures Exec(c, script[..pos + 1]) == Some(Step(c, Exec(c, script[..pos]).value, script[pos]))
  {
    assert script[..pos + 1][..pos] == script[..pos];
  }

  class Service {
    const config: Config
    const script: seq<Label>
    var pos: nat
    var rx: seq<Publication>
    var open: bool
    var sent: seq<Out>
    var callbacks: seq<Callback>
    ghost var now: Running

    constructor (config: Config, script: seq<Label>)
      ensures this.config == config && this.script == script && pos == 0
      ensures Follows(Opening, NewBinding(config.topics))
    {
      this.config, this.script := config, script;
      pos, rx, open, sent, callbacks := 0, [], true, [], [];
      now := Start(config);
    }

    /** The program is where the state machine is after the labels consumed so far. */
    ghost predicate Follows(pc: Pc, b: BindingState)
      reads this
    {
      && pos <= |script|
      && Exec(config, script[..pos]) == Some(now)
      && now.pc == pc && now.binding == b
      && now.channel == rx && now.open == open && now.sent == sent && now.callbacks == callbacks
    }

    /** The run has ended with `r`, or waits for something that the script does not provide. */
    ghost predicate Returns(r: Option<Outcome>)
      reads this
    {
      && pos <= |script|
      && Exec(config, script[..pos]) == Some(now)
      && now.sent == sent && now.callbacks == callbacks
      && match r
         case Some(outcome) => now.pc == Done(outcome)
         case None => pos == |script| || !Enabled(config, now, script[pos])
    }

    /** The next label is one that this point of the program waits for. */
    predicate Awaited(pc: Pc, l: Label)
      reads this
    {
      match l
      case Accept(_) => false
      case Hangup => false
      case Flushed(_) => pc.Opening? || pc.Publishing? || pc.Closing?
      case Recv => pc.Loop? && (rx != [] || !open)
      case Next(_) => pc.Handshake? || pc.Loop?
      case Deliver => pc.Delivering?
    }

    ghost predicate Waits(pc: Pc, b: BindingState) {
      !pc.Done? && (pc.Opening? || pc.Publishing? ==> b.outbox != []) && (pc.Delivering? ==> b.inbox != [])
    }

    /** Suspends at an `await`: meanwhile clients may publish or hang up. */
    method Await(pc: Pc, ghost b: BindingState) returns (l: Option<Label>)
      requires Follows(pc, b) && Waits(pc, b)
      modifies this
      ensures Follows(pc, b) && pos >= old(pos)
      ensures l.Some? ==> pos < |script| && script[pos] == l.value
      ensures l.Some? ==> Awaited(pc, l.value) && Enabled(config, now, l.value)
      ensures l.None? ==> Returns(Option.None)
    {
      while pos < |script| && (script[pos].Hangup? || script[pos].Accept?)
        invariant Follows(pc, b) && pos >= old(pos)
        decreases |script| - pos
      {
        match script[pos] {
          case Hangup =>
            if !open { return Option.None; }
            Take();
            open := false;
          case Accept(p) =>
            if !open || |rx| >= config.capacity { return Option.None; }
            Take();
            rx := rx + [p];
        }
      }
      if pos < |script| && Awaited(pc, script[pos]) {
        return Some(script[pos]);
      }
      l := Option.None;
    }

    /** Moves the state machine over the label at hand; the caller performs its effect. */
    method Take()
      requires pos < |script| && Exec(config, script[..pos]) == Some(now) && Enabled(config, now, script[pos])
      modifies this`pos, this`now
      ensures pos == old(pos) + 1 && now == Step(config, old(now), script[old(pos)])
      ensures Exec(config, script[..pos]) == Some(now)
    {
      ExecNext(config, script, pos);
      now := Step(config, now, script[pos]);
      pos := pos + 1;
    }

    /** Sends the document at the head of the outbox. */
    method SendOne(pc: Pc, ghost b: BindingState, x: Protocol.Payload) returns (p: Progress)
      requires (pc.Opening? || pc.Publishing?) && Follows(pc, b) && b.outbox != [] && b.outbox[0] == x
      modifies this
      ensures p.Continue? ==> pos > old(pos) && Follows(AfterSend(pc, b), b.Outgoing().0)
      ensures p.Leave? ==> Returns(p.outcome)
    {
      var l := Await(pc, b);
      if l.None? { return Leave(Option.None); }
      Take();
      if !l.value.ok { return Leave(Some(TransportError)); }
      sent := sent + [Document(x)];
      p := Continue;
    }

    ghost function AfterSend(pc: Pc, b: BindingState): Pc
      requires b.outbox != []
    {
      if b.outbox[1..] != [] then pc else if pc.Opening? then Handshake else Loop
    }

    /** Sends everything that the binding has queued. The document taken from the outbox last still
        belongs to the binding of the state machine, `b`. */
    method SendAll(binding: Binding, pc: Pc) returns (p: Progress)
      requires binding.Valid() && (pc.Opening? || pc.Publishing?) && binding.outbox.queue != []
      requires Follows(pc, binding.Model())
      modifies this, binding, binding.outbox
      ensures p.Continue? ==>
                && binding.Valid() && binding.outbox.queue == [] && binding.inbox.queue == old(binding.inbox.queue)
                && Follows(if pc.Opening? then Handshake else Loop, binding.Model()) && pos >= old(pos)
      ensures p.Leave? ==> Returns(p.outcome)
    {
      ghost var b := binding.Model();
      var x := binding.Outgoing();
      while x.Some?
        invariant binding.Valid() && pos >= old(pos) && binding.inbox.queue == old(binding.inbox.queue)
        invariant x == b.Outgoing().1 && binding.Model() == b.Outgoing().0
        invariant Follows(if x.Some? then pc else if pc.Opening? then Handshake else Loop, b)
        decreases |b.outbox|
      {
        p := SendOne(pc, b, x.value);
        if p.Leave? { return; }
        b := binding.Model();
        x := binding.Outgoing();
      }
      p := Continue;
    }

    /** Waits for the acknowledgement of the subscription. */
    method AwaitAck(ghost b: BindingState) returns (p: Progress)
      requires Follows(Handshake, b)
      modifies this
      ensures p.Continue? ==> Follows(Loop, b)
      ensures p.Leave? ==> Returns(p.outcome)
    {
      while true
        invariant Follows(Handshake, b)
        decreases |script| - pos
      {
        var l := Await(Handshake, b);
        if l.None? { return Leave(Option.None); }
        Take();
        match l.value.item {
          case End => return Leave(Some(Finished));
          case Broken => return Leave(Some(TransportError));
          case Arrived(f) =>
            match Read(f) {
              case IsPing =>
              case Aborts => return Leave(Some(Panicked));
              case IsError(e) => return Leave(Some(ProtocolFailure(DeserializationError(e))));
              case IsMessage(Ack(endpoint, version)) =>
                callbacks := callbacks + [Connected(endpoint, version)];
                return Continue;
              case IsMessage(_) => return Leave(Some(TransportError));
            }
        }
      }
    }

    /** Sends the Close frame. */
    method Close(ghost b: BindingState) returns (p: Progress)
      requires Follows(Closing, b)
      modifies this
      ensures p.Leave? && Returns(p.outcome)
    {
      var l := Await(Closing, b);
      if l.None? { return Leave(Option.None); }
      Take();
      if !l.value.ok { return Leave(Some(TransportError)); }
      sent := sent + [CloseFrame];
      p := Leave(Some(Finished));
    }

    /** The publish branch. */
    method PublishNext(binding: Binding) returns (p: Progress)
      requires binding.Valid() && binding.outbox.queue == [] && binding.inbox.queue == []
      requires binding.outbox.texts == config.texts
      requires Follows(Loop, binding.Model()) && pos < |script| && script[pos].Recv? && Enabled(config, now, Recv)
      modifies this, binding, binding.outbox
      ensures p.Continue? ==>
                && binding.Valid() && binding.outbox.queue == [] && binding.inbox.queue == []
                && Follows(Loop, binding.Model()) && pos > old(pos)
      ensures p.Leave? ==> Returns(p.outcome)
    {
      Take();
      if rx == [] {
        p := Close(binding.Model());
        return;
      }
      var next := rx[0];
      rx := rx[1..];
      if !EncodableMessage(config.texts, DataMessage(next.topic, EventData(next.event))) {
        return Leave(Some(Panicked));
      }
      binding.PublishEvent(next.topic, next.event);
      p := SendAll(binding, Publishing);
    }

    /** Makes the callback for the message at the head of the inbox. */
    method DeliverOne(ghost b: BindingState, received: Received) returns (p: Progress)
      requires Follows(Delivering, b) && b.inbox != [] && received == ResultOf(b.inbox[0]) && !received.Unreachable?
      modifies this
      ensures p.Continue? ==>
                pos > old(pos) && Follows(if b.inbox[1..] == [] then Loop else Delivering, b.ReceiveEvent().0)
      ensures p.Leave? ==> Returns(p.outcome)
    {
      var l := Await(Delivering, b);
      if l.None? { return Leave(Option.None); }
      Take();
      match received {
        case Got(topic, event) => callbacks := callbacks + [OnEvent(topic, event)];
        case Failed(e) => callbacks := callbacks + [OnError(e)];
      }
      p := Continue;
    }

    /** Passes everything in the inbox to the client. The message taken from the inbox last still
        belongs to the binding of the state machine, `b`. */
    method DeliverAll(binding: Binding) returns (p: Progress)
      requires binding.Valid() && binding.outbox.queue == []
      requires Follows(if binding.inbox.queue == [] then Loop else Delivering, binding.Model())
      modifies this, binding, binding.inbox
      ensures p.Continue? ==>
                && binding.Valid() && binding.outbox.queue == [] && binding.inbox.queue == []
                && Follows(Loop, binding.Model()) && pos >= old(pos)
      ensures p.Leave? ==> Returns(p.outcome)
    {
      ghost var b := binding.Model();
      var received := binding.ReceiveEvent();
      while !received.Nothing?
        invariant binding.Valid() && binding.outbox.queue == [] && pos >= old(pos) && !received.Unreachable?
        invariant received == b.ReceiveEvent().1 && binding.Model() == b.ReceiveEvent().0
        invariant Follows(if b.inbox == [] then Loop else Delivering, b)
        decreases |b.inbox|
      {
        p := DeliverOne(b, received);
        if p.Leave? { return; }
        b := binding.Model();
        received := binding.ReceiveEvent();
      }
      p := Continue;
    }

    /** The stream branch. */
    method ReceiveNext(binding: Binding, item: StreamItem) returns (p: Progress)
      requires binding.Valid() && binding.outbox.queue == [] && binding.inbox.queue == []
      requires Follows(Loop, binding.Model()) && pos < |script|
      requires script[pos] == Next(item) && Enabled(config, now, Next(item))
      modifies this, binding, binding.inbox
      ensures p.Continue? ==>
                && binding.Valid() && binding.outbox.queue == [] && binding.inbox.queue == []
                && Follows(Loop, binding.Model()) && pos > old(pos)
      ensures p.Leave? ==> Returns(p.outcome)
    {
      Take();
      match item {
        case End => return Leave(Some(Finished));
        case Broken => return Leave(Some(TransportError));
        case Arrived(f) =>
          match Read(f) {
            case IsPing => return Continue;
            case Aborts => return Leave(Some(Panicked));
            case IsError(e) =>
              callbacks := callbacks + [OnError(DeserializationError(e))];
              return Continue;
            case IsMessage(m) =>
              var e := binding.HandleIncoming(m);
              if e.Some? { return Leave(Some(ProtocolFailure(e.value))); }
              p := DeliverAll(binding);
          }
      }
    }

    /** Runs the client. The program makes exactly the run of the state machine that the script
        describes, up to its end or to the first label that cannot happen. */
    method Serve() returns (r: Option<Outcome>)
      requires pos == 0 && Follows(Opening, NewBinding(config.topics))
      modifies this
      ensures Returns(r)
    {
      var binding := new Binding(config.texts, config.topics);
      var p := SendAll(binding, Opening);
      if p.Leave? { return p.outcome; }
      p := AwaitAck(binding.Model());
      if p.Leave? { return p.outcome; }
      while true
        invariant binding.Valid() && binding.outbox.queue == [] && binding.inbox.queue == []
        invariant binding.outbox.texts == config.texts
        invariant Follows(Loop, binding.Model())
        decreases |script| - pos
      {
        var l := Await(Loop, binding.Model());
        if l.None? { return Option.None; }
        if l.value.Recv? {
          p := PublishNext(binding);
        } else {
          p := ReceiveNext(binding, l.value.item);
        }
        if p.Leave? { return p.outcome; }
      }
    }
  }
}
