/**
 What a session puts on the wire, from what came in: the events from outside, the frames that arrived and
 the answers of the handlers. The history fields of `SessionLoop` play no part in what is stated here.
 */
module SessionOutput {
  import opened Prelude
  import opened Protocol
  import opened Replay
  import opened SessionLoop
  import opened SessionProgress
  import C = ConnectionReplay
  import D = SessionDrains

  // ---- the three kinds of frames the loop itself writes ---------------------------------------

  datatype Kind = Response | Order | Probe

  /** A pong or an error answers a frame; a message or a ping with an id obeys a command; any other ping is a probe. */
  function KindOf(o: Outgoing): Kind {
    if o.body.Pong? || o.body.ErrorMessage? then Response
    else if o.body.Ping? && o.messageId.None? then Probe
    else Order
  }

  function Of(kind: Kind, outs: seq<Outgoing>): seq<Outgoing> {
    if outs == [] then []
    else
      var rest := Of(kind, outs[..|outs| - 1]);
      if KindOf(outs[|outs| - 1]) == kind then rest + [outs[|outs| - 1]] else rest
  }

  lemma OfAppend(kind: Kind, outs: seq<Outgoing>, o: Outgoing)
    ensures Of(kind, outs + [o]) == Of(kind, outs) + if KindOf(o) == kind then [o] else []
  {
    assert (outs + [o])[..|outs|] == outs;
  }

  /** What the loop is about to queue. */
  function Pend(kind: Kind, s: Loop): seq<Outgoing> {
    if s.dispatch.Sending? && KindOf(s.dispatch.out) == kind then [s.dispatch.out] else []
  }

  /** All of one kind that the loop has decided to write. */
  function Decided(kind: Kind, s: Loop): seq<Outgoing> {
    Of(kind, s.writesIn) + Pend(kind, s)
  }

  /** A step of the loop that neither takes a frame or a command nor probes. */
  predicate IsPlain(e: Event) {
    !e.TakeInbound? && !e.TakeCommand? && !e.TickProbe?
  }

  /** Most of them leave the loop's own frames alone. */
  lemma PlainKeeps(c: Setup, s: Loop, e: Event)
    requires Enabled(s, e) && IsPlain(e) && !e.Enqueue?
    ensures var s' := Step(c, s, e);
            && s'.seen == s.seen && s'.writesIn == s.writesIn
            && (s'.dispatch.Over? || s'.dispatch == s.dispatch || (!s'.dispatch.Sending? && !s.dispatch.Sending?))
  {
  }

  lemma EnqueueDecides(c: Setup, s: Loop, kind: Kind)
    requires Enabled(s, Enqueue)
    ensures var s' := Step(c, s, Enqueue);
            && s'.seen == s.seen && Of(kind, s'.writesIn) <= Decided(kind, s)
            && (!s'.dispatch.Over? ==> Decided(kind, s') == Decided(kind, s))
  {
    OfAppend(kind, s.writesIn, s.dispatch.out);
  }

  lemma PlainDecides(c: Setup, s: Loop, e: Event, kind: Kind)
    requires Enabled(s, e) && IsPlain(e)
    ensures var s' := Step(c, s, e);
            && s'.seen == s.seen && Of(kind, s'.writesIn) <= Decided(kind, s)
            && (!s'.dispatch.Over? ==> Decided(kind, s') == Decided(kind, s))
  {
    if e.Enqueue? {
      EnqueueDecides(c, s, kind);
    } else {
      PlainKeeps(c, s, e);
    }
  }

  // ---- responses ------------------------------------------------------------------------------

  /** A ping is answered with its payload, and a message of a capability that was not negotiated with an error. */
  function ResponseTo(c: Setup, i: Item): seq<Outgoing> {
    if !i.Frame? then []
    else match i.envelope.body
      case Ping(payload) => [Outgoing(Request, Pong(payload), None, i.envelope.messageId)]
      case CapabilityMessage(capability, _) =>
        if capability in c.negotiated then []
        else [Outgoing(Request, ErrorMessage(ERROR_UNSUPPORTED_CAPABILITY, false), None, i.envelope.messageId)]
      case _ => []
  }

  function ResponsesTo(c: Setup, items: seq<Item>): seq<Outgoing> {
    if items == [] then [] else ResponsesTo(c, items[..|items| - 1]) + ResponseTo(c, items[|items| - 1])
  }

  lemma ResponsesAppend(c: Setup, items: seq<Item>, i: Item)
    ensures ResponsesTo(c, items + [i]) == ResponsesTo(c, items) + ResponseTo(c, i)
  {
    assert (items + [i])[..|items|] == items;
  }

  ghost predicate Responds(c: Setup, s: Loop) {
    && Of(Response, s.writesIn) <= ResponsesTo(c, s.seen)
    && (!s.dispatch.Over? ==> Decided(Response, s) == ResponsesTo(c, s.seen))
  }

  lemma BodyResponds(c: Setup, s: Loop, e: Envelope, replies: seq<Message>)
    requires s.dispatch.Idle?
    ensures var s' := OnBody(c, s, e, replies);
            && s'.writesIn == s.writesIn && s'.seen == s.seen && s'.capsIn == s.capsIn && Pend(Probe, s') == [] && Pend(Order, s') == []
            && (!s'.dispatch.Over? ==> Pend(Response, s') == ResponseTo(c, Frame(e)))
  {
  }

  /** One frame that is taken: what the loop decides to write is the response to it. */
  lemma ItemResponds(c: Setup, s: Loop, item: Item, replies: seq<Message>)
    requires s.dispatch.Idle?
    ensures var s' := OnItem(c, s, item, replies);
            && s'.writesIn == s.writesIn && s'.seen == s.seen && s'.capsIn == s.capsIn && Pend(Probe, s') == [] && Pend(Order, s') == []
            && (!s'.dispatch.Over? ==> Pend(Response, s') == ResponseTo(c, item))
  {
    if item.Frame? {
      BodyResponds(c, s.(guard := Admit(s.guard, item.envelope).1), item.envelope, replies);
    }
  }

  lemma InboundResponds(c: Setup, s: Loop, replies: seq<Message>)
    requires Responds(c, s) && Enabled(s, TakeInbound(replies))
    ensures Responds(c, Step(c, s, TakeInbound(replies)))
  {
    ItemResponds(c, Received(s), s.inbound[0], replies);
    ResponsesAppend(c, s.seen, s.inbound[0]);
    assert Decided(Response, s) == Of(Response, s.writesIn);
  }

  lemma TurnDecides(c: Setup, s: Loop, e: Event)
    requires Enabled(s, e) && (e.TakeCommand? || e.TickProbe?)
    ensures var s' := Step(c, s, e); s'.seen == s.seen && s'.writesIn == s.writesIn && Pend(Response, s') == []
  {
  }

  lemma StepResponds(c: Setup, s: Loop, e: Event)
    requires Responds(c, s) && Enabled(s, e)
    ensures Responds(c, Step(c, s, e))
  {
    if e.TakeInbound? {
      InboundResponds(c, s, e.replies);
    } else if IsPlain(e) {
      PlainDecides(c, s, e, Response);
    } else {
      TurnDecides(c, s, e);
      assert Decided(Response, Step(c, s, e)) == Decided(Response, s);
    }
  }

  lemma {:induction false} RunResponds(c: Setup, greetings: seq<Message>, es: seq<Event>)
    ensures Responds(c, After(c, greetings, es))
  {
    if es != [] {
      RunResponds(c, greetings, es[..|es| - 1]);
      var s, e := After(c, greetings, es[..|es| - 1]), es[|es| - 1];
      if Enabled(s, e) {
        StepResponds(c, s, e);
      }
    }
  }

  // ---- what the events of a run ask for -------------------------------------------------------

  /** The step takes a frame that is admitted and that a handler wants. */
  predicate Handles(c: Setup, s: Loop, e: Event) {
    && Enabled(s, e) && e.TakeInbound? && IsWanted(c, s.inbound[0])
    && s.inbound[0].envelope.version == c.version && Admit(s.guard, s.inbound[0].envelope).0 == None
  }

  /** The greetings, and what the handlers answered to each message they were given, in order. */
  function Replied(c: Setup, greetings: seq<Message>, es: seq<Event>): seq<Message> {
    if es == [] then greetings
    else
      var front, e := es[..|es| - 1], es[|es| - 1];
      Replied(c, greetings, front) + if Handles(c, After(c, greetings, front), e) then e.replies else []
  }

  /** What capabilities sent of their own accord. */
  function Volunteered(c: Setup, greetings: seq<Message>, es: seq<Event>): seq<Message> {
    if es == [] then []
    else
      var front, e := es[..|es| - 1], es[|es| - 1];
      Volunteered(c, greetings, front) + if e.OutsideSend? && Enabled(After(c, greetings, front), e) then [e.message] else []
  }

  /** The payloads of the probes that ticks asked for. */
  function Probed(c: Setup, greetings: seq<Message>, es: seq<Event>): seq<Bytes> {
    if es == [] then []
    else
      var front, e := es[..|es| - 1], es[|es| - 1];
      Probed(c, greetings, front) + if e.TickProbe? && Enabled(After(c, greetings, front), e) then [e.payload] else []
  }

  function Submitted(c: Setup, greetings: seq<Message>, es: seq<Event>): seq<Command> {
    if es == [] then []
    else
      var front, e := es[..|es| - 1], es[|es| - 1];
      Submitted(c, greetings, front) + if e.Submit? && Enabled(After(c, greetings, front), e) then [e.command] else []
  }

  function OfProbes(payloads: seq<Bytes>): (r: seq<Outgoing>)
    ensures |r| == |payloads| && forall i :: 0 <= i < |payloads| ==> r[i] == Outgoing(Request, Ping(payloads[i]), None, [])
  {
    seq(|payloads|, i requires 0 <= i < |payloads| => Outgoing(Request, Ping(payloads[i]), None, []))
  }

  /** The frame carries the command out. */
  predicate Obeys(o: Outgoing, command: Command) {
    match command
    case PingPeer => o.origin == Request && o.body.Ping? && o.messageId.Some? && o.correlationId == []
    case SendCapability(m) => o == OfMessage(Request, m)
    case Shutdown => false
  }

  ghost predicate ObeysAll(outs: seq<Outgoing>, commands: seq<Command>) {
    |outs| <= |commands| && forall i :: 0 <= i < |outs| ==> Obeys(outs[i], commands[i])
  }

  // ---- replies --------------------------------------------------------------------------------

  lemma OfMessagesConcat(origin: Origin, a: seq<Message>, b: seq<Message>)
    ensures OfMessages(origin, a + b) == OfMessages(origin, a) + OfMessages(origin, b)
  {
  }

  lemma StepPromises(c: Setup, s: Loop, e: Event)
    requires Enabled(s, e)
    ensures Step(c, s, e).promised == s.promised + OfMessages(Handler, if Handles(c, s, e) then e.replies else [])
  {
    if e.TakeInbound? && s.inbound[0].Frame? {
      var envelope := s.inbound[0].envelope;
      var admitted := Received(s).(guard := Admit(s.guard, envelope).1);
      assert OnBody(c, admitted, envelope, e.replies).promised
             == s.promised + OfMessages(Handler, if IsWanted(c, s.inbound[0]) then e.replies else []);
    }
  }

  lemma {:induction false} PromisedIsReplied(c: Setup, greetings: seq<Message>, es: seq<Event>)
    ensures After(c, greetings, es).promised == OfMessages(Handler, Replied(c, greetings, es))
  {
    if es != [] {
      var front, e := es[..|es| - 1], es[|es| - 1];
      PromisedIsReplied(c, greetings, front);
      var s := After(c, greetings, front);
      if Enabled(s, e) {
        StepPromises(c, s, e);
      }
      OfMessagesConcat(Handler, Replied(c, greetings, front), if Handles(c, s, e) then e.replies else []);
    }
  }

  // ---- messages from capabilities -------------------------------------------------------------

  lemma OthersVolunteerNothing(c: Setup, s: Loop, e: Event)
    requires Enabled(s, e) && !e.OutsideSend? && !e.HandlerSends?
    ensures Step(c, s, e).capsIn == s.capsIn
  {
    if e.TakeInbound? {
      ItemResponds(c, Received(s), s.inbound[0], e.replies);
    }
  }

  lemma HandlerVolunteersNothing(c: Setup, s: Loop)
    requires Enabled(s, HandlerSends) && Origins(s)
    ensures By(Outside, Step(c, s, HandlerSends).capsIn) == By(Outside, s.capsIn)
  {
    ByAppend(Outside, s.capsIn, s.dispatch.replies[0]);
  }

  lemma OutsideVolunteers(c: Setup, s: Loop, m: Message)
    requires Enabled(s, OutsideSend(m))
    ensures By(Outside, Step(c, s, OutsideSend(m)).capsIn) == By(Outside, s.capsIn) + [OfMessage(Outside, m)]
  {
    ByAppend(Outside, s.capsIn, OfMessage(Outside, m));
  }

  lemma StepVolunteers(c: Setup, s: Loop, e: Event)
    requires Enabled(s, e) && Origins(s)
    ensures By(Outside, Step(c, s, e).capsIn) == By(Outside, s.capsIn) + if e.OutsideSend? then [OfMessage(Outside, e.message)] else []
  {
    if e.OutsideSend? {
      OutsideVolunteers(c, s, e.message);
    } else if e.HandlerSends? {
      HandlerVolunteersNothing(c, s);
    } else {
      OthersVolunteerNothing(c, s, e);
    }
  }

  lemma {:induction false} OutsideIsVolunteered(c: Setup, greetings: seq<Message>, es: seq<Event>)
    ensures By(Outside, After(c, greetings, es).capsIn) == OfMessages(Outside, Volunteered(c, greetings, es))
  {
    if es != [] {
      var front, e := es[..|es| - 1], es[|es| - 1];
      OutsideIsVolunteered(c, greetings, front);
      RunKeepsInv(c, greetings, front);
      var s := After(c, greetings, front);
      var more := if e.OutsideSend? && Enabled(s, e) then [e.message] else [];
      if Enabled(s, e) {
        StepVolunteers(c, s, e);
      }
      OfMessagesConcat(Outside, Volunteered(c, greetings, front), more);
    }
  }

  // ---- probes ---------------------------------------------------------------------------------

  ghost predicate ProbesAre(s: Loop, payloads: seq<Bytes>) {
    && Of(Probe, s.writesIn) <= OfProbes(payloads)
    && (!s.dispatch.Over? ==> Decided(Probe, s) == OfProbes(payloads))
  }

  lemma StepProbes(c: Setup, s: Loop, e: Event, payloads: seq<Bytes>)
    requires ProbesAre(s, payloads) && Enabled(s, e)
    ensures ProbesAre(Step(c, s, e), payloads + if e.TickProbe? then [e.payload] else [])
  {
    var s' := Step(c, s, e);
    if e.TickProbe? {
      assert Pend(Probe, s') == [Outgoing(Request, Ping(e.payload), None, [])];
      assert Decided(Probe, s) == Of(Probe, s.writesIn);
    } else {
      assert payloads + [] == payloads;
      if IsPlain(e) {
        PlainDecides(c, s, e, Probe);
      } else {
        if e.TakeInbound? {
          ItemResponds(c, Received(s), s.inbound[0], e.replies);
        }
        assert Decided(Probe, s') == Decided(Probe, s) == Of(Probe, s.writesIn);
      }
    }
  }

  lemma {:induction false} ProbesAreProbed(c: Setup, greetings: seq<Message>, es: seq<Event>)
    ensures ProbesAre(After(c, greetings, es), Probed(c, greetings, es))
  {
    if es != [] {
      var front, e := es[..|es| - 1], es[|es| - 1];
      ProbesAreProbed(c, greetings, front);
      if Enabled(After(c, greetings, front), e) {
        StepProbes(c, After(c, greetings, front), e, Probed(c, greetings, front));
      } else {
        assert Probed(c, greetings, es) == Probed(c, greetings, front);
      }
    }
  }

  // ---- commands -------------------------------------------------------------------------------

  ghost predicate Obeying(s: Loop, commands: seq<Command>) {
    && ObeysAll(Of(Order, s.writesIn), commands)
    && (!s.dispatch.Over? ==>
          && |Decided(Order, s)| + |s.commands| == |commands|
          && ObeysAll(Decided(Order, s), commands) && s.commands == commands[|Decided(Order, s)|..])
  }

  lemma ObeysLonger(outs: seq<Outgoing>, commands: seq<Command>, more: seq<Command>)
    requires ObeysAll(outs, commands)
    ensures ObeysAll(outs, commands + more)
  {
  }

  lemma SubmitObeys(s: Loop, commands: seq<Command>, command: Command)
    requires Obeying(s, commands) && !s.dispatch.Over?
    ensures Obeying(s.(commands := s.commands + [command]), commands + [command])
  {
    var s' := s.(commands := s.commands + [command]);
    ObeysLonger(Of(Order, s.writesIn), commands, [command]);
    ObeysLonger(Decided(Order, s), commands, [command]);
    assert Decided(Order, s') == Decided(Order, s);
  }

  lemma CommandObeys(c: Setup, s: Loop, e: Event, commands: seq<Command>)
    requires Obeying(s, commands) && Enabled(s, e) && e.TakeCommand?
    ensures Obeying(Step(c, s, e), commands)
  {
    var s', n := Step(c, s, e), |Decided(Order, s)|;
    assert Decided(Order, s) == Of(Order, s.writesIn) && s'.writesIn == s.writesIn;
    assert s.commands[0] == commands[n];
    if !s'.dispatch.Over? {
      assert Pend(Order, s') == [s'.dispatch.out] && Obeys(s'.dispatch.out, commands[n]);
      assert Decided(Order, s') == Decided(Order, s) + [s'.dispatch.out];
      assert s.commands[1..] == commands[n + 1..];
    }
  }

  lemma PlainObeys(c: Setup, s: Loop, e: Event, commands: seq<Command>)
    requires Obeying(s, commands) && Enabled(s, e) && IsPlain(e) && !e.Submit?
    ensures Obeying(Step(c, s, e), commands)
  {
    PlainDecides(c, s, e, Order);
    assert !Step(c, s, e).dispatch.Over? ==> Step(c, s, e).commands == s.commands;
  }

  lemma InboundObeys(c: Setup, s: Loop, replies: seq<Message>, commands: seq<Command>)
    requires Obeying(s, commands) && Enabled(s, TakeInbound(replies))
    ensures Obeying(Step(c, s, TakeInbound(replies)), commands)
  {
    ItemResponds(c, Received(s), s.inbound[0], replies);
    ItemKeepsQueues(c, Received(s), s.inbound[0], replies);
    assert Decided(Order, Step(c, s, TakeInbound(replies))) == Decided(Order, s);
  }

  lemma StepObeys(c: Setup, s: Loop, e: Event, commands: seq<Command>)
    requires Obeying(s, commands) && Enabled(s, e)
    ensures Obeying(Step(c, s, e), commands + if e.Submit? then [e.command] else [])
  {
    assert commands + [] == commands;
    if e.Submit? {
      SubmitObeys(s, commands, e.command);
    } else if e.TakeCommand? {
      CommandObeys(c, s, e, commands);
    } else if e.TakeInbound? {
      InboundObeys(c, s, e.replies, commands);
    } else if e.TickProbe? {
      assert Decided(Order, Step(c, s, e)) == Decided(Order, s);
    } else {
      PlainObeys(c, s, e, commands);
    }
  }

  lemma {:induction false} RunObeys(c: Setup, greetings: seq<Message>, es: seq<Event>)
    ensures Obeying(After(c, greetings, es), Submitted(c, greetings, es))
  {
    if es != [] {
      var front, e := es[..|es| - 1], es[|es| - 1];
      RunObeys(c, greetings, front);
      if Enabled(After(c, greetings, front), e) {
        StepObeys(c, After(c, greetings, front), e, Submitted(c, greetings, front));
      } else {
        assert Submitted(c, greetings, es) == Submitted(c, greetings, front);
      }
    }
  }

  // ---- to the wire ----------------------------------------------------------------------------

  lemma {:induction false} OfPrefix(kind: Kind, a: seq<Outgoing>, b: seq<Outgoing>)
    requires a <= b
    ensures Of(kind, a) <= Of(kind, b)
  {
    if a < b {
      OfPrefix(kind, a, b[..|b| - 1]);
    } else {
      assert a == b;
    }
  }

  lemma {:induction false} OutsideInLane(outs: seq<Outgoing>)
    ensures By(Outside, Lane(true, outs)) == By(Outside, outs)
  {
    if outs != [] {
      var front, last := outs[..|outs| - 1], outs[|outs| - 1];
      OutsideInLane(front);
      if !last.origin.Request? {
        ByAppend(Outside, Lane(true, front), last);
      }
    }
  }

  /** The frames of one kind that the loop itself has put on the wire. */
  function Wrote(kind: Kind, s: Loop): seq<Outgoing> {
    Of(kind, Lane(false, Outs(s.wire)))
  }

  lemma {:induction false} ResponsesOfPrefix(c: Setup, a: seq<Item>, b: seq<Item>)
    ensures ResponsesTo(c, a) <= ResponsesTo(c, a + b)
  {
    if b == [] {
      assert a + b == a;
    } else {
      ResponsesOfPrefix(c, a, b[..|b| - 1]);
      ResponsesAppend(c, a + b[..|b| - 1], b[|b| - 1]);
      assert a + b == a + b[..|b| - 1] + [b[|b| - 1]];
    }
  }

  lemma WroteWasDecided(c: Setup, s: Loop, kind: Kind)
    requires Conserved(s)
    ensures Wrote(kind, s) <= Of(kind, s.writesIn)
  {
    OfPrefix(kind, Lane(false, Outs(s.wire)), s.writesIn);
  }

  lemma WroteResponses(c: Setup, s: Loop)
    requires Conserved(s) && InOrder(c, s) && Responds(c, s)
    ensures Wrote(Response, s) <= ResponsesTo(c, s.arrived)
  {
    WroteWasDecided(c, s, Response);
    assert s.arrived == s.seen + (s.inbound + s.arriving);
    ResponsesOfPrefix(c, s.seen, s.inbound + s.arriving);
  }

  lemma WroteOrders(c: Setup, s: Loop, commands: seq<Command>)
    requires Conserved(s) && Obeying(s, commands)
    ensures ObeysAll(Wrote(Order, s), commands)
  {
    WroteWasDecided(c, s, Order);
  }

  lemma WroteProbes(c: Setup, s: Loop, payloads: seq<Bytes>)
    requires Conserved(s) && ProbesAre(s, payloads)
    ensures Wrote(Probe, s) <= OfProbes(payloads)
  {
    WroteWasDecided(c, s, Probe);
  }

  /**
   In every run, ended or not: what the loop has written are responses to frames that arrived, in their
   order, what commands asked for, in theirs, and probes that ticks asked for, and nothing else.
   */
  lemma NothingUnasked(c: Setup, greetings: seq<Message>, es: seq<Event>)
    ensures var s := After(c, greetings, es);
            && Wrote(Response, s) <= ResponsesTo(c, s.arrived)
            && ObeysAll(Wrote(Order, s), Submitted(c, greetings, es))
            && Wrote(Probe, s) <= OfProbes(Probed(c, greetings, es))
  {
    var s := After(c, greetings, es);
    RunKeepsInv(c, greetings, es);
    RunResponds(c, greetings, es);
    WroteResponses(c, s);
    RunObeys(c, greetings, es);
    WroteOrders(c, s, Submitted(c, greetings, es));
    ProbesAreProbed(c, greetings, es);
    WroteProbes(c, s, Probed(c, greetings, es));
  }

  // ---- settling is running on -----------------------------------------------------------------

  /** The events a scheduler picks until the tasks stop. */
  ghost function Picks(c: Setup, pick: (nat, Loop) -> Event, n: nat, s: Loop): seq<Event>
    requires Schedules(pick)
    decreases Intake(s), Backlog(s)
  {
    if !Busy(s) then []
    else
      var e := pick(n, s);
      StepDescends(c, s, e);
      [e] + Picks(c, pick, n + 1, Step(c, s, e))
  }

  lemma {:induction false} PicksAreInternal(c: Setup, pick: (nat, Loop) -> Event, n: nat, s: Loop)
    requires Schedules(pick)
    ensures forall i :: 0 <= i < |Picks(c, pick, n, s)| ==> Internal(Picks(c, pick, n, s)[i])
    decreases Intake(s), Backlog(s)
  {
    if Busy(s) {
      StepDescends(c, s, pick(n, s));
      PicksAreInternal(c, pick, n + 1, Step(c, s, pick(n, s)));
    }
  }

  /** A state with more events after it. */
  function Play(c: Setup, s: Loop, xs: seq<Event>): Loop
    decreases |xs|
  {
    if xs == [] then s else Play(c, Next(c, s, xs[0]), xs[1..])
  }

  lemma {:induction false} PicksArePlayed(c: Setup, pick: (nat, Loop) -> Event, n: nat, s: Loop)
    requires Schedules(pick)
    ensures Settle(c, pick, n, s) == Play(c, s, Picks(c, pick, n, s))
    decreases Intake(s), Backlog(s)
  {
    if Busy(s) {
      var e := pick(n, s);
      StepDescends(c, s, e);
      PicksArePlayed(c, pick, n + 1, Step(c, s, e));
      assert Picks(c, pick, n, s)[1..] == Picks(c, pick, n + 1, Step(c, s, e));
    }
  }

  lemma {:induction false} PlayIsRun(c: Setup, greetings: seq<Message>, es: seq<Event>, xs: seq<Event>)
    ensures Play(c, After(c, greetings, es), xs) == After(c, greetings, es + xs)
    decreases |xs|
  {
    if xs == [] {
      assert es + xs == es;
    } else {
      D.RunStep(c, greetings, es, xs[0]);
      PlayIsRun(c, greetings, es + [xs[0]], xs[1..]);
      assert es + [xs[0]] + xs[1..] == es + xs;
    }
  }

  lemma SettleIsRun(c: Setup, greetings: seq<Message>, es: seq<Event>, pick: (nat, Loop) -> Event)
    requires Schedules(pick)
    ensures var s := After(c, greetings, es); Settle(c, pick, 0, s) == After(c, greetings, es + Picks(c, pick, 0, s))
  {
    var s := After(c, greetings, es);
    PicksArePlayed(c, pick, 0, s);
    PlayIsRun(c, greetings, es, Picks(c, pick, 0, s));
  }

  /** The tasks themselves submit nothing, volunteer nothing and probe nothing. */
  lemma {:induction false} InternalAsksNothing(c: Setup, greetings: seq<Message>, es: seq<Event>, xs: seq<Event>)
    requires forall i :: 0 <= i < |xs| ==> Internal(xs[i])
    ensures Submitted(c, greetings, es + xs) == Submitted(c, greetings, es)
    ensures Volunteered(c, greetings, es + xs) == Volunteered(c, greetings, es)
    ensures Probed(c, greetings, es + xs) == Probed(c, greetings, es)
  {
    if xs == [] {
      assert es + xs == es;
    } else {
      var front := xs[..|xs| - 1];
      InternalAsksNothing(c, greetings, es, front);
      assert (es + xs)[..|es + xs| - 1] == es + front && (es + xs)[|es + xs| - 1] == xs[|xs| - 1];
    }
  }

  // ---- the whole output -----------------------------------------------------------------------

  /** The wire of a session that is done with its work, in terms of what came in and what was asked. */
  ghost predicate Delivers(c: Setup, t: Loop, arrived: seq<Item>, replied: seq<Message>, volunteered: seq<Message>,
                           submitted: seq<Command>, probed: seq<Bytes>) {
    && By(Handler, Outs(t.wire)) == OfMessages(Handler, replied)
    && By(Outside, Outs(t.wire)) == OfMessages(Outside, volunteered)
    && Wrote(Response, t) == ResponsesTo(c, arrived)
    && |Wrote(Order, t)| == |submitted| && ObeysAll(Wrote(Order, t), submitted)
    && Wrote(Probe, t) == OfProbes(probed)
  }

  lemma DrainedDelivers(c: Setup, t: Loop, replied: seq<Message>, volunteered: seq<Message>, submitted: seq<Command>, probed: seq<Bytes>)
    requires Drained(c, t) && t.dispatch.Idle? && t.commands == []
    requires Responds(c, t) && Obeying(t, submitted) && ProbesAre(t, probed)
    requires t.promised == OfMessages(Handler, replied) && By(Outside, t.capsIn) == OfMessages(Outside, volunteered)
    ensures Delivers(c, t, t.arrived, replied, volunteered, submitted, probed)
  {
    OutsideInLane(Outs(t.wire));
    assert Decided(Response, t) == Of(Response, t.writesIn);
    assert Decided(Order, t) == Of(Order, t.writesIn);
    assert Decided(Probe, t) == Of(Probe, t.writesIn);
  }

  lemma QuietDelivers(c: Setup, greetings: seq<Message>, es: seq<Event>)
    requires Drained(c, After(c, greetings, es)) && !Busy(After(c, greetings, es)) && !After(c, greetings, es).dispatch.Over?
    ensures var t := After(c, greetings, es);
            Delivers(c, t, t.arrived, Replied(c, greetings, es), Volunteered(c, greetings, es), Submitted(c, greetings, es), Probed(c, greetings, es))
  {
    RunResponds(c, greetings, es);
    RunObeys(c, greetings, es);
    ProbesAreProbed(c, greetings, es);
    PromisedIsReplied(c, greetings, es);
    OutsideIsVolunteered(c, greetings, es);
    DrainedDelivers(c, After(c, greetings, es), Replied(c, greetings, es), Volunteered(c, greetings, es),
                    Submitted(c, greetings, es), Probed(c, greetings, es));
  }

  /**
   Every session that nothing ended, under every scheduler: when the tasks have done their work, the wire
   holds exactly the greetings and the handlers' answers, what capabilities sent, one pong for each ping
   and one error for each message nobody negotiated, what each command asked for, and the probes; each of
   these in order.
   */
  lemma SessionDelivers(c: Setup, prior: seq<Envelope>, greetings: seq<Message>, es: seq<Event>, pick: (nat, Loop) -> Event)
    requires Schedules(pick) && C.AllAdmitted(prior) && c.guard == GuardAfter(prior)
    requires !D.EndedFromOutside(c, greetings, es) && D.Welcome(c, prior, After(c, greetings, es).arrived)
    ensures var s := After(c, greetings, es);
            Delivers(c, Settle(c, pick, 0, s), s.arrived, Replied(c, greetings, es + Picks(c, pick, 0, s)),
                     Volunteered(c, greetings, es), Submitted(c, greetings, es), Probed(c, greetings, es))
  {
    var s := After(c, greetings, es);
    var xs := Picks(c, pick, 0, s);
    D.SessionEndsExactly(c, prior, greetings, es, pick);
    RunKeepsInv(c, greetings, es);
    SettleSettles(c, pick, 0, s);
    SettleIsRun(c, greetings, es, pick);
    PicksAreInternal(c, pick, 0, s);
    InternalAsksNothing(c, greetings, es, xs);
    QuietDelivers(c, greetings, es + xs);
  }

  // ---- who still waits for a pong -------------------------------------------------------------

  /** The step queues a ping that somebody waits for, under this id. */
  predicate QueuesPing(s: Loop, e: Event, id: Bytes) {
    && Enabled(s, e) && e.Enqueue? && !s.writer.Stopped?
    && s.dispatch.out.body.Ping? && s.dispatch.out.messageId == Some(id)
  }

  /** The step takes an admitted pong that answers it. */
  predicate TakesPong(c: Setup, s: Loop, e: Event, id: Bytes) {
    && Enabled(s, e) && e.TakeInbound? && s.inbound[0].Frame? && s.inbound[0].envelope.version == c.version
    && Admit(s.guard, s.inbound[0].envelope).0 == None
    && s.inbound[0].envelope.body.Pong? && s.inbound[0].envelope.correlationId == id
  }

  /** What the loop will remember is the id of the ping it is about to queue. */
  ghost predicate PingedIsSent(s: Loop) {
    s.dispatch.Sending? ==> s.dispatch.pinged == if s.dispatch.out.body.Ping? then s.dispatch.out.messageId else None
  }

  lemma ItemPings(c: Setup, s: Loop, item: Item, replies: seq<Message>)
    requires s.dispatch.Idle?
    ensures PingedIsSent(OnItem(c, s, item, replies))
  {
  }

  lemma StepPings(c: Setup, s: Loop, e: Event)
    requires PingedIsSent(s) && Enabled(s, e)
    ensures PingedIsSent(Step(c, s, e))
  {
    if e.TakeInbound? {
      ItemPings(c, Received(s), s.inbound[0], e.replies);
    }
  }

  lemma {:induction false} RunPings(c: Setup, greetings: seq<Message>, es: seq<Event>)
    ensures PingedIsSent(After(c, greetings, es))
  {
    if es != [] {
      RunPings(c, greetings, es[..|es| - 1]);
      var s, e := After(c, greetings, es[..|es| - 1]), es[|es| - 1];
      if Enabled(s, e) {
        StepPings(c, s, e);
      }
    }
  }

  predicate Supersedes(c: Setup, s: Loop, e: Event, id: Bytes) {
    TakesPong(c, s, e, id) || (Enabled(s, e) && e.Enqueue? && !s.writer.Stopped? && s.dispatch.out.body.Ping? && s.dispatch.out.messageId.Some?)
  }

  lemma AwaitedStep(c: Setup, s: Loop, e: Event, id: Bytes)
    requires PingedIsSent(s)
    ensures Next(c, s, e).pendingPing == Some(id) <==> QueuesPing(s, e, id) || (s.pendingPing == Some(id) && !Supersedes(c, s, e, id))
  {
    if e.TakeInbound? && Enabled(s, e) {
      ItemAnswers(c, Received(s), s.inbound[0], e.replies);
    }
  }

  /** Only an admitted pong touches what is remembered, and only its own. */
  lemma ItemAnswers(c: Setup, s: Loop, item: Item, replies: seq<Message>)
    ensures var answered := item.Frame? && item.envelope.version == c.version && Admit(s.guard, item.envelope).0 == None
                            && item.envelope.body.Pong? && s.pendingPing == Some(item.envelope.correlationId);
            OnItem(c, s, item, replies).pendingPing == if answered then None else s.pendingPing
  {
  }

  /** The state before event `i`. */
  ghost function At(c: Setup, greetings: seq<Message>, es: seq<Event>, i: nat): Loop
    requires i <= |es|
  {
    After(c, greetings, es[..i])
  }

  ghost predicate StandsSince(c: Setup, greetings: seq<Message>, es: seq<Event>, i: nat, n: nat, id: Bytes)
    requires i < n <= |es|
  {
    n == i + 1 || (StandsSince(c, greetings, es, i, n - 1, id) && !Supersedes(c, At(c, greetings, es, n - 1), es[n - 1], id))
  }

  /** Event `i` queued the ping, and nothing before event `n` answered or superseded it. */
  ghost predicate IsAwaited(c: Setup, greetings: seq<Message>, es: seq<Event>, i: nat, n: nat, id: Bytes) {
    i < n <= |es| && QueuesPing(At(c, greetings, es, i), es[i], id) && StandsSince(c, greetings, es, i, n, id)
  }

  lemma AwaitedAt(c: Setup, greetings: seq<Message>, es: seq<Event>, m: nat, n: nat, id: Bytes)
    requires m < n == m + 1 <= |es|
    ensures var s := At(c, greetings, es, m);
            At(c, greetings, es, n).pendingPing == Some(id)
            <==> QueuesPing(s, es[m], id) || (s.pendingPing == Some(id) && !Supersedes(c, s, es[m], id))
  {
    assert es[..n][..m] == es[..m];
    RunPings(c, greetings, es[..m]);
    AwaitedStep(c, At(c, greetings, es, m), es[m], id);
  }

  lemma IsAwaitedStep(c: Setup, greetings: seq<Message>, es: seq<Event>, i: nat, m: nat, n: nat, id: Bytes)
    requires i < m < n == m + 1 <= |es|
    ensures IsAwaited(c, greetings, es, i, n, id)
            <==> IsAwaited(c, greetings, es, i, m, id) && !Supersedes(c, At(c, greetings, es, m), es[m], id)
  {
  }

  lemma IsAwaitedAtOnce(c: Setup, greetings: seq<Message>, es: seq<Event>, m: nat, n: nat, id: Bytes)
    requires m < n == m + 1 <= |es|
    ensures IsAwaited(c, greetings, es, m, n, id) <==> QueuesPing(At(c, greetings, es, m), es[m], id)
  {
  }

  lemma {:induction false} AwaitedIsPending(c: Setup, greetings: seq<Message>, es: seq<Event>, i: nat, n: nat, id: Bytes)
    requires IsAwaited(c, greetings, es, i, n, id)
    ensures At(c, greetings, es, n).pendingPing == Some(id)
  {
    var m := n - 1;
    AwaitedAt(c, greetings, es, m, n, id);
    if m > i {
      IsAwaitedStep(c, greetings, es, i, m, n, id);
      AwaitedIsPending(c, greetings, es, i, m, id);
    }
  }

  lemma {:induction false} PendingIsAwaited(c: Setup, greetings: seq<Message>, es: seq<Event>, n: nat, id: Bytes) returns (i: nat)
    requires n <= |es| && At(c, greetings, es, n).pendingPing == Some(id)
    ensures IsAwaited(c, greetings, es, i, n, id)
  {
    var m := n - 1;
    AwaitedAt(c, greetings, es, m, n, id);
    if QueuesPing(At(c, greetings, es, m), es[m], id) {
      i := m;
      IsAwaitedAtOnce(c, greetings, es, m, n, id);
    } else {
      i := PendingIsAwaited(c, greetings, es, m, id);
      IsAwaitedStep(c, greetings, es, i, m, n, id);
    }
  }

  /** Over every run: a ping is waited for exactly from being queued until its own pong is admitted or another is queued. */
  lemma AwaitedExactly(c: Setup, greetings: seq<Message>, es: seq<Event>, id: Bytes)
    ensures After(c, greetings, es).pendingPing == Some(id) <==> exists i: nat :: IsAwaited(c, greetings, es, i, |es|, id)
  {
    var n := |es|;
    assert es[..n] == es;
    if At(c, greetings, es, n).pendingPing == Some(id) {
      var i := PendingIsAwaited(c, greetings, es, n, id);
    }
    forall i: nat | IsAwaited(c, greetings, es, i, n, id)
      ensures At(c, greetings, es, n).pendingPing == Some(id)
    {
      AwaitedIsPending(c, greetings, es, i, n, id);
    }
  }

  // ---- the ids, and the peer's guard ----------------------------------------------------------

  /** The id a frame taken from the front of a queue goes out under. */
  function IdFor(queue: seq<Outgoing>, id: Bytes): Bytes {
    if queue != [] && queue[0].messageId.Some? then queue[0].messageId.value else id
  }

  /** The ids of the frames the writer took, in order: a ping somebody waits for has its own, any other a fresh one. */
  function IdsGiven(c: Setup, greetings: seq<Message>, es: seq<Event>): seq<Bytes> {
    if es == [] then []
    else
      var front, e := es[..|es| - 1], es[|es| - 1];
      var s := After(c, greetings, front);
      IdsGiven(c, greetings, front)
      + if !Enabled(s, e) then []
        else if e.WriterTakesRequest? then [IdFor(s.writes, e.id)]
        else if e.WriterTakesMessage? then [IdFor(s.caps, e.id)]
        else []
  }

  function IdsOn(wire: seq<Written>): (r: seq<Bytes>)
    ensures |r| == |wire| && forall i :: 0 <= i < |wire| ==> r[i] == wire[i].envelope.messageId
  {
    seq(|wire|, i requires 0 <= i < |wire| => wire[i].envelope.messageId)
  }

  /** The ids on the wire, and of the frame in the writer's hand. */
  function IdsTaken(s: Loop): seq<Bytes> {
    IdsOn(s.wire) + if s.writer.Writing? then [s.writer.written.envelope.messageId] else []
  }

  ghost predicate IdsAre(s: Loop, ids: seq<Bytes>) {
    IdsOn(s.wire) <= ids && (!s.writer.Stopped? ==> IdsTaken(s) == ids)
  }

  /** Only the writer's steps touch what it has written or holds. */
  lemma OthersKeepWire(c: Setup, s: Loop, e: Event)
    requires Enabled(s, e) && !e.WriterTakesRequest? && !e.WriterTakesMessage? && !e.WriteDone? && !e.WriterStops? && !e.WriterDies?
    ensures Step(c, s, e).wire == s.wire && Step(c, s, e).writer == s.writer
  {
  }

  lemma StepIds(c: Setup, s: Loop, e: Event, ids: seq<Bytes>)
    requires IdsAre(s, ids) && Enabled(s, e)
    ensures IdsAre(Step(c, s, e), ids + if e.WriterTakesRequest? then [IdFor(s.writes, e.id)]
                                        else if e.WriterTakesMessage? then [IdFor(s.caps, e.id)]
                                        else [])
  {
    assert ids + [] == ids;
    if e.WriteDone? {
      assert IdsTaken(Step(c, s, e)) == IdsTaken(s);
    } else if !e.WriterTakesRequest? && !e.WriterTakesMessage? && !e.WriterStops? && !e.WriterDies? {
      OthersKeepWire(c, s, e);
    }
  }

  /** In every run the frames on the wire carry the ids they were given, in order. */
  lemma {:induction false} IdsAreGiven(c: Setup, greetings: seq<Message>, es: seq<Event>)
    ensures IdsAre(After(c, greetings, es), IdsGiven(c, greetings, es))
  {
    if es != [] {
      var front, e := es[..|es| - 1], es[|es| - 1];
      IdsAreGiven(c, greetings, front);
      if Enabled(After(c, greetings, front), e) {
        StepIds(c, After(c, greetings, front), e, IdsGiven(c, greetings, front));
      } else {
        assert IdsGiven(c, greetings, es) == IdsGiven(c, greetings, front);
      }
    }
  }

  function Envelopes(wire: seq<Written>): (r: seq<Envelope>)
    ensures |r| == |wire| && forall i :: 0 <= i < |wire| ==> r[i] == wire[i].envelope
  {
    seq(|wire|, i requires 0 <= i < |wire| => wire[i].envelope)
  }

  /** All ids are whole and none comes twice. */
  ghost predicate Unique(ids: seq<Bytes>) {
    Distinct(ids) && forall i :: 0 <= i < |ids| ==> |ids[i]| == MESSAGE_ID_LEN
  }

  function IdsIn(es: seq<Envelope>): (r: seq<Bytes>)
    ensures |r| == |es| && forall i :: 0 <= i < |es| ==> r[i] == es[i].messageId
  {
    seq(|es|, i requires 0 <= i < |es| => es[i].messageId)
  }

  lemma UniquePrefix(a: seq<Bytes>, b: seq<Bytes>, b': seq<Bytes>)
    requires Unique(a + b') && b <= b'
    ensures Unique(a + b)
  {
    assert a + b <= a + b';
  }

  lemma WireIsStamped(c: Setup, s: Loop, sent: seq<Envelope>)
    requires Stamps(c, s) && Stamped(sent, 0) && |sent| == c.start && Unique(IdsIn(sent) + IdsOn(s.wire))
    ensures Stamped(sent + Envelopes(s.wire), 0) && GoodIds(sent + Envelopes(s.wire))
  {
    var all, ids := sent + Envelopes(s.wire), IdsIn(sent) + IdsOn(s.wire);
    forall i | 0 <= i < |all|
      ensures all[i].messageId == ids[i] && all[i].sequence == i + 1
    {
      if i >= |sent| {
        assert StampedAs(c, s.wire[i - |sent|], c.start + 1 + (i - |sent|));
      }
    }
  }

  /**
   From this session to the other end of the connection: in every run, the peer's guard admits every frame
   on the wire after all that the handshake sent, if the random generator never repeats an id.
   */
  lemma PeerAdmitsTheWire(c: Setup, greetings: seq<Message>, es: seq<Event>, sent: seq<Envelope>)
    requires Stamped(sent, 0) && |sent| == c.start && Unique(IdsIn(sent) + IdsGiven(c, greetings, es))
    ensures C.AllAdmitted(sent + Envelopes(After(c, greetings, es).wire))
  {
    var s := After(c, greetings, es);
    RunKeepsInv(c, greetings, es);
    IdsAreGiven(c, greetings, es);
    UniquePrefix(IdsIn(sent), IdsOn(s.wire), IdsGiven(c, greetings, es));
    WireIsStamped(c, s, sent);
    var all := sent + Envelopes(s.wire);
    forall i: nat | i < |all|
      ensures AdmittedAt(all, i)
    {
      StampedPassesGuard(all, i);
    }
  }
}
