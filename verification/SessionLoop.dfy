/**
 The established session: reader, dispatch loop and writer over bounded queues.

 The three tasks interleave step by step. What the tasks do by themselves is `Internal`; frames
 arriving, commands, messages from capabilities outside a handler, ticks and a failing socket are
 not, and may come at any time. Every list a handler answers with is allowed.
 */
module SessionLoop {
  import opened Prelude
  import opened Protocol
  import opened Replay

  const INBOUND_QUEUE := 8
  const QUEUE := 32
  const MAX_PING_PAYLOAD := 64

  // ---- what moves through the queues ----------------------------------------------------------

  datatype Message = Message(capability: Text, payload: Bytes)

  /** Who a frame on its way out comes from: a handler, a capability outside one, or the loop itself. */
  datatype Origin = Handler | Outside | Request

  datatype Outgoing = Outgoing(origin: Origin, body: Body, messageId: Option<Bytes>, correlationId: Bytes)

  datatype Written = Written(out: Outgoing, envelope: Envelope)

  /** What the reader delivers: a frame, or the error it stops at. */
  datatype Item = Frame(envelope: Envelope) | Broken(clean: bool)

  datatype Command = PingPeer | SendCapability(message: Message) | Shutdown

  function OfMessage(origin: Origin, m: Message): Outgoing {
    Outgoing(origin, CapabilityMessage(m.capability, m.payload), None, [])
  }

  function OfMessages(origin: Origin, ms: seq<Message>): (r: seq<Outgoing>)
    ensures |r| == |ms| && forall i :: 0 <= i < |ms| ==> r[i] == OfMessage(origin, ms[i])
  {
    seq(|ms|, i requires 0 <= i < |ms| => OfMessage(origin, ms[i]))
  }

  // ---- the state ------------------------------------------------------------------------------

  /** Fixed at the handshake. `start` is the factory's sequence and `guard` the replay guard there. */
  datatype Setup = Setup(version: nat, negotiated: seq<Text>, registry: seq<Text>, start: nat, guard: Guard)

  /** `pinged` is the id to remember once a request is queued. */
  datatype Dispatch = Idle | Sending(out: Outgoing, pinged: Option<Bytes>) | Handling(replies: seq<Outgoing>) | Over(clean: bool)

  datatype Writer = Resting | Writing(written: Written) | Stopped(drained: bool)

  /**
   The queues and the tasks. The last six fields are history: everything that arrived, what the loop
   took of it, the messages it gave to handlers, what handlers answered, and what each of the two
   outbound queues accepted.
   */
  datatype Loop = Loop(
    arriving: seq<Item>,
    inbound: seq<Item>,
    commands: seq<Command>,
    writes: seq<Outgoing>,
    caps: seq<Outgoing>,
    dispatch: Dispatch,
    writer: Writer,
    closed: bool,
    guard: Guard,
    pendingPing: Option<Bytes>,
    sequence: nat,
    wire: seq<Written>,
    arrived: seq<Item>,
    seen: seq<Item>,
    dispatched: seq<Message>,
    promised: seq<Outgoing>,
    writesIn: seq<Outgoing>,
    capsIn: seq<Outgoing>)

  /** `greetings` is what the negotiated capabilities send when they are told of the peer. */
  function Opening(c: Setup, greetings: seq<Message>): Loop {
    var out := OfMessages(Handler, greetings);
    Loop([], [], [], [], [], Handling(out), Resting, false, c.guard, None, c.start, [], [], [], [], out, [], [])
  }

  datatype Event =
    // From outside.
    | Arrive(item: Item)
    | Submit(command: Command)
    | OutsideSend(message: Message)
    | TickProbe(payload: Bytes)
    | TickDead
    | WriterDies
    // What the tasks do.
    | ReadFrame
    | TakeInbound(replies: seq<Message>)
    | TakeCommand(id: Bytes, payload: Bytes)
    | Enqueue
    | HandlerSends
    | HandlerReturns
    | WriterTakesRequest(id: Bytes)
    | WriterTakesMessage(id: Bytes)
    | WriteDone
    | NoticeStopped
    | CloseWrites
    | WriterStops

  predicate Internal(e: Event) {
    !(e.Arrive? || e.Submit? || e.OutsideSend? || e.TickProbe? || e.TickDead? || e.WriterDies?)
  }

  predicate Enabled(s: Loop, e: Event) {
    match e
    case Arrive(_) => true
    case Submit(_) => !s.dispatch.Over? && |s.commands| < QUEUE
    case OutsideSend(_) => !s.writer.Stopped? && |s.caps| < QUEUE
    case TickProbe(_) | TickDead => s.dispatch.Idle? && s.inbound == [] && s.commands == [] && !s.writer.Stopped?
    case WriterDies => !s.writer.Stopped?
    case ReadFrame => !s.dispatch.Over? && s.arriving != [] && |s.inbound| < INBOUND_QUEUE
    case TakeInbound(_) => s.dispatch.Idle? && s.inbound != []
    case TakeCommand(_, _) => s.dispatch.Idle? && s.inbound == [] && s.commands != []
    case Enqueue => s.dispatch.Sending? && (s.writer.Stopped? || |s.writes| < QUEUE)
    case HandlerSends => s.dispatch.Handling? && s.dispatch.replies != [] && (s.writer.Stopped? || |s.caps| < QUEUE)
    case HandlerReturns => s.dispatch.Handling? && s.dispatch.replies == []
    case WriterTakesRequest(_) => s.writer.Resting? && s.writes != []
    case WriterTakesMessage(_) => s.writer.Resting? && s.caps != []
    case WriteDone => s.writer.Writing?
    case NoticeStopped => s.dispatch.Idle? && s.inbound == [] && s.commands == [] && s.writer.Stopped?
    case CloseWrites => s.dispatch.Over? && !s.closed
    case WriterStops => s.writer.Resting? && s.closed && s.writes == []
  }

  // ---- the dispatch loop ----------------------------------------------------------------------

  function Ask(s: Loop, body: Body, correlate: Bytes): Loop {
    s.(dispatch := Sending(Outgoing(Request, body, None, correlate), None))
  }

  /** One frame, after version and replay guard. */
  function OnBody(c: Setup, s: Loop, e: Envelope, replies: seq<Message>): Loop {
    match e.body
    case Ping(payload) => if |payload| > MAX_PING_PAYLOAD then s.(dispatch := Over(false)) else Ask(s, Pong(payload), e.messageId)
    case Pong(_) => if s.pendingPing == Some(e.correlationId) then s.(pendingPing := None) else s
    case CapabilityMessage(capability, payload) =>
      if capability !in c.negotiated then Ask(s, ErrorMessage(ERROR_UNSUPPORTED_CAPABILITY, false), e.messageId)
      else if capability !in c.registry then s
      else
        var out := OfMessages(Handler, replies);
        s.(dispatch := Handling(out), dispatched := s.dispatched + [Message(capability, payload)], promised := s.promised + out)
    case CapabilityAnnounce(_) => s
    case ErrorMessage(_, fatal) => if fatal then s.(dispatch := Over(false)) else s
    case _ => s.(dispatch := Over(false))
  }

  function OnItem(c: Setup, s: Loop, item: Item, replies: seq<Message>): Loop {
    match item
    case Broken(clean) => s.(dispatch := Over(clean))
    case Frame(e) =>
      if e.version != c.version then s.(dispatch := Over(false))
      else
        var (violation, guard) := Admit(s.guard, e);
        if violation.Some? then s.(dispatch := Over(false)) else OnBody(c, s.(guard := guard), e, replies)
  }

  function OnCommand(s: Loop, command: Command, id: Bytes, payload: Bytes): Loop {
    match command
    case Shutdown => s.(dispatch := Over(true))
    case PingPeer => s.(dispatch := Sending(Outgoing(Request, Ping(payload), Some(id), []), Some(id)))
    case SendCapability(m) => s.(dispatch := Sending(OfMessage(Request, m), None))
  }

  // ---- the writer -----------------------------------------------------------------------------

  /** The one place sequence numbers are given out. */
  function Stamp(c: Setup, s: Loop, out: Outgoing, id: Bytes): Loop {
    var messageId := if out.messageId.Some? then out.messageId.value else id;
    s.(writer := Writing(Written(out, Envelope(c.version, messageId, s.sequence + 1, out.correlationId, out.body))),
       sequence := s.sequence + 1)
  }

  function Step(c: Setup, s: Loop, e: Event): Loop
    requires Enabled(s, e)
  {
    match e
    case Arrive(item) =>
      if s.arrived != [] && s.arrived[|s.arrived| - 1].Broken? then s
      else s.(arriving := s.arriving + [item], arrived := s.arrived + [item])
    case Submit(command) => s.(commands := s.commands + [command])
    case OutsideSend(m) => s.(caps := s.caps + [OfMessage(Outside, m)], capsIn := s.capsIn + [OfMessage(Outside, m)])
    case TickProbe(payload) => Ask(s, Ping(payload), [])
    case TickDead => s.(dispatch := Over(false))
    case WriterDies => s.(writer := Stopped(false))
    case ReadFrame => s.(arriving := s.arriving[1..], inbound := s.inbound + [s.arriving[0]])
    case TakeInbound(replies) =>
      OnItem(c, s.(inbound := s.inbound[1..], seen := s.seen + [s.inbound[0]]), s.inbound[0], replies)
    case TakeCommand(id, payload) => OnCommand(s.(commands := s.commands[1..]), s.commands[0], id, payload)
    case Enqueue =>
      if s.writer.Stopped? then s.(dispatch := Over(true))
      else s.(dispatch := Idle, writes := s.writes + [s.dispatch.out], writesIn := s.writesIn + [s.dispatch.out],
              pendingPing := if s.dispatch.pinged.Some? then s.dispatch.pinged else s.pendingPing)
    case HandlerSends =>
      var rest := s.(dispatch := Handling(s.dispatch.replies[1..]));
      if s.writer.Stopped? then rest
      else rest.(caps := s.caps + [s.dispatch.replies[0]], capsIn := s.capsIn + [s.dispatch.replies[0]])
    case HandlerReturns => s.(dispatch := Idle)
    case WriterTakesRequest(id) => Stamp(c, s.(writes := s.writes[1..]), s.writes[0], id)
    case WriterTakesMessage(id) => Stamp(c, s.(caps := s.caps[1..]), s.caps[0], id)
    case WriteDone => s.(writer := Resting, wire := s.wire + [s.writer.written])
    case NoticeStopped => s.(dispatch := Over(s.writer.drained))
    case CloseWrites => s.(closed := true)
    case WriterStops => s.(writer := Stopped(true))
  }

  // ---- runs -----------------------------------------------------------------------------------

  /** A step that is not enabled does not happen. */
  function Next(c: Setup, s: Loop, e: Event): Loop {
    if Enabled(s, e) then Step(c, s, e) else s
  }

  function After(c: Setup, greetings: seq<Message>, es: seq<Event>): Loop {
    if es == [] then Opening(c, greetings) else Next(c, After(c, greetings, es[..|es| - 1]), es[|es| - 1])
  }

  // ---- what every reachable state satisfies ---------------------------------------------------

  function By(origin: Origin, outs: seq<Outgoing>): seq<Outgoing> {
    if outs == [] then []
    else
      var rest := By(origin, outs[..|outs| - 1]);
      if outs[|outs| - 1].origin == origin then rest + [outs[|outs| - 1]] else rest
  }

  /** The frames of one of the two outbound queues. */
  function Lane(messages: bool, outs: seq<Outgoing>): seq<Outgoing> {
    if outs == [] then []
    else
      var rest := Lane(messages, outs[..|outs| - 1]);
      if outs[|outs| - 1].origin.Request? != messages then rest + [outs[|outs| - 1]] else rest
  }

  function Outs(wire: seq<Written>): (r: seq<Outgoing>)
    ensures |r| == |wire| && forall i :: 0 <= i < |wire| ==> r[i] == wire[i].out
  {
    seq(|wire|, i requires 0 <= i < |wire| => wire[i].out)
  }

  /** Taken by the writer: on the wire or in its hand. */
  function Taken(s: Loop): seq<Outgoing> {
    Outs(s.wire) + if s.writer.Writing? then [s.writer.written.out] else []
  }

  function Unsent(s: Loop): seq<Outgoing> {
    if s.dispatch.Handling? then s.dispatch.replies else []
  }

  /** A message of a capability that was negotiated and is registered. */
  predicate IsWanted(c: Setup, i: Item) {
    && i.Frame? && i.envelope.body.CapabilityMessage?
    && i.envelope.body.capability in c.negotiated && i.envelope.body.capability in c.registry
  }

  /** The messages a handler must get out of what arrived, in order. */
  function Wanted(c: Setup, items: seq<Item>): seq<Message> {
    if items == [] then []
    else
      var rest, last := Wanted(c, items[..|items| - 1]), items[|items| - 1];
      if IsWanted(c, last) then rest + [Message(last.envelope.body.capability, last.envelope.body.payload)] else rest
  }

  ghost predicate StampedAs(c: Setup, w: Written, n: nat) {
    && w.envelope.version == c.version && w.envelope.sequence == n
    && w.envelope.body == w.out.body && w.envelope.correlationId == w.out.correlationId
    && (w.out.messageId.Some? ==> w.envelope.messageId == w.out.messageId.value)
  }

  ghost predicate Bounded(s: Loop) {
    |s.inbound| <= INBOUND_QUEUE && |s.commands| <= QUEUE && |s.writes| <= QUEUE && |s.caps| <= QUEUE
  }

  ghost predicate Stamps(c: Setup, s: Loop) {
    && (forall i :: 0 <= i < |s.wire| ==> StampedAs(c, s.wire[i], c.start + 1 + i))
    && (!s.writer.Stopped? ==> s.sequence == c.start + |Taken(s)|)
    && (s.writer.Writing? ==> StampedAs(c, s.writer.written, c.start + 1 + |s.wire|))
  }

  /** Nothing taken from a queue is lost, repeated or overtaken while the writer lives. */
  ghost predicate Conserved(s: Loop) {
    && (s.writer != Stopped(false) ==>
          && Lane(true, Taken(s)) + s.caps == s.capsIn
          && Lane(false, Taken(s)) + s.writes == s.writesIn
          && By(Handler, s.capsIn) + Unsent(s) == s.promised)
    && Lane(true, Outs(s.wire)) <= s.capsIn && Lane(false, Outs(s.wire)) <= s.writesIn && By(Handler, s.capsIn) <= s.promised
  }

  ghost predicate Origins(s: Loop) {
    && (forall i :: 0 <= i < |s.caps| ==> !s.caps[i].origin.Request?)
    && (forall i :: 0 <= i < |s.writes| ==> s.writes[i].origin.Request?)
    && (s.dispatch.Sending? ==> s.dispatch.out.origin.Request?)
    && (s.dispatch.Handling? ==> forall i :: 0 <= i < |s.dispatch.replies| ==> s.dispatch.replies[i].origin.Handler?)
  }

  ghost predicate InOrder(c: Setup, s: Loop) {
    && s.seen + s.inbound + s.arriving == s.arrived
    && s.dispatched <= Wanted(c, s.seen)
    && (!s.dispatch.Over? ==> s.dispatched == Wanted(c, s.seen))
  }

  ghost predicate Teardown(s: Loop) {
    && (s.closed ==> s.dispatch.Over?)
    && (s.writer == Stopped(true) ==> s.closed && s.writes == [])
  }

  ghost predicate Inv(c: Setup, s: Loop) {
    Bounded(s) && Stamps(c, s) && Origins(s) && Conserved(s) && InOrder(c, s) && Teardown(s)
  }

  // ---- every step keeps it --------------------------------------------------------------------

  lemma LaneAppend(messages: bool, outs: seq<Outgoing>, o: Outgoing)
    ensures Lane(messages, outs + [o]) == Lane(messages, outs) + if o.origin.Request? != messages then [o] else []
  {
    assert (outs + [o])[..|outs|] == outs;
  }

  lemma ByAppend(origin: Origin, outs: seq<Outgoing>, o: Outgoing)
    ensures By(origin, outs + [o]) == By(origin, outs) + if o.origin == origin then [o] else []
  {
    assert (outs + [o])[..|outs|] == outs;
  }

  lemma WantedAppend(c: Setup, items: seq<Item>, i: Item)
    ensures Wanted(c, items) <= Wanted(c, items + [i])
    ensures Wanted(c, items + [i])
            == Wanted(c, items) + if IsWanted(c, i) then [Message(i.envelope.body.capability, i.envelope.body.payload)] else []
  {
    assert (items + [i])[..|items|] == items;
  }

  /** The writer takes the front of one queue: the same frames, one step further. */
  lemma TakeFront(messages: bool, taken: seq<Outgoing>, queue: seq<Outgoing>, accepted: seq<Outgoing>)
    requires queue != [] && Lane(messages, taken) + queue == accepted && queue[0].origin.Request? != messages
    ensures Lane(messages, taken + [queue[0]]) + queue[1..] == accepted
    ensures Lane(!messages, taken + [queue[0]]) == Lane(!messages, taken)
  {
    LaneAppend(messages, taken, queue[0]);
    LaneAppend(!messages, taken, queue[0]);
    FrontMoves(Lane(messages, taken), queue);
  }

  lemma FrontMoves(before: seq<Outgoing>, queue: seq<Outgoing>)
    requires queue != []
    ensures before + [queue[0]] + queue[1..] == before + queue
  {
  }

  lemma TakenBy(c: Setup, s: Loop, out: Outgoing, id: Bytes)
    requires s.writer.Resting?
    ensures Taken(Stamp(c, s, out, id)) == Taken(s) + [out]
  {
  }

  lemma StampKeepsStamps(c: Setup, s: Loop, out: Outgoing, id: Bytes)
    requires Stamps(c, s) && s.writer.Resting?
    ensures Stamps(c, Stamp(c, s, out, id))
  {
    TakenBy(c, s, out, id);
  }

  lemma RequestTakenConserves(c: Setup, s: Loop, id: Bytes)
    requires Conserved(s) && Origins(s) && s.writer.Resting? && s.writes != []
    ensures Conserved(Stamp(c, s.(writes := s.writes[1..]), s.writes[0], id))
  {
    var s1 := s.(writes := s.writes[1..]);
    TakeFront(false, Taken(s), s.writes, s.writesIn);
    TakenBy(c, s1, s.writes[0], id);
    assert Taken(s1) == Taken(s);
  }

  lemma MessageTakenConserves(c: Setup, s: Loop, id: Bytes)
    requires Conserved(s) && Origins(s) && s.writer.Resting? && s.caps != []
    ensures Conserved(Stamp(c, s.(caps := s.caps[1..]), s.caps[0], id))
  {
    var s1 := s.(caps := s.caps[1..]);
    TakeFront(true, Taken(s), s.caps, s.capsIn);
    TakenBy(c, s1, s.caps[0], id);
    assert Taken(s1) == Taken(s);
  }

  lemma QueueStamps(c: Setup, s: Loop, writes: seq<Outgoing>, caps: seq<Outgoing>)
    requires Stamps(c, s)
    ensures Stamps(c, s.(writes := writes, caps := caps))
  {
    assert Taken(s.(writes := writes, caps := caps)) == Taken(s);
  }

  lemma RequestTakenKeepsInv(c: Setup, s: Loop, id: Bytes)
    requires Inv(c, s) && s.writer.Resting? && s.writes != []
    ensures Inv(c, Stamp(c, s.(writes := s.writes[1..]), s.writes[0], id))
  {
    RequestTakenConserves(c, s, id);
    QueueStamps(c, s, s.writes[1..], s.caps);
    StampKeepsStamps(c, s.(writes := s.writes[1..], caps := s.caps), s.writes[0], id);
  }

  lemma MessageTakenKeepsInv(c: Setup, s: Loop, id: Bytes)
    requires Inv(c, s) && s.writer.Resting? && s.caps != []
    ensures Inv(c, Stamp(c, s.(caps := s.caps[1..]), s.caps[0], id))
  {
    MessageTakenConserves(c, s, id);
    QueueStamps(c, s, s.writes, s.caps[1..]);
    StampKeepsStamps(c, s.(writes := s.writes, caps := s.caps[1..]), s.caps[0], id);
  }

  lemma WriterTakesKeepsInv(c: Setup, s: Loop, e: Event)
    requires Inv(c, s) && Enabled(s, e) && (e.WriterTakesRequest? || e.WriterTakesMessage?)
    ensures Inv(c, Step(c, s, e))
  {
    if e.WriterTakesRequest? {
      RequestTakenKeepsInv(c, s, e.id);
    } else {
      MessageTakenKeepsInv(c, s, e.id);
    }
  }

  /** What the outbound side of a state is about. */
  ghost predicate SameOutbound(s: Loop, s': Loop) {
    && s'.wire == s.wire && s'.writer == s.writer && s'.sequence == s.sequence
    && s'.caps == s.caps && s'.writes == s.writes && s'.capsIn == s.capsIn && s'.writesIn == s.writesIn
    && s'.promised == s.promised && Unsent(s') == Unsent(s)
  }

  lemma OutboundKept(c: Setup, s: Loop, s': Loop)
    requires Stamps(c, s) && Conserved(s) && SameOutbound(s, s')
    ensures Stamps(c, s') && Conserved(s')
  {
    assert Taken(s') == Taken(s);
  }

  lemma WriteDoneConserves(s: Loop)
    requires Conserved(s) && s.writer.Writing?
    ensures Conserved(s.(writer := Resting, wire := s.wire + [s.writer.written]))
  {
    var s' := s.(writer := Resting, wire := s.wire + [s.writer.written]);
    assert Taken(s') == Taken(s) == Outs(s'.wire);
  }

  lemma WriteDoneStamps(c: Setup, s: Loop)
    requires Stamps(c, s) && s.writer.Writing?
    ensures Stamps(c, s.(writer := Resting, wire := s.wire + [s.writer.written]))
  {
  }

  lemma WriteDoneKeepsInv(c: Setup, s: Loop)
    requires Inv(c, s) && s.writer.Writing?
    ensures Inv(c, Step(c, s, WriteDone))
  {
    WriteDoneConserves(s);
    WriteDoneStamps(c, s);
  }

  lemma WriterEndsKeepsInv(c: Setup, s: Loop, e: Event)
    requires Inv(c, s) && Enabled(s, e) && (e.WriterStops? || e.WriterDies?)
    ensures Inv(c, Step(c, s, e))
  {
    assert e.WriterStops? ==> Taken(s) == Taken(Step(c, s, e));
  }

  /** A message joins the queue: the stamps are as they were. */
  lemma QueuedStamps(c: Setup, s: Loop, s': Loop)
    requires Stamps(c, s) && s'.wire == s.wire && s'.writer == s.writer && s'.sequence == s.sequence
    ensures Stamps(c, s') && Taken(s') == Taken(s)
  {
  }

  lemma JoinsQueue(before: seq<Outgoing>, queue: seq<Outgoing>, o: Outgoing, accepted: seq<Outgoing>)
    requires before + queue == accepted
    ensures before + (queue + [o]) == accepted + [o]
  {
  }

  lemma ReplyQueuedConserves(s: Loop)
    requires Conserved(s) && Origins(s) && s.dispatch.Handling? && s.dispatch.replies != [] && !s.writer.Stopped?
    ensures var replies := s.dispatch.replies;
            Conserved(s.(dispatch := Handling(replies[1..]), caps := s.caps + [replies[0]], capsIn := s.capsIn + [replies[0]]))
  {
    var replies := s.dispatch.replies;
    var s' := s.(dispatch := Handling(replies[1..]), caps := s.caps + [replies[0]], capsIn := s.capsIn + [replies[0]]);
    ByAppend(Handler, s.capsIn, replies[0]);
    FrontMoves(By(Handler, s.capsIn), replies);
    assert Taken(s') == Taken(s);
    JoinsQueue(Lane(true, Taken(s)), s.caps, replies[0], s.capsIn);
  }

  lemma ReplyQueuedKeepsInv(c: Setup, s: Loop)
    requires Inv(c, s) && s.dispatch.Handling? && s.dispatch.replies != [] && !s.writer.Stopped? && |s.caps| < QUEUE
    ensures var replies := s.dispatch.replies;
            Inv(c, s.(dispatch := Handling(replies[1..]), caps := s.caps + [replies[0]], capsIn := s.capsIn + [replies[0]]))
  {
    var replies := s.dispatch.replies;
    ReplyQueuedConserves(s);
    QueuedStamps(c, s, s.(dispatch := Handling(replies[1..]), caps := s.caps + [replies[0]], capsIn := s.capsIn + [replies[0]]));
  }

  lemma ReplyLostKeepsInv(c: Setup, s: Loop)
    requires Inv(c, s) && s.dispatch.Handling? && s.dispatch.replies != [] && s.writer.Stopped?
    ensures Inv(c, s.(dispatch := Handling(s.dispatch.replies[1..])))
  {
    assert s.writer == Stopped(false);
  }

  lemma HandlerKeepsInv(c: Setup, s: Loop, e: Event)
    requires Inv(c, s) && Enabled(s, e) && (e.HandlerSends? || e.HandlerReturns?)
    ensures Inv(c, Step(c, s, e))
  {
    if e.HandlerReturns? {
      OutboundKept(c, s, s.(dispatch := Idle));
    } else if s.writer.Stopped? {
      ReplyLostKeepsInv(c, s);
    } else {
      ReplyQueuedKeepsInv(c, s);
    }
  }

  lemma MessageQueuedConserves(s: Loop, o: Outgoing)
    requires Conserved(s) && !s.writer.Stopped? && o.origin.Outside?
    ensures Conserved(s.(caps := s.caps + [o], capsIn := s.capsIn + [o]))
  {
    var s' := s.(caps := s.caps + [o], capsIn := s.capsIn + [o]);
    ByAppend(Handler, s.capsIn, o);
    assert Taken(s') == Taken(s);
    JoinsQueue(Lane(true, Taken(s)), s.caps, o, s.capsIn);
  }

  lemma MessageQueuedKeepsInv(c: Setup, s: Loop, o: Outgoing)
    requires Inv(c, s) && !s.writer.Stopped? && |s.caps| < QUEUE && o.origin.Outside?
    ensures Inv(c, s.(caps := s.caps + [o], capsIn := s.capsIn + [o]))
  {
    MessageQueuedConserves(s, o);
    QueuedStamps(c, s, s.(caps := s.caps + [o], capsIn := s.capsIn + [o]));
  }

  lemma RequestQueuedConserves(s: Loop, pending: Option<Bytes>)
    requires Conserved(s) && !s.writer.Stopped? && s.dispatch.Sending?
    ensures var o := s.dispatch.out;
            Conserved(s.(dispatch := Idle, writes := s.writes + [o], writesIn := s.writesIn + [o], pendingPing := pending))
  {
    var o := s.dispatch.out;
    var s' := s.(dispatch := Idle, writes := s.writes + [o], writesIn := s.writesIn + [o], pendingPing := pending);
    assert Taken(s') == Taken(s);
    JoinsQueue(Lane(false, Taken(s)), s.writes, o, s.writesIn);
  }

  lemma RequestQueuedKeepsInv(c: Setup, s: Loop, pending: Option<Bytes>)
    requires Inv(c, s) && !s.writer.Stopped? && |s.writes| < QUEUE && s.dispatch.Sending?
    ensures var o := s.dispatch.out;
            Inv(c, s.(dispatch := Idle, writes := s.writes + [o], writesIn := s.writesIn + [o], pendingPing := pending))
  {
    var o := s.dispatch.out;
    RequestQueuedConserves(s, pending);
    QueuedStamps(c, s, s.(dispatch := Idle, writes := s.writes + [o], writesIn := s.writesIn + [o], pendingPing := pending));
  }

  lemma RequestLostKeepsInv(c: Setup, s: Loop)
    requires Inv(c, s) && s.writer.Stopped? && s.dispatch.Sending?
    ensures Inv(c, s.(dispatch := Over(true)))
  {
    OutboundKept(c, s, s.(dispatch := Over(true)));
  }

  lemma QueueKeepsInv(c: Setup, s: Loop, e: Event)
    requires Inv(c, s) && Enabled(s, e) && (e.Enqueue? || e.OutsideSend?)
    ensures Inv(c, Step(c, s, e))
  {
    if e.OutsideSend? {
      MessageQueuedKeepsInv(c, s, OfMessage(Outside, e.message));
    } else if s.writer.Stopped? {
      RequestLostKeepsInv(c, s);
    } else {
      RequestQueuedKeepsInv(c, s, if s.dispatch.pinged.Some? then s.dispatch.pinged else s.pendingPing);
    }
  }

  lemma ArriveKeepsInv(c: Setup, s: Loop, item: Item)
    requires Inv(c, s)
    ensures Inv(c, s.(arriving := s.arriving + [item], arrived := s.arrived + [item]))
  {
    var s' := s.(arriving := s.arriving + [item], arrived := s.arrived + [item]);
    OutboundKept(c, s, s');
    assert s.seen + s.inbound + s.arriving + [item] == s.seen + s.inbound + s'.arriving;
  }

  lemma OutsideKeepsInv(c: Setup, s: Loop, e: Event)
    requires Inv(c, s) && Enabled(s, e) && (e.Arrive? || e.Submit? || e.TickProbe? || e.TickDead? || e.NoticeStopped? || e.CloseWrites?)
    ensures Inv(c, Step(c, s, e))
  {
    var s' := Step(c, s, e);
    if e.Arrive? {
      ArriveKeepsInv(c, s, e.item);
    } else {
      OutboundKept(c, s, s');
    }
  }

  lemma ReaderKeepsInv(c: Setup, s: Loop)
    requires Inv(c, s) && Enabled(s, ReadFrame)
    ensures Inv(c, Step(c, s, ReadFrame))
  {
    var first := s.arriving[0];
    OutboundKept(c, s, Step(c, s, ReadFrame));
    assert s.arriving == [first] + s.arriving[1..];
    assert s.seen + s.inbound + s.arriving == s.seen + (s.inbound + [first]) + s.arriving[1..];
  }

  /** The dispatch loop turns to something that is not a handler. */
  lemma TurnKeepsInv(c: Setup, s: Loop, d: Dispatch, commands: seq<Command>, guard: Guard, pending: Option<Bytes>)
    requires Inv(c, s) && s.dispatch.Idle? && !d.Handling? && (d.Sending? ==> d.out.origin.Request?) && |commands| <= QUEUE
    ensures Inv(c, s.(dispatch := d, commands := commands, guard := guard, pendingPing := pending))
  {
    OutboundKept(c, s, s.(dispatch := d, commands := commands, guard := guard, pendingPing := pending));
  }

  lemma CommandKeepsInv(c: Setup, s: Loop, e: Event)
    requires Inv(c, s) && Enabled(s, e) && e.TakeCommand?
    ensures Inv(c, Step(c, s, e))
  {
    var s' := Step(c, s, e);
    TurnKeepsInv(c, s, s'.dispatch, s.commands[1..], s.guard, s.pendingPing);
  }

  /** The state after a frame has been taken and before it is looked at. */
  function Received(s: Loop): Loop
    requires s.inbound != []
  {
    s.(inbound := s.inbound[1..], seen := s.seen + [s.inbound[0]])
  }

  lemma ReceivedInOrder(s: Loop)
    requires s.inbound != [] && s.seen + s.inbound + s.arriving == s.arrived
    ensures var r := Received(s); r.seen + r.inbound + r.arriving == r.arrived
  {
    assert s.inbound == [s.inbound[0]] + s.inbound[1..];
    assert s.seen + s.inbound == s.seen + [s.inbound[0]] + s.inbound[1..];
  }

  lemma UnwantedKeepsInv(c: Setup, s: Loop)
    requires Inv(c, s) && s.dispatch.Idle? && s.inbound != [] && !IsWanted(c, s.inbound[0])
    ensures Inv(c, Received(s))
  {
    WantedAppend(c, s.seen, s.inbound[0]);
    ReceivedInOrder(s);
    OutboundKept(c, s, Received(s));
  }

  lemma ReceivedOverKeepsInv(c: Setup, s: Loop, clean: bool, guard: Guard)
    requires Inv(c, s) && s.dispatch.Idle? && s.inbound != []
    ensures Inv(c, Received(s).(dispatch := Over(clean), guard := guard))
  {
    WantedAppend(c, s.seen, s.inbound[0]);
    ReceivedInOrder(s);
    OutboundKept(c, s, Received(s).(dispatch := Over(clean), guard := guard));
  }

  lemma HandledKeepsInv(c: Setup, s: Loop, replies: seq<Message>, guard: Guard)
    requires Inv(c, s) && s.dispatch.Idle? && s.inbound != [] && IsWanted(c, s.inbound[0])
    ensures var body := s.inbound[0].envelope.body;
            var out := OfMessages(Handler, replies);
            Inv(c, Received(s).(dispatch := Handling(out), guard := guard, promised := s.promised + out,
                                dispatched := s.dispatched + [Message(body.capability, body.payload)]))
  {
    WantedAppend(c, s.seen, s.inbound[0]);
    ReceivedInOrder(s);
    var body, out := s.inbound[0].envelope.body, OfMessages(Handler, replies);
    var s' := Received(s).(dispatch := Handling(out), guard := guard, promised := s.promised + out,
                           dispatched := s.dispatched + [Message(body.capability, body.payload)]);
    assert Taken(s') == Taken(s);
    assert s.writer != Stopped(false) ==> By(Handler, s.capsIn) == s.promised by {
      assert By(Handler, s.capsIn) + [] == By(Handler, s.capsIn);
    }
  }

  /** The frame's effect on an admitted body that no handler wants. */
  lemma BodyTurns(c: Setup, s: Loop, e: Envelope, replies: seq<Message>)
    requires s.dispatch.Idle? && !IsWanted(c, Frame(e))
    ensures var s' := OnBody(c, s, e, replies);
            && !s'.dispatch.Handling? && (s'.dispatch.Sending? ==> s'.dispatch.out.origin.Request?)
            && s' == s.(dispatch := s'.dispatch, commands := s.commands, guard := s.guard, pendingPing := s'.pendingPing)
  {
  }

  lemma TurnedKeepsInv(c: Setup, s: Loop, replies: seq<Message>, guard: Guard)
    requires Inv(c, s) && s.dispatch.Idle? && s.inbound != [] && s.inbound[0].Frame? && !IsWanted(c, s.inbound[0])
    ensures Inv(c, OnBody(c, Received(s).(guard := guard), s.inbound[0].envelope, replies))
  {
    var e, r := s.inbound[0].envelope, Received(s);
    var s' := OnBody(c, r.(guard := guard), e, replies);
    BodyTurns(c, r.(guard := guard), e, replies);
    UnwantedKeepsInv(c, s);
    TurnKeepsInv(c, r, s'.dispatch, s.commands, guard, s'.pendingPing);
    assert s' == r.(dispatch := s'.dispatch, commands := s.commands, guard := guard, pendingPing := s'.pendingPing);
  }

  lemma WantedKeepsInv(c: Setup, s: Loop, replies: seq<Message>, guard: Guard)
    requires Inv(c, s) && s.dispatch.Idle? && s.inbound != [] && IsWanted(c, s.inbound[0])
    ensures Inv(c, OnBody(c, Received(s).(guard := guard), s.inbound[0].envelope, replies))
  {
    HandledKeepsInv(c, s, replies, guard);
  }

  lemma FrameKeepsInv(c: Setup, s: Loop, replies: seq<Message>)
    requires Inv(c, s) && s.dispatch.Idle? && s.inbound != [] && s.inbound[0].Frame?
    ensures Inv(c, OnItem(c, Received(s), s.inbound[0], replies))
  {
    var item := s.inbound[0];
    var (violation, guard) := Admit(s.guard, item.envelope);
    if item.envelope.version != c.version || violation.Some? {
      ReceivedOverKeepsInv(c, s, false, s.guard);
      assert OnItem(c, Received(s), item, replies) == Received(s).(dispatch := Over(false), guard := s.guard);
    } else {
      assert OnItem(c, Received(s), item, replies) == OnBody(c, Received(s).(guard := guard), item.envelope, replies);
      if IsWanted(c, item) {
        WantedKeepsInv(c, s, replies, guard);
      } else {
        TurnedKeepsInv(c, s, replies, guard);
      }
    }
  }

  lemma InboundKeepsInv(c: Setup, s: Loop, replies: seq<Message>)
    requires Inv(c, s) && Enabled(s, TakeInbound(replies))
    ensures Inv(c, Step(c, s, TakeInbound(replies)))
  {
    if s.inbound[0].Frame? {
      FrameKeepsInv(c, s, replies);
    } else {
      ReceivedOverKeepsInv(c, s, s.inbound[0].clean, s.guard);
    }
  }

  lemma StepKeepsInv(c: Setup, s: Loop, e: Event)
    requires Inv(c, s) && Enabled(s, e)
    ensures Inv(c, Step(c, s, e))
  {
    match e
    case ReadFrame => ReaderKeepsInv(c, s);
    case TakeInbound(replies) => InboundKeepsInv(c, s, replies);
    case TakeCommand(_, _) => CommandKeepsInv(c, s, e);
    case Enqueue => QueueKeepsInv(c, s, e);
    case OutsideSend(_) => QueueKeepsInv(c, s, e);
    case HandlerSends => HandlerKeepsInv(c, s, e);
    case HandlerReturns => HandlerKeepsInv(c, s, e);
    case WriterTakesRequest(_) => WriterTakesKeepsInv(c, s, e);
    case WriterTakesMessage(_) => WriterTakesKeepsInv(c, s, e);
    case WriteDone => WriteDoneKeepsInv(c, s);
    case WriterStops => WriterEndsKeepsInv(c, s, e);
    case WriterDies => WriterEndsKeepsInv(c, s, e);
    case _ => OutsideKeepsInv(c, s, e);
  }

  lemma {:induction false} RunKeepsInv(c: Setup, greetings: seq<Message>, es: seq<Event>)
    ensures Inv(c, After(c, greetings, es))
  {
    if es != [] {
      RunKeepsInv(c, greetings, es[..|es| - 1]);
      var s := After(c, greetings, es[..|es| - 1]);
      if Enabled(s, es[|es| - 1]) {
        StepKeepsInv(c, s, es[|es| - 1]);
      }
    }
  }
}
