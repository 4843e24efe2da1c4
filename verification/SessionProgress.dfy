/** No session wedges: there is always a step while work is left, and only finitely many of them. */
module SessionProgress {
  import opened Prelude
  import opened Protocol
  import opened Replay
  import opened SessionLoop
  import opened Pairing
  import H = Handshake
  import R = HandshakeRuns

  /** Work the tasks can do by themselves, given a socket that takes what is written. */
  predicate Busy(s: Loop) {
    if s.dispatch.Over? then !s.closed || !s.writer.Stopped?
    else
      || s.arriving != [] || s.inbound != [] || s.commands != [] || !s.dispatch.Idle? || s.writer.Stopped?
      || s.writer.Writing? || s.writes != [] || s.caps != []
  }

  /** One choice among the steps that are possible. */
  function SomeStep(s: Loop): (e: Event)
    requires Busy(s)
    ensures Internal(e) && Enabled(s, e)
  {
    if s.writer.Writing? then WriteDone
    else if s.writer.Resting? && s.writes != [] then WriterTakesRequest([])
    else if s.writer.Resting? && s.caps != [] then WriterTakesMessage([])
    else match s.dispatch
      case Over(_) => if !s.closed then CloseWrites else WriterStops
      case Sending(_, _) => Enqueue
      case Handling(replies) => if replies == [] then HandlerReturns else HandlerSends
      case Idle =>
        if s.inbound != [] then TakeInbound([])
        else if s.commands != [] then TakeCommand([], [])
        else if s.writer.Stopped? then NoticeStopped
        else ReadFrame
  }

  ghost predicate CanStep(s: Loop) {
    exists e :: Internal(e) && Enabled(s, e)
  }

  /** Whatever happened before: no step is left exactly when no work is left. */
  lemma NoDeadlock(c: Setup, greetings: seq<Message>, es: seq<Event>)
    ensures CanStep(After(c, greetings, es)) <==> Busy(After(c, greetings, es))
  {
    RunKeepsInv(c, greetings, es);
    var s := After(c, greetings, es);
    if Busy(s) {
      var e := SomeStep(s);
      assert Internal(e) && Enabled(s, e);
    } else {
      NothingLeft(s);
    }
  }

  lemma NothingLeft(s: Loop)
    requires Teardown(s) && !Busy(s)
    ensures !CanStep(s)
  {
  }

  // ---- the measure ----------------------------------------------------------------------------

  /** What is still to be taken in. */
  function Intake(s: Loop): nat {
    if s.dispatch.Over? then 0 else 2 * |s.arriving| + |s.inbound| + |s.commands|
  }

  function DispatchWeight(d: Dispatch): nat {
    match d
    case Over(_) => 0
    case Idle => 2
    case Sending(_, _) => 6
    case Handling(replies) => 3 + 4 * |replies|
  }

  function WriterWeight(w: Writer): nat {
    match w
    case Stopped(_) => 0
    case Resting => 1
    case Writing(_) => 3
  }

  /** What is on its way out. */
  function Backlog(s: Loop): nat {
    DispatchWeight(s.dispatch) + 3 * (|s.writes| + |s.caps|) + WriterWeight(s.writer) + if s.closed then 0 else 1
  }

  lemma BodyKeepsQueues(c: Setup, s: Loop, e: Envelope, replies: seq<Message>)
    ensures var s' := OnBody(c, s, e, replies);
            s'.arriving == s.arriving && s'.inbound == s.inbound && s'.commands == s.commands
  {
  }

  lemma ItemKeepsQueues(c: Setup, s: Loop, item: Item, replies: seq<Message>)
    ensures var s' := OnItem(c, s, item, replies);
            s'.arriving == s.arriving && s'.inbound == s.inbound && s'.commands == s.commands
  {
    if item.Frame? {
      BodyKeepsQueues(c, s.(guard := Admit(s.guard, item.envelope).1), item.envelope, replies);
    }
  }

  lemma InboundDescends(c: Setup, s: Loop, e: Event)
    requires Enabled(s, e) && e.TakeInbound?
    ensures Intake(Step(c, s, e)) < Intake(s)
  {
    ItemKeepsQueues(c, s.(inbound := s.inbound[1..], seen := s.seen + [s.inbound[0]]), s.inbound[0], e.replies);
  }

  lemma CommandDescends(c: Setup, s: Loop, e: Event)
    requires Enabled(s, e) && e.TakeCommand?
    ensures Intake(Step(c, s, e)) < Intake(s)
  {
    var s' := OnCommand(s.(commands := s.commands[1..]), s.commands[0], e.id, e.payload);
    assert s'.arriving == s.arriving && s'.inbound == s.inbound && s'.commands == s.commands[1..];
  }

  /** Every internal step shrinks the intake, or keeps it and shrinks the backlog. */
  lemma StepDescends(c: Setup, s: Loop, e: Event)
    requires Internal(e) && Enabled(s, e)
    ensures Intake(Step(c, s, e)) < Intake(s) || (Intake(Step(c, s, e)) == Intake(s) && Backlog(Step(c, s, e)) < Backlog(s))
  {
    if e.TakeInbound? {
      InboundDescends(c, s, e);
    } else if e.TakeCommand? {
      CommandDescends(c, s, e);
    }
  }

  // ---- running to the end ---------------------------------------------------------------------

  /** Any scheduler at all, with any handlers: at its n-th turn it picks some possible step while there is work. */
  ghost predicate Schedules(pick: (nat, Loop) -> Event) {
    forall n: nat, s :: Busy(s) ==> Internal(pick(n, s)) && Enabled(s, pick(n, s))
  }

  /** The state the tasks run into by themselves. That this is defined is that they do stop. */
  ghost function Settle(c: Setup, pick: (nat, Loop) -> Event, n: nat, s: Loop): Loop
    requires Schedules(pick)
    decreases Intake(s), Backlog(s)
  {
    if !Busy(s) then s
    else
      var e := pick(n, s);
      StepDescends(c, s, e);
      Settle(c, pick, n + 1, Step(c, s, e))
  }

  lemma ItemKeepsArrived(c: Setup, s: Loop, item: Item, replies: seq<Message>)
    ensures OnItem(c, s, item, replies).arrived == s.arrived && s.promised <= OnItem(c, s, item, replies).promised
  {
  }

  lemma StepKeepsArrived(c: Setup, s: Loop, e: Event)
    requires Internal(e) && Enabled(s, e)
    ensures Step(c, s, e).arrived == s.arrived && s.promised <= Step(c, s, e).promised
  {
    if e.TakeInbound? {
      ItemKeepsArrived(c, s.(inbound := s.inbound[1..], seen := s.seen + [s.inbound[0]]), s.inbound[0], e.replies);
    }
  }

  lemma {:induction false} SettleSettles(c: Setup, pick: (nat, Loop) -> Event, n: nat, s: Loop)
    requires Schedules(pick) && Inv(c, s)
    ensures var t := Settle(c, pick, n, s);
            Inv(c, t) && !Busy(t) && t.arrived == s.arrived && s.promised <= t.promised
    decreases Intake(s), Backlog(s)
  {
    if Busy(s) {
      var e := pick(n, s);
      StepDescends(c, s, e);
      StepKeepsInv(c, s, e);
      StepKeepsArrived(c, s, e);
      SettleSettles(c, pick, n + 1, Step(c, s, e));
    }
  }

  /** Handlers' messages all travel in one lane. */
  lemma {:induction false} HandlersInLane(outs: seq<Outgoing>)
    ensures By(Handler, Lane(true, outs)) == By(Handler, outs)
  {
    if outs != [] {
      var front, last := outs[..|outs| - 1], outs[|outs| - 1];
      HandlersInLane(front);
      if last.origin.Request? == false {
        ByAppend(Handler, Lane(true, front), last);
      }
    }
  }

  /** Everything arrived was dispatched, and everything answered or requested is on the wire in order. */
  ghost predicate Drained(c: Setup, t: Loop) {
    && t.seen == t.arrived && t.dispatched == Wanted(c, t.arrived)
    && By(Handler, Outs(t.wire)) == t.promised
    && Lane(false, Outs(t.wire)) == t.writesIn
    && Lane(true, Outs(t.wire)) == t.capsIn
    && forall i :: 0 <= i < |t.wire| ==> StampedAs(c, t.wire[i], c.start + 1 + i)
  }

  lemma QuietIsDrained(c: Setup, t: Loop)
    requires Inv(c, t) && !Busy(t) && !t.dispatch.Over?
    ensures Drained(c, t)
  {
    HandlersInLane(Outs(t.wire));
    assert Taken(t) == Outs(t.wire);
    assert t.seen + [] + [] == t.seen;
    assert Lane(true, Outs(t.wire)) + [] == Lane(true, Outs(t.wire)) && Lane(false, Outs(t.wire)) + [] == Lane(false, Outs(t.wire));
    assert By(Handler, t.capsIn) + [] == By(Handler, t.capsIn);
  }

  /** A session that is over and whose writer stopped by itself has written every frame it accepted for itself. */
  lemma CleanStopWritesAll(c: Setup, t: Loop)
    requires Inv(c, t) && t.writer == Stopped(true)
    ensures t.dispatch.Over? && Lane(false, Outs(t.wire)) == t.writesIn
  {
    assert Taken(t) == Outs(t.wire);
    assert Lane(false, Outs(t.wire)) + [] == Lane(false, Outs(t.wire));
  }

  /**
   From every reachable state, under every scheduler and with every list of replies: the tasks stop,
   and either the session is over and torn down, or everything has been drained in order.
   */
  lemma SessionsSettle(c: Setup, greetings: seq<Message>, es: seq<Event>, pick: (nat, Loop) -> Event)
    requires Schedules(pick)
    ensures var s := After(c, greetings, es);
            var t := Settle(c, pick, 0, s);
            && t.arrived == s.arrived && s.promised <= t.promised
            && if t.dispatch.Over? then t.closed && t.writer.Stopped? else Drained(c, t)
  {
    RunKeepsInv(c, greetings, es);
    var s := After(c, greetings, es);
    SettleSettles(c, pick, 0, s);
    if !Settle(c, pick, 0, s).dispatch.Over? {
      QuietIsDrained(c, Settle(c, pick, 0, s));
    }
  }

  /** A writer that failed always takes the session with it. */
  lemma DeadWriterEndsSession(c: Setup, greetings: seq<Message>, es: seq<Event>, pick: (nat, Loop) -> Event)
    requires Schedules(pick) && After(c, greetings, es).writer.Stopped?
    ensures Settle(c, pick, 0, After(c, greetings, es)).dispatch.Over?
  {
    RunKeepsInv(c, greetings, es);
    StaysStopped(c, pick, 0, After(c, greetings, es));
    SettleSettles(c, pick, 0, After(c, greetings, es));
  }

  lemma {:induction false} StaysStopped(c: Setup, pick: (nat, Loop) -> Event, n: nat, s: Loop)
    requires Schedules(pick) && s.writer.Stopped?
    ensures Settle(c, pick, n, s).writer.Stopped?
    decreases Intake(s), Backlog(s)
  {
    if Busy(s) {
      var e := pick(n, s);
      StepDescends(c, s, e);
      StaysStopped(c, pick, n + 1, Step(c, s, e));
    }
  }

  // ---- what a handler is ever given -----------------------------------------------------------

  lemma {:induction false} WantedIsNegotiated(c: Setup, items: seq<Item>, k: nat)
    requires k < |Wanted(c, items)|
    ensures Wanted(c, items)[k].capability in c.negotiated && Wanted(c, items)[k].capability in c.registry
  {
    var front := items[..|items| - 1];
    if k < |Wanted(c, front)| {
      WantedIsNegotiated(c, front, k);
    }
  }

  /** In every run, a handler is given messages in the order they arrived, of negotiated capabilities only. */
  lemma DispatchedInOrder(c: Setup, greetings: seq<Message>, es: seq<Event>, k: nat)
    ensures var s := After(c, greetings, es);
            && s.dispatched <= Wanted(c, s.arrived)
            && (k < |s.dispatched| ==> s.dispatched[k].capability in c.negotiated && s.dispatched[k].capability in c.registry)
  {
    RunKeepsInv(c, greetings, es);
    var s := After(c, greetings, es);
    if k < |s.dispatched| {
      WantedIsNegotiated(c, s.seen, k);
    }
    WantedOfPrefix(c, s.seen, s.inbound + s.arriving);
    assert s.seen + s.inbound + s.arriving == s.seen + (s.inbound + s.arriving);
  }

  lemma {:induction false} WantedOfPrefix(c: Setup, a: seq<Item>, b: seq<Item>)
    ensures Wanted(c, a) <= Wanted(c, a + b)
  {
    if b == [] {
      assert a + b == a;
    } else {
      var front := b[..|b| - 1];
      WantedOfPrefix(c, a, front);
      WantedAppend(c, a + front, b[|b| - 1]);
      assert a + b == a + front + [b[|b| - 1]];
    }
  }

  /**
   From the handshake to the handler: whatever a peer sends and a host answers, a message reaches a
   handler only for a capability that is registered, was advertised, and was granted.
   */
  lemma DispatchedWasGranted(h: H.HelloAnswers, p: H.PairAnswers, fp: Fingerprint, profile: Profile,
                             first: Result<Envelope, H.Failure>, second: Result<Envelope, H.Failure>,
                             c: Setup, greetings: seq<Message>, es: seq<Event>, k: nat)
    requires H.Respond(h, p, fp, profile, first, second).1.Ok?
    requires c.negotiated == H.Respond(h, p, fp, profile, first, second).1.value.established.capabilities
    requires k < |After(c, greetings, es).dispatched|
    ensures var capability := After(c, greetings, es).dispatched[k].capability;
            && first.Ok? && first.value.body.Hello? && capability in c.registry && capability in first.value.body.capabilities
            && capability in H.Granted(R.LastStatus(H.Respond(h, p, fp, profile, first, second).0))
  {
    DispatchedInOrder(c, greetings, es, k);
    R.CapabilitiesAreGranted(h, p, fp, profile, first, second, After(c, greetings, es).dispatched[k].capability);
  }
}
