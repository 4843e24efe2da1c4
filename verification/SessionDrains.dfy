/**
 Exactly when a session ends, read off what came in: the frames that arrived and the events from
 outside. Every other session puts all its replies on the wire.
 */
module SessionDrains {
  import opened Prelude
  import opened Protocol
  import opened Replay
  import opened SessionLoop
  import opened SessionProgress
  import opened ConnectionReplay

  // ---- what a session can bear ----------------------------------------------------------------

  /** A frame of the session's version that a session acts on and goes on after. */
  predicate Bearable(c: Setup, i: Item) {
    && i.Frame? && i.envelope.version == c.version
    && match i.envelope.body
       case Ping(payload) => |payload| <= MAX_PING_PAYLOAD
       case Pong(_) => true
       case CapabilityMessage(_, _) => true
       case CapabilityAnnounce(_) => true
       case ErrorMessage(_, fatal) => !fatal
       case _ => false
  }

  /** Every item is one, and the guard admits them all after what the handshake read. */
  ghost predicate Welcome(c: Setup, prior: seq<Envelope>, items: seq<Item>) {
    && (forall i :: 0 <= i < |items| ==> Bearable(c, items[i]))
    && AllAdmitted(prior + Frames(items))
  }

  /** Event `i` of a run was possible where it came. */
  predicate Happened(c: Setup, greetings: seq<Message>, es: seq<Event>, i: nat) {
    i < |es| && Enabled(After(c, greetings, es[..i]), es[i])
  }

  /** The peer was silent too long, the socket failed, or somebody asked for the end. */
  predicate IsEnd(e: Event) {
    e.TickDead? || e.WriterDies? || e == Submit(Shutdown)
  }

  ghost predicate EndedFromOutside(c: Setup, greetings: seq<Message>, es: seq<Event>) {
    exists i: nat :: Happened(c, greetings, es, i) && IsEnd(es[i])
  }

  lemma EndedStep(c: Setup, greetings: seq<Message>, es: seq<Event>, e: Event)
    ensures EndedFromOutside(c, greetings, es + [e])
            <==> EndedFromOutside(c, greetings, es) || (Enabled(After(c, greetings, es), e) && IsEnd(e))
  {
    var es' := es + [e];
    assert es'[..|es|] == es && es'[|es|] == e;
    assert forall i :: 0 <= i < |es| ==> es'[..i] == es[..i] && es'[i] == es[i];
    if EndedFromOutside(c, greetings, es') {
      var i: nat :| Happened(c, greetings, es', i) && IsEnd(es'[i]);
      assert i < |es| ==> Happened(c, greetings, es, i);
    }
    if EndedFromOutside(c, greetings, es) {
      var i: nat :| Happened(c, greetings, es, i) && IsEnd(es[i]);
      assert Happened(c, greetings, es', i);
    }
    if Enabled(After(c, greetings, es), e) && IsEnd(e) {
      assert Happened(c, greetings, es', |es|);
    }
  }

  // ---- frames and slices ----------------------------------------------------------------------

  lemma {:induction false} FramesConcat(a: seq<Item>, b: seq<Item>)
    ensures Frames(a + b) == Frames(a) + Frames(b)
  {
    if b == [] {
      assert a + b == a;
    } else {
      var front, last := b[..|b| - 1], b[|b| - 1];
      FramesConcat(a, front);
      FramesAppend(a + front, last);
      assert a + b == a + front + [last];
    }
  }

  /** What is welcome as a whole is welcome up to any point. */
  lemma WelcomePrefix(c: Setup, prior: seq<Envelope>, a: seq<Item>, b: seq<Item>)
    requires Welcome(c, prior, a + b)
    ensures Welcome(c, prior, a)
  {
    FramesConcat(a, b);
    var part, all := prior + Frames(a), prior + Frames(a + b);
    forall i: nat | i < |part|
      ensures AdmittedAt(part, i)
    {
      assert AdmittedAt(all, i) && all[..i] == part[..i] && all[i] == part[i];
    }
    forall i | 0 <= i < |a|
      ensures Bearable(c, a[i])
    {
      assert (a + b)[i] == a[i];
    }
  }

  /** The next item is a frame, and it is admitted. */
  lemma WelcomeNext(c: Setup, prior: seq<Envelope>, a: seq<Item>, item: Item, b: seq<Item>)
    requires Welcome(c, prior, a + [item] + b)
    ensures Bearable(c, item) && Admit(GuardAfter(prior + Frames(a)), item.envelope).0 == None
  {
    WelcomePrefix(c, prior, a + [item], b);
    assert (a + [item])[|a|] == item;
    FramesAppend(a, item);
    var all, n := prior + Frames(a + [item]), |prior + Frames(a)|;
    assert AdmittedAt(all, n) && all[..n] == prior + Frames(a) && all[n] == item.envelope;
  }

  // ---- a session with nothing against it goes on ----------------------------------------------

  ghost predicate Healthy(c: Setup, prior: seq<Envelope>, s: Loop) {
    && !s.dispatch.Over? && !s.writer.Stopped? && Shutdown !in s.commands && !s.closed
    && s.guard == GuardAfter(prior + Frames(s.seen))
    && s.seen + s.inbound + s.arriving == s.arrived
  }

  lemma BearableGoesOn(c: Setup, s: Loop, e: Envelope, replies: seq<Message>)
    requires Bearable(c, Frame(e)) && !s.dispatch.Over?
    ensures var s' := OnBody(c, s, e, replies);
            && !s'.dispatch.Over? && s'.writer == s.writer && s'.commands == s.commands && s'.closed == s.closed && s'.guard == s.guard
            && s'.seen == s.seen && s'.inbound == s.inbound && s'.arriving == s.arriving && s'.arrived == s.arrived
  {
  }

  lemma GuardGoesOn(prior: seq<Envelope>, seen: seq<Item>, e: Envelope)
    ensures GuardAfter(prior + Frames(seen + [Frame(e)])) == Admit(GuardAfter(prior + Frames(seen)), e).1
  {
    FramesAppend(seen, Frame(e));
    var front := prior + Frames(seen);
    assert prior + Frames(seen + [Frame(e)]) == front + [e];
    assert (front + [e])[..|front|] == front;
  }

  lemma InboundKeepsHealthy(c: Setup, prior: seq<Envelope>, s: Loop, replies: seq<Message>)
    requires Healthy(c, prior, s) && Welcome(c, prior, s.arrived) && Enabled(s, TakeInbound(replies))
    ensures Healthy(c, prior, Step(c, s, TakeInbound(replies)))
  {
    var item, rest := s.inbound[0], s.inbound[1..] + s.arriving;
    assert s.seen + s.inbound + s.arriving == s.seen + [item] + rest;
    WelcomeNext(c, prior, s.seen, item, rest);
    GuardGoesOn(prior, s.seen, item.envelope);
    ReceivedInOrder(s);
    BearableGoesOn(c, Received(s).(guard := Admit(s.guard, item.envelope).1), item.envelope, replies);
  }

  lemma OthersKeepHealthy(c: Setup, prior: seq<Envelope>, s: Loop, e: Event)
    requires Healthy(c, prior, s) && Enabled(s, e) && !e.TakeInbound? && !IsEnd(e)
    ensures Healthy(c, prior, Step(c, s, e))
  {
    OthersKeep(c, s, e);
    var s' := Step(c, s, e);
    if e.ReadFrame? {
      assert s.arriving == [s.arriving[0]] + s.arriving[1..];
      assert s'.seen + s'.inbound + s'.arriving == s.seen + s.inbound + s.arriving;
    } else if e.Arrive? {
      assert s.seen + s.inbound + (s.arriving + [e.item]) == s.seen + s.inbound + s.arriving + [e.item];
    } else if e.TakeCommand? {
      assert s.commands[0] in s.commands;
    }
  }

  lemma StepKeepsHealthy(c: Setup, prior: seq<Envelope>, s: Loop, e: Event)
    requires Healthy(c, prior, s) && Enabled(s, e) && !IsEnd(e) && Welcome(c, prior, s.arrived)
    ensures Healthy(c, prior, Step(c, s, e))
  {
    if e.TakeInbound? {
      InboundKeepsHealthy(c, prior, s, e.replies);
    } else {
      OthersKeepHealthy(c, prior, s, e);
    }
  }

  lemma ArrivedGrows(c: Setup, s: Loop, e: Event)
    requires Enabled(s, e)
    ensures s.arrived <= Step(c, s, e).arrived
  {
    if Internal(e) {
      StepKeepsArrived(c, s, e);
    }
  }

  lemma WelcomeSoFar(c: Setup, prior: seq<Envelope>, a: seq<Item>, b: seq<Item>)
    requires a <= b && Welcome(c, prior, b)
    ensures Welcome(c, prior, a)
  {
    assert a + b[|a|..] == b;
    WelcomePrefix(c, prior, a, b[|a|..]);
  }

  lemma WelcomeBefore(c: Setup, prior: seq<Envelope>, s: Loop, e: Event)
    requires Enabled(s, e) && Welcome(c, prior, Step(c, s, e).arrived)
    ensures Welcome(c, prior, s.arrived)
  {
    ArrivedGrows(c, s, e);
    WelcomeSoFar(c, prior, s.arrived, Step(c, s, e).arrived);
  }

  lemma RunStep(c: Setup, greetings: seq<Message>, es: seq<Event>, e: Event)
    ensures After(c, greetings, es + [e]) == Next(c, After(c, greetings, es), e)
  {
    assert (es + [e])[..|es|] == es;
  }

  /** One more event of a run, if the run so far is healthy. */
  lemma HealthyExtends(c: Setup, prior: seq<Envelope>, greetings: seq<Message>, es: seq<Event>, e: Event)
    requires Welcome(c, prior, After(c, greetings, es + [e]).arrived) && !EndedFromOutside(c, greetings, es + [e])
    ensures Welcome(c, prior, After(c, greetings, es).arrived) && !EndedFromOutside(c, greetings, es)
    ensures Healthy(c, prior, After(c, greetings, es)) ==> Healthy(c, prior, After(c, greetings, es + [e]))
  {
    RunStep(c, greetings, es, e);
    EndedStep(c, greetings, es, e);
    var s := After(c, greetings, es);
    if Enabled(s, e) {
      WelcomeBefore(c, prior, s, e);
      if Healthy(c, prior, s) {
        StepKeepsHealthy(c, prior, s, e);
      }
    }
  }

  lemma {:induction false} RunIsHealthy(c: Setup, prior: seq<Envelope>, greetings: seq<Message>, es: seq<Event>)
    requires c.guard == GuardAfter(prior) && Welcome(c, prior, After(c, greetings, es).arrived)
    requires !EndedFromOutside(c, greetings, es)
    ensures Healthy(c, prior, After(c, greetings, es))
  {
    if es == [] {
      assert prior + Frames([]) == prior;
    } else {
      var front, e := es[..|es| - 1], es[|es| - 1];
      assert es == front + [e];
      HealthyExtends(c, prior, greetings, front, e);
      RunIsHealthy(c, prior, greetings, front);
    }
  }

  lemma {:induction false} SettleIsHealthy(c: Setup, prior: seq<Envelope>, pick: (nat, Loop) -> Event, n: nat, s: Loop)
    requires Schedules(pick) && Healthy(c, prior, s) && Welcome(c, prior, s.arrived)
    ensures Healthy(c, prior, Settle(c, pick, n, s))
    decreases Intake(s), Backlog(s)
  {
    if Busy(s) {
      var e := pick(n, s);
      StepDescends(c, s, e);
      StepKeepsHealthy(c, prior, s, e);
      StepKeepsArrived(c, s, e);
      SettleIsHealthy(c, prior, pick, n + 1, Step(c, s, e));
    }
  }

  // ---- and one with something against it ends -------------------------------------------------

  /** An end is on its way, or there. */
  ghost predicate Doomed(s: Loop) {
    s.dispatch.Over? || s.writer.Stopped? || Shutdown in s.commands
  }

  lemma BodyKeepsDoom(c: Setup, s: Loop, e: Envelope, replies: seq<Message>)
    ensures var s' := OnBody(c, s, e, replies); s'.writer == s.writer && s'.commands == s.commands
  {
  }

  lemma CommandKeepsDoom(s: Loop, id: Bytes, payload: Bytes)
    requires s.commands != [] && Shutdown in s.commands
    ensures Doomed(OnCommand(s.(commands := s.commands[1..]), s.commands[0], id, payload))
  {
    if s.commands[0] != Shutdown {
      assert s.commands == [s.commands[0]] + s.commands[1..];
    }
  }

  lemma StepKeepsDoom(c: Setup, s: Loop, e: Event)
    requires Enabled(s, e) && (Doomed(s) || IsEnd(e))
    ensures Doomed(Step(c, s, e))
  {
    match e
    case TakeInbound(replies) =>
      if s.inbound[0].Frame? {
        var envelope := s.inbound[0].envelope;
        BodyKeepsDoom(c, Received(s).(guard := Admit(s.guard, envelope).1), envelope, replies);
      }
    case TakeCommand(id, payload) =>
      if Shutdown in s.commands {
        CommandKeepsDoom(s, id, payload);
      }
    case _ => OthersKeep(c, s, e);
  }

  lemma {:induction false} EndIsDoom(c: Setup, greetings: seq<Message>, es: seq<Event>)
    requires EndedFromOutside(c, greetings, es)
    ensures Doomed(After(c, greetings, es))
  {
    var front, e := es[..|es| - 1], es[|es| - 1];
    assert es == front + [e];
    EndedStep(c, greetings, front, e);
    RunStep(c, greetings, front, e);
    if EndedFromOutside(c, greetings, front) {
      EndIsDoom(c, greetings, front);
    }
    if Enabled(After(c, greetings, front), e) {
      StepKeepsDoom(c, After(c, greetings, front), e);
    }
  }

  /** A session that is not over has seen nothing it could not bear, and its guard admitted all of it. */
  ghost predicate Sound(c: Setup, prior: seq<Envelope>, s: Loop) {
    Guarded(c, prior, s) && (!s.dispatch.Over? ==> forall i :: 0 <= i < |s.seen| ==> Bearable(c, s.seen[i]))
  }

  lemma UnbearableEnds(c: Setup, s: Loop, item: Item, replies: seq<Message>)
    requires !s.dispatch.Over? && !OnItem(c, s, item, replies).dispatch.Over?
    ensures Bearable(c, item)
  {
  }

  lemma StepKeepsSound(c: Setup, prior: seq<Envelope>, s: Loop, e: Event)
    requires Sound(c, prior, s) && Enabled(s, e)
    ensures Sound(c, prior, Step(c, s, e))
  {
    var s' := Step(c, s, e);
    if e.TakeInbound? {
      InboundKeepsGuarded(c, prior, s, e.replies);
      if !s'.dispatch.Over? {
        UnbearableEnds(c, Received(s), s.inbound[0], e.replies);
        SeenAfter(c, s, e.replies);
      }
    } else {
      OthersKeepGuarded(c, prior, s, e);
      OthersKeep(c, s, e);
    }
  }

  lemma SeenAfter(c: Setup, s: Loop, replies: seq<Message>)
    requires Enabled(s, TakeInbound(replies))
    ensures Step(c, s, TakeInbound(replies)).seen == s.seen + [s.inbound[0]]
  {
    if s.inbound[0].Frame? {
      var envelope := s.inbound[0].envelope;
      BodyActs(c, Received(s).(guard := Admit(s.guard, envelope).1), envelope, replies);
    }
  }

  lemma {:induction false} RunIsSound(c: Setup, prior: seq<Envelope>, greetings: seq<Message>, es: seq<Event>)
    requires AllAdmitted(prior) && c.guard == GuardAfter(prior)
    ensures Sound(c, prior, After(c, greetings, es))
  {
    if es == [] {
      RunIsGuarded(c, prior, greetings, es);
    } else {
      RunIsSound(c, prior, greetings, es[..|es| - 1]);
      var s, e := After(c, greetings, es[..|es| - 1]), es[|es| - 1];
      if Enabled(s, e) {
        StepKeepsSound(c, prior, s, e);
      }
    }
  }

  lemma {:induction false} SettleKeeps(c: Setup, prior: seq<Envelope>, pick: (nat, Loop) -> Event, n: nat, s: Loop)
    requires Schedules(pick) && Sound(c, prior, s)
    ensures Sound(c, prior, Settle(c, pick, n, s))
    ensures Doomed(s) ==> Doomed(Settle(c, pick, n, s))
    decreases Intake(s), Backlog(s)
  {
    if Busy(s) {
      var e := pick(n, s);
      StepDescends(c, s, e);
      StepKeepsSound(c, prior, s, e);
      if Doomed(s) {
        StepKeepsDoom(c, s, e);
      }
      SettleKeeps(c, prior, pick, n + 1, Step(c, s, e));
    }
  }

  lemma QuietIsWelcome(c: Setup, prior: seq<Envelope>, t: Loop)
    requires Sound(c, prior, t) && Drained(c, t) && !t.dispatch.Over?
    ensures Welcome(c, prior, t.arrived)
  {
    WholeSeen(t);
  }

  /**
   Every session, every scheduler and every list of replies: left to themselves the tasks end the session
   if and only if it was ended from outside or something arrived that it could not bear or had seen
   before; and when not, everything that arrived was dispatched and every reply is on the wire, in order.
   */
  lemma SessionEndsExactly(c: Setup, prior: seq<Envelope>, greetings: seq<Message>, es: seq<Event>, pick: (nat, Loop) -> Event)
    requires Schedules(pick) && AllAdmitted(prior) && c.guard == GuardAfter(prior)
    ensures var s := After(c, greetings, es);
            var t := Settle(c, pick, 0, s);
            && (t.dispatch.Over? <==> EndedFromOutside(c, greetings, es) || !Welcome(c, prior, s.arrived))
            && (!t.dispatch.Over? ==> Drained(c, t) && t.arrived == s.arrived && s.promised <= t.promised)
  {
    var s := After(c, greetings, es);
    var t := Settle(c, pick, 0, s);
    SessionsSettle(c, greetings, es, pick);
    RunIsSound(c, prior, greetings, es);
    SettleKeeps(c, prior, pick, 0, s);
    if EndedFromOutside(c, greetings, es) {
      EndIsDoom(c, greetings, es);
      DoomComes(c, greetings, es, pick);
    } else if Welcome(c, prior, s.arrived) {
      RunIsHealthy(c, prior, greetings, es);
      SettleIsHealthy(c, prior, pick, 0, s);
    } else if !t.dispatch.Over? {
      QuietIsWelcome(c, prior, t);
    }
  }

  lemma DoomComes(c: Setup, greetings: seq<Message>, es: seq<Event>, pick: (nat, Loop) -> Event)
    requires Schedules(pick) && Doomed(Settle(c, pick, 0, After(c, greetings, es)))
    ensures Settle(c, pick, 0, After(c, greetings, es)).dispatch.Over?
  {
    RunKeepsInv(c, greetings, es);
    SettleSettles(c, pick, 0, After(c, greetings, es));
  }

  // ---- how a session ended --------------------------------------------------------------------

  /** The event ends the session, cleanly or with an error. */
  predicate EndsAs(c: Setup, s: Loop, e: Event, clean: bool) {
    && Enabled(s, e) && !s.dispatch.Over?
    && match e
       case TakeInbound(_) =>
         var item := s.inbound[0];
         if item.Broken? then clean == item.clean
         else !clean && (!Bearable(c, item) || Admit(s.guard, item.envelope).0.Some?)
       case TakeCommand(_, _) => s.commands[0] == Shutdown && clean
       case TickDead => !clean
       case Enqueue => s.writer.Stopped? && clean
       case NoticeStopped => clean == s.writer.drained
       case _ => false
  }

  lemma ItemEndsAs(c: Setup, s: Loop, item: Item, replies: seq<Message>, clean: bool)
    requires !s.dispatch.Over?
    ensures OnItem(c, s, item, replies).dispatch == Over(clean)
            <==> if item.Broken? then clean == item.clean
                 else !clean && (!Bearable(c, item) || Admit(s.guard, item.envelope).0.Some?)
  {
    if item.Frame? && Bearable(c, item) && Admit(s.guard, item.envelope).0.None? {
      BearableGoesOn(c, s.(guard := Admit(s.guard, item.envelope).1), item.envelope, replies);
    } else if item.Frame? && OnItem(c, s, item, replies).dispatch != Over(false) {
      EndingIsAnError(c, s, item, replies);
    }
  }

  /** A frame ends a session with an error if at all. */
  lemma EndingIsAnError(c: Setup, s: Loop, item: Item, replies: seq<Message>)
    requires item.Frame? && !s.dispatch.Over?
    ensures var d := OnItem(c, s, item, replies).dispatch; d.Over? ==> d == Over(false)
    ensures !OnItem(c, s, item, replies).dispatch.Over? ==> Bearable(c, item) && Admit(s.guard, item.envelope).0.None?
  {
    if !OnItem(c, s, item, replies).dispatch.Over? {
      UnbearableEnds(c, s, item, replies);
    }
  }

  lemma OverStays(c: Setup, s: Loop, e: Event)
    requires s.dispatch.Over?
    ensures Next(c, s, e).dispatch == s.dispatch
  {
  }

  lemma OverStep(c: Setup, s: Loop, e: Event, clean: bool)
    requires !s.dispatch.Over?
    ensures Next(c, s, e).dispatch == Over(clean) <==> EndsAs(c, s, e, clean)
  {
    if Enabled(s, e) && e.TakeInbound? {
      ItemEndsAs(c, Received(s), s.inbound[0], e.replies, clean);
    }
  }

  /** Event `i` of a run ended the session that way. */
  predicate EndedAt(c: Setup, greetings: seq<Message>, es: seq<Event>, i: nat, clean: bool) {
    i < |es| && EndsAs(c, After(c, greetings, es[..i]), es[i], clean)
  }

  /**
   Over every run: a session is over, cleanly or with an error, exactly if an event ended it so. It ends
   cleanly by a shutdown, an orderly close, or a writer found stopped, and with an error by silence, a
   broken stream, a failed writer, or a frame it could not bear or admit.
   */
  lemma {:induction false} EndedExactly(c: Setup, greetings: seq<Message>, es: seq<Event>, clean: bool)
    ensures After(c, greetings, es).dispatch == Over(clean) <==> exists i: nat :: EndedAt(c, greetings, es, i, clean)
  {
    if es != [] {
      var front, e := es[..|es| - 1], es[|es| - 1];
      assert es == front + [e];
      EndedExactly(c, greetings, front, clean);
      EndedAtStep(c, greetings, front, e, clean);
      var s := After(c, greetings, front);
      if s.dispatch.Over? {
        OverStays(c, s, e);
      } else {
        OverStep(c, s, e, clean);
      }
    }
  }

  lemma EndedAtStep(c: Setup, greetings: seq<Message>, es: seq<Event>, e: Event, clean: bool)
    ensures (exists i: nat :: EndedAt(c, greetings, es + [e], i, clean))
            <==> (exists i: nat :: EndedAt(c, greetings, es, i, clean)) || EndsAs(c, After(c, greetings, es), e, clean)
  {
    var es' := es + [e];
    assert es'[..|es|] == es && es'[|es|] == e;
    assert forall i :: 0 <= i < |es| ==> es'[..i] == es[..i] && es'[i] == es[i];
    if i: nat :| EndedAt(c, greetings, es', i, clean) {
      assert i < |es| ==> EndedAt(c, greetings, es, i, clean);
    }
    if i: nat :| EndedAt(c, greetings, es, i, clean) {
      assert EndedAt(c, greetings, es', i, clean);
    }
    if EndsAs(c, After(c, greetings, es), e, clean) {
      assert EndedAt(c, greetings, es', |es|, clean);
    }
  }
}
