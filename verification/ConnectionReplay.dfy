/** One guard from the first frame of a connection to the last: no frame is acted on twice. */
module ConnectionReplay {
  import opened Prelude
  import opened Encodings
  import opened Protocol
  import opened Replay
  import opened Pairing
  import opened SessionLoop
  import H = Handshake

  // ---- the guard over a list of frames --------------------------------------------------------

  ghost predicate AllAdmitted(es: seq<Envelope>) {
    forall i: nat :: i < |es| ==> AdmittedAt(es, i)
  }

  lemma AdmittedNext(es: seq<Envelope>, e: Envelope)
    requires AllAdmitted(es)
    ensures GuardAfter(es + [e]) == Admit(GuardAfter(es), e).1
    ensures Admit(GuardAfter(es), e).0 == None ==> AllAdmitted(es + [e])
  {
    var es' := es + [e];
    assert es'[..|es|] == es && es'[|es|] == e;
    forall i: nat | i < |es|
      ensures AdmittedAt(es', i)
    {
      assert es'[..i] == es[..i] && AdmittedAt(es, i);
    }
  }

  lemma AdmittedAreDistinct(es: seq<Envelope>)
    requires AllAdmitted(es)
    ensures Distinct(es)
  {
    forall i, j | 0 <= i < j < |es|
      ensures es[i] != es[j]
    {
      assert AdmittedAt(es, i) && AdmittedAt(es, j);
      NeverTwice(es, i, j);
    }
  }

  // ---- through the message loop ---------------------------------------------------------------

  function Frames(items: seq<Item>): seq<Envelope> {
    if items == [] then []
    else
      var front, last := Frames(items[..|items| - 1]), items[|items| - 1];
      if last.Frame? then front + [last.envelope] else front
  }

  lemma FramesAppend(items: seq<Item>, i: Item)
    ensures Frames(items + [i]) == Frames(items) + if i.Frame? then [i.envelope] else []
  {
    assert (items + [i])[..|items|] == items;
  }

  /** All frames of the connection up to item `n` of the session were admitted, and handlers got what they carry. */
  ghost predicate ActedUpTo(c: Setup, prior: seq<Envelope>, s: Loop, n: nat) {
    n <= |s.seen| && AllAdmitted(prior + Frames(s.seen[..n])) && s.dispatched == Wanted(c, s.seen[..n])
  }

  /** `prior` is what the handshake read. Only the frame a session ends on may have been refused. */
  ghost predicate Guarded(c: Setup, prior: seq<Envelope>, s: Loop) {
    if !s.dispatch.Over? then ActedUpTo(c, prior, s, |s.seen|) && s.guard == GuardAfter(prior + Frames(s.seen))
    else ActedUpTo(c, prior, s, |s.seen|) || (s.seen != [] && ActedUpTo(c, prior, s, |s.seen| - 1))
  }

  lemma OthersKeep(c: Setup, s: Loop, e: Event)
    requires Enabled(s, e) && !e.TakeInbound?
    ensures var s' := Step(c, s, e);
            s'.seen == s.seen && s'.guard == s.guard && s'.dispatched == s.dispatched && (s.dispatch.Over? ==> s'.dispatch.Over?)
  {
  }

  lemma OthersKeepGuarded(c: Setup, prior: seq<Envelope>, s: Loop, e: Event)
    requires Guarded(c, prior, s) && Enabled(s, e) && !e.TakeInbound?
    ensures Guarded(c, prior, Step(c, s, e))
  {
    OthersKeep(c, s, e);
  }

  lemma BodyActs(c: Setup, s: Loop, e: Envelope, replies: seq<Message>)
    ensures var s' := OnBody(c, s, e, replies);
            && s'.seen == s.seen && s'.guard == s.guard
            && s'.dispatched == s.dispatched + if IsWanted(c, Frame(e)) then [Message(e.body.capability, e.body.payload)] else []
  {
  }

  lemma WholeSeen(s: Loop)
    ensures s.seen[..|s.seen|] == s.seen
  {
  }

  lemma RefusedKeepsGuarded(c: Setup, prior: seq<Envelope>, s: Loop, s': Loop, item: Item)
    requires Guarded(c, prior, s) && !s.dispatch.Over? && s'.dispatch.Over?
    requires s'.seen == s.seen + [item] && s'.dispatched == s.dispatched
    ensures Guarded(c, prior, s')
  {
    WholeSeen(s);
    assert s'.seen[..|s.seen|] == s.seen;
  }

  lemma ActedKeepsGuarded(c: Setup, prior: seq<Envelope>, s: Loop, s': Loop, e: Envelope)
    requires Guarded(c, prior, s) && !s.dispatch.Over? && Admit(s.guard, e).0 == None
    requires s'.seen == s.seen + [Frame(e)] && s'.guard == Admit(s.guard, e).1
    requires s'.dispatched == s.dispatched + if IsWanted(c, Frame(e)) then [Message(e.body.capability, e.body.payload)] else []
    ensures Guarded(c, prior, s')
  {
    WholeSeen(s);
    WholeSeen(s');
    FramesAppend(s.seen, Frame(e));
    WantedAppend(c, s.seen, Frame(e));
    AdmittedNext(prior + Frames(s.seen), e);
    assert prior + Frames(s'.seen) == prior + Frames(s.seen) + [e];
    assert Wanted(c, s.seen) + [] == Wanted(c, s.seen);
  }

  lemma InboundKeepsGuarded(c: Setup, prior: seq<Envelope>, s: Loop, replies: seq<Message>)
    requires Guarded(c, prior, s) && Enabled(s, TakeInbound(replies))
    ensures Guarded(c, prior, Step(c, s, TakeInbound(replies)))
  {
    var item, r, s' := s.inbound[0], Received(s), Step(c, s, TakeInbound(replies));
    if item.Broken? {
      RefusedKeepsGuarded(c, prior, s, s', item);
    } else {
      var (violation, guard) := Admit(s.guard, item.envelope);
      if item.envelope.version != c.version || violation.Some? {
        RefusedKeepsGuarded(c, prior, s, s', item);
      } else {
        BodyActs(c, r.(guard := guard), item.envelope, replies);
        ActedKeepsGuarded(c, prior, s, s', item.envelope);
      }
    }
  }

  lemma {:induction false} RunIsGuarded(c: Setup, prior: seq<Envelope>, greetings: seq<Message>, es: seq<Event>)
    requires AllAdmitted(prior) && c.guard == GuardAfter(prior)
    ensures Guarded(c, prior, After(c, greetings, es))
  {
    if es == [] {
      assert prior + Frames([]) == prior;
    } else {
      var s, e := After(c, greetings, es[..|es| - 1]), es[|es| - 1];
      RunIsGuarded(c, prior, greetings, es[..|es| - 1]);
      if Enabled(s, e) && e.TakeInbound? {
        InboundKeepsGuarded(c, prior, s, e.replies);
      } else if Enabled(s, e) {
        OthersKeepGuarded(c, prior, s, e);
      }
    }
  }

  /**
   In every run of a session, all the frames acted on since the connection began are different, those of
   the handshake included, and a handler was given exactly what those of the session carry. At most the
   frame the session ended on was not acted on.
   */
  lemma NoFrameTwice(c: Setup, prior: seq<Envelope>, greetings: seq<Message>, es: seq<Event>) returns (n: nat)
    requires AllAdmitted(prior) && c.guard == GuardAfter(prior)
    ensures var s := After(c, greetings, es);
            && |s.seen| - 1 <= n <= |s.seen| && (!s.dispatch.Over? ==> n == |s.seen|)
            && Distinct(prior + Frames(s.seen[..n])) && s.dispatched == Wanted(c, s.seen[..n])
  {
    RunIsGuarded(c, prior, greetings, es);
    var s := After(c, greetings, es);
    n := if ActedUpTo(c, prior, s, |s.seen|) then |s.seen| else |s.seen| - 1;
    AdmittedAreDistinct(prior + Frames(s.seen[..n]));
  }

  // ---- from the handshake ---------------------------------------------------------------------

  lemma OneAdmitted(e: Envelope)
    requires Admit(FRESH_GUARD, e).0 == None
    ensures AllAdmitted([e]) && GuardAfter([e]) == Admit(FRESH_GUARD, e).1
  {
    assert [e][..0] == [];
  }

  lemma TwoAdmitted(a: Envelope, b: Envelope)
    requires Admit(FRESH_GUARD, a).0 == None && Admit(Admit(FRESH_GUARD, a).1, b).0 == None
    ensures AllAdmitted([a, b]) && GuardAfter([a, b]) == Admit(Admit(FRESH_GUARD, a).1, b).1
  {
    OneAdmitted(a);
    AdmittedNext([a], b);
    assert [a] + [b] == [a, b];
  }

  ghost predicate Carries(next: H.Next, guard: Guard) {
    if next.Awaiting? then next.waiting.guard == guard else next.result.Ok? ==> next.result.value.guard == guard
  }

  lemma OfferGuard(h: H.HelloAnswers, hello: Envelope, guard: Guard, version: nat)
    requires hello.body.Hello? && hello.body.device.Some?
    ensures Carries(H.Offer(h, hello, guard, version).1, guard)
  {
  }

  lemma DecideGuard(h: H.HelloAnswers, fp: Fingerprint, profile: Profile, hello: Envelope, guard: Guard, version: nat)
    requires hello.body.Hello? && hello.body.device.Some?
    ensures Carries(H.Decide(h, fp, profile, hello, guard, version).1, guard)
  {
    OfferGuard(h, hello, guard, version);
  }

  lemma GreetingGuard(h: H.HelloAnswers, fp: Fingerprint, profile: Profile, first: Result<Envelope, H.Failure>)
    ensures var next := H.Greet(h, fp, profile, first).1;
            next.Awaiting? || next.result.Ok? ==>
              first.Ok? && Admit(FRESH_GUARD, first.value).0 == None && Carries(next, Admit(FRESH_GUARD, first.value).1)
  {
    match H.Screen(fp, first)
    case Err(_) =>
    case Ok((hello, guard)) =>
      match NegotiateVersion(hello.body.minVersion, hello.body.maxVersion)
      case None =>
      case Some(version) => DecideGuard(h, fp, profile, hello, guard, version);
  }

  lemma RequestGuard(p: H.PairAnswers, fp: Fingerprint, profile: Profile, w: H.Waiting, second: Result<Envelope, H.Failure>)
    ensures var r := H.Pair(p, fp, profile, w, second).1;
            r.Ok? ==> second.Ok? && Admit(w.guard, second.value) == (None, r.value.guard)
  {
  }

  /** The frames the responder read on its way to a session. */
  function Heard(h: H.HelloAnswers, fp: Fingerprint, profile: Profile, first: Result<Envelope, H.Failure>, second: Result<Envelope, H.Failure>): seq<Envelope> {
    if first.Err? then []
    else if H.Greet(h, fp, profile, first).1.Ended? || second.Err? then [first.value]
    else [first.value, second.value]
  }

  lemma ResponderGuard(h: H.HelloAnswers, p: H.PairAnswers, fp: Fingerprint, profile: Profile,
                       first: Result<Envelope, H.Failure>, second: Result<Envelope, H.Failure>)
    requires H.Respond(h, p, fp, profile, first, second).1.Ok?
    ensures var frames := Heard(h, fp, profile, first, second);
            AllAdmitted(frames) && H.Respond(h, p, fp, profile, first, second).1.value.guard == GuardAfter(frames)
  {
    GreetingGuard(h, fp, profile, first);
    var next := H.Greet(h, fp, profile, first).1;
    if next.Ended? {
      OneAdmitted(first.value);
    } else {
      RequestGuard(p, fp, profile, next.waiting, second);
      TwoAdmitted(first.value, second.value);
    }
  }

  /** The whole connection, at the responder: whatever it read, in the handshake or after, it acted on once. */
  lemma ResponderActsOnce(h: H.HelloAnswers, p: H.PairAnswers, fp: Fingerprint, profile: Profile,
                          first: Result<Envelope, H.Failure>, second: Result<Envelope, H.Failure>,
                          c: Setup, greetings: seq<Message>, es: seq<Event>) returns (n: nat)
    requires H.Respond(h, p, fp, profile, first, second).1.Ok?
    requires c.guard == H.Respond(h, p, fp, profile, first, second).1.value.guard
    ensures var s := After(c, greetings, es);
            && |s.seen| - 1 <= n <= |s.seen| && (!s.dispatch.Over? ==> n == |s.seen|)
            && Distinct(Heard(h, fp, profile, first, second) + Frames(s.seen[..n])) && s.dispatched == Wanted(c, s.seen[..n])
  {
    ResponderGuard(h, p, fp, profile, first, second);
    n := NoFrameTwice(c, Heard(h, fp, profile, first, second), greetings, es);
  }

  // ---- and at the initiator -------------------------------------------------------------------

  ghost predicate CarriesOn(next: H.AfterAck, guard: Guard) {
    if next.SendRequest? then next.requested.guard == guard else next.outcome.Connected? ==> next.outcome.session.guard == guard
  }

  lemma FollowGuard(hmac: Hmac, c: H.ConnectAnswers, own: Fingerprint, server: Fingerprint, profile: Profile, ack: Envelope, guard: Guard)
    requires ack.body.HelloAck? && ack.body.device.Some?
    ensures CarriesOn(H.FollowAck(hmac, c, own, server, profile, ack, guard), guard)
  {
  }

  lemma AckGuard(hmac: Hmac, c: H.ConnectAnswers, own: Fingerprint, server: Fingerprint, profile: Profile, first: Result<Envelope, H.Failure>)
    ensures var next := H.OnAck(hmac, c, own, server, profile, first);
            next.SendRequest? || next.outcome.Connected? ==>
              first.Ok? && Admit(FRESH_GUARD, first.value).0 == None && CarriesOn(next, Admit(FRESH_GUARD, first.value).1)
  {
    match H.ScreenAck(server, first)
    case Err(_) =>
    case Ok((ack, guard)) => FollowGuard(hmac, c, own, server, profile, ack, guard);
  }

  lemma ResponseGuard(hmac: Hmac, c: H.ConnectAnswers, server: Fingerprint, profile: Profile, q: H.Requested, second: Result<Envelope, H.Failure>)
    ensures var outcome := H.OnResponse(hmac, c, server, profile, q, second).0;
            outcome.Connected? ==> second.Ok? && Admit(q.guard, second.value) == (None, outcome.session.guard)
  {
  }

  /** The frames the initiator read on its way to a session. */
  function HeardBack(hmac: Hmac, c: H.ConnectAnswers, own: Fingerprint, server: Fingerprint, profile: Profile,
                     first: Result<Envelope, H.Failure>, second: Result<Envelope, H.Failure>): seq<Envelope> {
    if first.Err? then []
    else if H.OnAck(hmac, c, own, server, profile, first).Settled? || second.Err? then [first.value]
    else [first.value, second.value]
  }

  lemma InitiatorGuard(hmac: Hmac, c: H.ConnectAnswers, own: Fingerprint, server: Fingerprint, profile: Profile,
                       first: Result<Envelope, H.Failure>, second: Result<Envelope, H.Failure>)
    requires H.ConnectAs(hmac, c, own, server, profile, first, second).0.Connected?
    ensures var frames := HeardBack(hmac, c, own, server, profile, first, second);
            AllAdmitted(frames) && H.ConnectAs(hmac, c, own, server, profile, first, second).0.session.guard == GuardAfter(frames)
  {
    AckGuard(hmac, c, own, server, profile, first);
    var next := H.OnAck(hmac, c, own, server, profile, first);
    if next.Settled? {
      OneAdmitted(first.value);
    } else {
      ResponseGuard(hmac, c, server, profile, next.requested, second);
      TwoAdmitted(first.value, second.value);
    }
  }

  /** The same with the key the initiator's own device information states. */
  function HeardBy(hmac: Hmac, c: H.ConnectAnswers, server: Fingerprint, profile: Profile,
                   first: Result<Envelope, H.Failure>, second: Result<Envelope, H.Failure>): seq<Envelope> {
    match FromHex(c.info.identityFingerprint, 32)
    case None => []
    case Some(own) => HeardBack(hmac, c, own, server, profile, first, second)
  }

  /** The whole connection, at the initiator. */
  lemma InitiatorActsOnce(hmac: Hmac, a: H.ConnectAnswers, server: Fingerprint, profile: Profile,
                          first: Result<Envelope, H.Failure>, second: Result<Envelope, H.Failure>,
                          c: Setup, greetings: seq<Message>, es: seq<Event>) returns (n: nat)
    requires H.Connect(hmac, a, server, profile, first, second).0.Connected?
    requires c.guard == H.Connect(hmac, a, server, profile, first, second).0.session.guard
    ensures var s := After(c, greetings, es);
            && |s.seen| - 1 <= n <= |s.seen| && (!s.dispatch.Over? ==> n == |s.seen|)
            && Distinct(HeardBy(hmac, a, server, profile, first, second) + Frames(s.seen[..n])) && s.dispatched == Wanted(c, s.seen[..n])
  {
    var own := FromHex(a.info.identityFingerprint, 32).value;
    InitiatorGuard(hmac, a, own, server, profile, first, second);
    n := NoFrameTwice(c, HeardBack(hmac, a, own, server, profile, first, second), greetings, es);
  }
}
