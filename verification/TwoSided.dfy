/** Both halves of the handshake, run against each other over a link that loses nothing. */
module TwoSided {
  import opened Prelude
  import opened Encodings
  import opened Protocol
  import opened Framing
  import opened Replay
  import opened Pairing
  import opened Capability
  import opened Handshake
  import Q = HandshakeRuns

  /** The device that scanned the code. */
  datatype Initiator = Initiator(fp: Fingerprint, own: ConnectAnswers)

  /** The desktop that shows it: its store, its pairing window, its human, and its clock at four moments. */
  datatype Responder = Responder(
    fp: Fingerprint,
    info: DeviceInfo,
    settings: T.Settings,
    peers: T.Peers,
    held: Option<Window>,
    hasOperator: bool,
    answer: Option<bool>,
    stores: bool,
    nonce: Option<Nonce>,
    ackId: Bytes,
    responseId: Bytes,
    atLookup: nat,
    atOffer: nat,
    atProof: nat,
    afterProof: nat)

  /** Each side says who it is, and writes get through. */
  ghost predicate Honest(i: Initiator, r: Responder) {
    && FromHex(i.own.info.identityFingerprint, 32) == Some(i.fp)
    && FromHex(r.info.identityFingerprint, 32) == Some(r.fp)
    && i.own.helloWritten && i.own.requestWritten
  }

  // ---- the host behind the responder ----------------------------------------------------------

  /** `pairing_mode_active`: a window with no operator attached does not count. */
  predicate WindowActive(r: Responder, now: nat) {
    r.hasOperator && r.held.Some? && !r.held.value.IsExhausted(now)
  }

  function HelloHost(r: Responder, fp: Fingerprint): HelloAnswers {
    HelloAnswers(r.settings.registry, r.info, T.LookupPeer(r.peers, fp), WindowActive(r, r.atLookup), WindowActive(r, r.atOffer),
                 r.nonce, r.ackId, true)
  }

  function Judge(hmac: Hmac, r: Responder, fp: Fingerprint, profile: Profile, nonce: Bytes, proof: Bytes): (Result<Bytes, PairingError>, Option<Window>) {
    VerifyHeld(hmac, r.held, r.atProof, r.afterProof, Attempt(profile, r.fp, fp, nonce, proof))
  }

  function PairCommand(device: DeviceInfo, fp: Fingerprint, mutual: seq<Text>, version: nat): T.Command {
    T.Pair(fp, device.deviceId, device.deviceName, mutual, version)
  }

  function PeersWith(r: Responder, fp: Fingerprint, w: Waiting): T.Peers {
    T.Apply(r.settings, r.peers, PairCommand(w.device, fp, Mutual(r.settings.registry, w.capabilities), w.version))
  }

  function PairHost(hmac: Hmac, r: Responder, fp: Fingerprint, profile: Profile, w: Waiting, proof: Bytes): PairAnswers {
    PairAnswers(Judge(hmac, r, fp, profile, w.nonce, proof).0, r.answer, r.settings.registry, r.stores, r.responseId, true,
                T.LookupPeer(PeersWith(r, fp, w), fp))
  }

  // ---- the run --------------------------------------------------------------------------------

  /** What the other side reads: the last envelope written, or the end of the stream. */
  function Delivered(calls: seq<Call>): Result<Envelope, Failure> {
    if calls == [] then Err(Unreadable(Closed))
    else if calls[|calls| - 1].Sent? && calls[|calls| - 1].ok then Ok(calls[|calls| - 1].envelope)
    else Delivered(calls[..|calls| - 1])
  }

  datatype Ending = Ending(responder: Result<Session, Failure>, calls: seq<Call>, held: Option<Window>, initiator: Outcome, stored: Option<Call>)

  function ProofIn(after: AfterAck): Bytes {
    if after.SendRequest? && after.request.body.PairRequest? then after.request.body.proof else []
  }

  function Greeting(i: Initiator, r: Responder, profile: Profile): (seq<Call>, Next) {
    Greet(HelloHost(r, i.fp), i.fp, profile, Ok(HelloOf(i.own)))
  }

  function Reaction(hmac: Hmac, i: Initiator, r: Responder, profile: Profile): AfterAck {
    OnAck(hmac, i.own, i.fp, r.fp, profile, Delivered(Greeting(i, r, profile).0))
  }

  /** The PAIR_REQUEST and what the responder does with it. */
  function Judgement(hmac: Hmac, i: Initiator, r: Responder, profile: Profile, w: Waiting, after: AfterAck): (seq<Call>, Result<Session, Failure>) {
    var read := if after.SendRequest? then Ok(after.request) else Err(Unreadable(Closed));
    Pair(PairHost(hmac, r, i.fp, profile, w, ProofIn(after)), i.fp, profile, w, read)
  }

  /** From the PAIR_REQUEST, if there is one, to the end. */
  function EndPairing(hmac: Hmac, i: Initiator, r: Responder, profile: Profile, greeted: seq<Call>, w: Waiting, after: AfterAck): Ending {
    var (judged, result) := Judgement(hmac, i, r, profile, w, after);
    var (outcome, stored) := Conclude(hmac, i.own, r.fp, profile, after, Delivered(judged));
    var held := if |judged| > 1 then Judge(hmac, r, i.fp, profile, w.nonce, ProofIn(after)).1 else r.held;
    Ending(result, greeted + judged, held, outcome, stored)
  }

  function RunBoth(hmac: Hmac, i: Initiator, r: Responder, profile: Profile): Ending {
    var (greeted, next) := Greeting(i, r, profile);
    var after := Reaction(hmac, i, r, profile);
    match next
    case Ended(result) =>
      var (outcome, stored) := Conclude(hmac, i.own, r.fp, profile, after, Err(Unreadable(Closed)));
      Ending(result, greeted, r.held, outcome, stored)
    case Awaiting(w) => EndPairing(hmac, i, r, profile, greeted, w, after)
  }

  /** A greeting that ended is the responder's whole half, and the initiator reads the end of the stream after it. */
  lemma EndedIsBothHalves(hmac: Hmac, i: Initiator, r: Responder, profile: Profile, p: PairAnswers, second: Result<Envelope, Failure>)
    requires Honest(i, r) && Greeting(i, r, profile).1.Ended?
    ensures var e, greeted := RunBoth(hmac, i, r, profile), Greeting(i, r, profile).0;
            && (e.calls, e.responder) == Respond(HelloHost(r, i.fp), p, i.fp, profile, Ok(HelloOf(i.own)), second)
            && (e.initiator, e.stored) == Connect(hmac, i.own, r.fp, profile, Delivered(greeted), Err(Unreadable(Closed)))
  {
  }

  /** Otherwise each half reads what the other wrote. */
  lemma PairingIsBothHalves(hmac: Hmac, i: Initiator, r: Responder, profile: Profile)
    requires Honest(i, r) && Greeting(i, r, profile).1.Awaiting?
    ensures var e, after := RunBoth(hmac, i, r, profile), Reaction(hmac, i, r, profile);
            var (greeted, w) := (Greeting(i, r, profile).0, Greeting(i, r, profile).1.waiting);
            var judged := Judgement(hmac, i, r, profile, w, after).0;
            var request := if after.SendRequest? then Ok(after.request) else Err(Unreadable(Closed));
            && (e.calls, e.responder)
               == Respond(HelloHost(r, i.fp), PairHost(hmac, r, i.fp, profile, w, ProofIn(after)), i.fp, profile, Ok(HelloOf(i.own)), request)
            && (e.initiator, e.stored) == Connect(hmac, i.own, r.fp, profile, Delivered(greeted), Delivered(judged))
  {
  }

  // ---- what the responder's words mean to the initiator ---------------------------------------

  /** Calls that write nothing change nothing about what is read. */
  lemma {:induction false} DeliveredSkips(before: seq<Call>, calls: seq<Call>)
    requires forall k :: 0 <= k < |before| ==> !before[k].Sent?
    ensures Delivered(before + calls) == Delivered(calls)
  {
    var all := before + calls;
    if calls != [] {
      DeliveredSkips(before, calls[..|calls| - 1]);
      assert all[..|all| - 1] == before + calls[..|calls| - 1];
    } else if before != [] {
      DeliveredSkips(before[..|before| - 1], []);
      assert all == before && before[..|before| - 1] + [] == before[..|before| - 1];
    }
  }

  /** A session is one the responder said `Trusted` to, an awaited request one it sent a nonce for. */
  ghost predicate Truthful(delivered: Result<Envelope, Failure>, h: HelloAnswers, hello: Envelope, version: nat, next: Next) {
    match next
    case Awaiting(w) => delivered == Ok(Ack(h, hello, version, HelloStatus.PairingRequired, version, h.registry, w.nonce))
    case Ended(Ok(_)) => delivered == Ok(Ack(h, hello, version, HelloStatus.Trusted, version, h.registry, []))
    case Ended(Err(_)) =>
      delivered.Ok? ==> delivered.value.body.HelloAck? && delivered.value.body.status != HelloStatus.Trusted && delivered.value.body.nonce == []
  }

  lemma OfferIsTruthful(h: HelloAnswers, hello: Envelope, guard: Guard, version: nat)
    requires hello.body.Hello? && hello.body.device.Some? && h.ackWritten
    ensures var (calls, next) := Offer(h, hello, guard, version);
            Truthful(Delivered(calls), h, hello, version, next)
  {
    var (calls, next) := Offer(h, hello, guard, version);
    if h.window && h.nonce.None? {
      DeliveredSkips(calls, []);
      assert calls + [] == calls;
    }
  }

  lemma DecideIsTruthful(h: HelloAnswers, fp: Fingerprint, profile: Profile, hello: Envelope, guard: Guard, version: nat)
    requires hello.body.Hello? && hello.body.device.Some? && h.ackWritten
    ensures var (calls, next) := Decide(h, fp, profile, hello, guard, version);
            Truthful(Delivered(calls), h, hello, version, next)
  {
    OfferIsTruthful(h, hello, guard, version);
    var (calls, _) := Offer(h, hello, guard, version);
    if h.status.StatusRevoked? {
      DeliveredSkips([LookedUp(fp, h.status), AskedWindow(true)], calls);
    } else {
      DeliveredSkips([LookedUp(fp, h.status)], calls);
    }
  }

  lemma GreetIsTruthful(h: HelloAnswers, fp: Fingerprint, profile: Profile, hello: Envelope)
    requires h.ackWritten && hello.body.Hello? && hello.body.minVersion == hello.body.maxVersion == 1
    ensures var (calls, next) := Greet(h, fp, profile, Ok(hello));
            Truthful(Delivered(calls), h, hello, 1, next)
  {
    var read: Result<Envelope, Failure> := Ok(hello);
    match Screen(fp, read)
    case Err(_) =>
      DeliveredSkips([Read(read)], []);
      assert [Read(read)] + [] == [Read(read)];
    case Ok((_, guard)) =>
      assert Common(1, 1, 1);
      DecideIsTruthful(h, fp, profile, hello, guard, 1);
      DeliveredSkips([Read(read)], Decide(h, fp, profile, hello, guard, 1).0);
  }

  /** An `Accepted` goes out exactly when the responder has a session. */
  lemma PairIsTruthful(p: PairAnswers, fp: Fingerprint, profile: Profile, w: Waiting, request: Envelope)
    requires p.responseWritten
    ensures var (calls, r) := Pair(p, fp, profile, w, Ok(request));
            && (r.Ok? ==> Delivered(calls) == Ok(Response(p, w, request, PairStatus.Accepted, if p.verdict.Ok? then p.verdict.value else [])))
            && (r.Err? && Delivered(calls).Ok? ==> Delivered(calls).value.body.PairResponse? && Delivered(calls).value.body.pairStatus != PairStatus.Accepted)
  {
    var (calls, r) := Pair(p, fp, profile, w, Ok(request));
    if forall k :: 0 <= k < |calls| ==> !calls[k].Sent? {
      DeliveredSkips(calls, []);
      assert calls + [] == calls;
    } else if r.Ok? {
      assert calls[|calls| - 2].Sent? && calls[|calls| - 2].ok;
      assert Delivered(calls) == Delivered(calls[..|calls| - 1]);
      assert calls[..|calls| - 1][|calls| - 2] == calls[|calls| - 2];
    }
  }

  // ---- every run ------------------------------------------------------------------------------

  /** The two sessions are the two ends of one connection. */
  ghost predicate Agree(i: Initiator, r: Responder, s: Session, s': Session) {
    && s.established.peer == i.fp && s'.established.peer == r.fp
    && s.established.profile == s'.established.profile
    && s.established.version == s'.established.version == s.version == s'.version
    && s.sequence == s'.sequence
    && (forall c :: c in s.established.capabilities ==> c in s'.established.capabilities)
    && (forall c :: c in s'.established.capabilities <==> c in i.own.registry && c in r.settings.registry)
  }

  /** The token the responder showed confirms as the token the initiator scanned. */
  predicate SameConfirmation(hmac: Hmac, i: Initiator, r: Responder, profile: Profile) {
    && i.own.token.Some? && r.held.Some? && r.nonce.Some?
    && ComputeConfirmation(hmac, profile, r.held.value.token, r.fp, i.fp, r.nonce.value)
       == ComputeConfirmation(hmac, profile, i.own.token.value, r.fp, i.fp, r.nonce.value)
  }

  /** What the initiator needs on top of a session at the responder. */
  predicate Completes(hmac: Hmac, i: Initiator, r: Responder, profile: Profile) {
    && |r.ackId| == MESSAGE_ID_LEN
    && (T.LookupPeer(r.peers, i.fp).StatusTrusted?
        || (&& |r.responseId| == MESSAGE_ID_LEN && r.responseId != r.ackId
            && i.own.stored && SameConfirmation(hmac, i, r, profile)))
  }

  lemma FirstIsAdmitted(e: Envelope)
    requires e.sequence == 1
    ensures Admit(FRESH_GUARD, e) == if |e.messageId| != MESSAGE_ID_LEN then (Some(BadMessageId), FRESH_GUARD)
                                     else (None, Guard(1, {e.messageId}, [e.messageId]))
  {
    assert [] + [e.messageId] == [e.messageId] && {} + {e.messageId} == {e.messageId};
  }

  lemma AckIsScreened(r: Responder, ack: Envelope)
    requires FromHex(r.info.identityFingerprint, 32) == Some(r.fp)
    requires ack.sequence == 1 && ack.body.HelloAck? && ack.body.device == Some(r.info)
    ensures ScreenAck(r.fp, Ok(ack)) == if |ack.messageId| != MESSAGE_ID_LEN then Err(NotAdmitted(BadMessageId))
                                        else Ok((ack, Guard(1, {ack.messageId}, [ack.messageId])))
  {
    FirstIsAdmitted(ack);
  }

  lemma TrustedSession(h: HelloAnswers, fp: Fingerprint, profile: Profile, hello: Envelope)
    requires hello.body.Hello? && hello.body.minVersion == hello.body.maxVersion == 1
    ensures var next := Greet(h, fp, profile, Ok(hello)).1;
            && (next.Ended? && next.result.Ok? ==>
                  var s := next.result.value;
                  && h.status.StatusTrusted? && s.established.peer == fp && s.established.profile == profile
                  && s.established.version == s.version == 1 && s.sequence == 1
                  && s.established.capabilities == Allowed(Mutual(h.registry, hello.body.capabilities), h.status.granted))
            && (next.Awaiting? ==> !h.status.StatusTrusted? && h.nonce == Some(next.waiting.nonce)
                                   && next.waiting.version == 1 && next.waiting.capabilities == hello.body.capabilities)
  {
  }

  /** What a responder that trusts says, as the initiator takes it. */
  lemma TrustedReaction(hmac: Hmac, i: Initiator, r: Responder, profile: Profile)
    requires Honest(i, r) && Greeting(i, r, profile).1.Ended? && Greeting(i, r, profile).1.result.Ok?
    ensures Reaction(hmac, i, r, profile) ==
              if |r.ackId| != MESSAGE_ID_LEN then Settled(Failed(NotAdmitted(BadMessageId)))
              else Settled(Connected(Session(Established(r.fp, profile, r.info, Mutual(i.own.registry, r.settings.registry), 1),
                                             1, 1, Guard(1, {r.ackId}, [r.ackId]))))
  {
    GreetIsTruthful(HelloHost(r, i.fp), i.fp, profile, HelloOf(i.own));
    AckIsScreened(r, Delivered(Greeting(i, r, profile).0).value);
  }

  lemma RefusedReaction(hmac: Hmac, i: Initiator, r: Responder, profile: Profile)
    requires Honest(i, r) && Greeting(i, r, profile).1.Ended? && Greeting(i, r, profile).1.result.Err?
    ensures var after := Reaction(hmac, i, r, profile);
            after.Settled? && !after.outcome.Connected?
  {
    GreetIsTruthful(HelloHost(r, i.fp), i.fp, profile, HelloOf(i.own));
    NotTrustedNotConnected(hmac, i, r, profile, Delivered(Greeting(i, r, profile).0));
  }

  lemma EndedEnding(hmac: Hmac, i: Initiator, r: Responder, profile: Profile)
    requires Greeting(i, r, profile).1.Ended? && Reaction(hmac, i, r, profile).Settled?
    ensures RunBoth(hmac, i, r, profile)
            == Ending(Greeting(i, r, profile).1.result, Greeting(i, r, profile).0, r.held, Reaction(hmac, i, r, profile).outcome, None)
  {
  }

  /** A greeting that ended: the initiator connects exactly when it was trusted and can read the id. */
  lemma EndedRun(hmac: Hmac, i: Initiator, r: Responder, profile: Profile)
    requires Honest(i, r) && Greeting(i, r, profile).1.Ended?
    ensures var e := RunBoth(hmac, i, r, profile);
            && e.stored == None
            && (e.initiator.Connected? <==> e.responder.Ok? && Completes(hmac, i, r, profile))
            && (e.initiator.Connected? ==> Agree(i, r, e.responder.value, e.initiator.session))
  {
    TrustedSession(HelloHost(r, i.fp), i.fp, profile, HelloOf(i.own));
    if Greeting(i, r, profile).1.result.Ok? {
      TrustedReaction(hmac, i, r, profile);
    } else {
      RefusedReaction(hmac, i, r, profile);
    }
    EndedEnding(hmac, i, r, profile);
  }

  lemma NotTrustedNotConnected(hmac: Hmac, i: Initiator, r: Responder, profile: Profile, read: Result<Envelope, Failure>)
    requires read.Ok? ==> read.value.body.HelloAck? && read.value.body.status != HelloStatus.Trusted && read.value.body.nonce == []
    ensures var after := OnAck(hmac, i.own, i.fp, r.fp, profile, read);
            after.Settled? && !after.outcome.Connected?
  {
    Q.AckIsJudged(hmac, i.own, i.fp, r.fp, profile, read);
  }

  lemma ScreenedReaction(hmac: Hmac, i: Initiator, r: Responder, profile: Profile, ack: Envelope)
    requires FromHex(r.info.identityFingerprint, 32) == Some(r.fp)
    requires ack.sequence == 1 && ack.body.HelloAck? && ack.body.device == Some(r.info)
    ensures OnAck(hmac, i.own, i.fp, r.fp, profile, Ok(ack)) ==
              if |ack.messageId| != MESSAGE_ID_LEN then Settled(Failed(NotAdmitted(BadMessageId)))
              else FollowAck(hmac, i.own, i.fp, r.fp, profile, ack, Guard(1, {ack.messageId}, [ack.messageId]))
  {
    AckIsScreened(r, ack);
  }

  function OfferOf(i: Initiator, r: Responder, nonce: Bytes): Envelope {
    Ack(HelloHost(r, i.fp), HelloOf(i.own), 1, HelloStatus.PairingRequired, 1, r.settings.registry, nonce)
  }

  lemma OfferIsRead(i: Initiator, r: Responder, profile: Profile)
    requires Honest(i, r) && Greeting(i, r, profile).1.Awaiting?
    ensures Delivered(Greeting(i, r, profile).0) == Ok(OfferOf(i, r, Greeting(i, r, profile).1.waiting.nonce))
  {
    GreetIsTruthful(HelloHost(r, i.fp), i.fp, profile, HelloOf(i.own));
  }

  /** A pairing that was offered: what the initiator sends. */
  lemma OfferedRun(hmac: Hmac, i: Initiator, r: Responder, profile: Profile)
    requires Honest(i, r) && Greeting(i, r, profile).1.Awaiting?
    ensures Reaction(hmac, i, r, profile) ==
              if |r.ackId| != MESSAGE_ID_LEN then Settled(Failed(NotAdmitted(BadMessageId)))
              else FollowOffer(hmac, i, r, profile, Greeting(i, r, profile).1.waiting.nonce)
  {
    var nonce := Greeting(i, r, profile).1.waiting.nonce;
    OfferIsRead(i, r, profile);
    ScreenedReaction(hmac, i, r, profile, OfferOf(i, r, nonce));
    OfferIsFollowed(hmac, i, r, profile, nonce);
  }

  function FollowOffer(hmac: Hmac, i: Initiator, r: Responder, profile: Profile, nonce: Bytes): AfterAck {
    if i.own.token.None? then Settled(MustPair)
    else SendRequest(
      Envelope(1, i.own.requestId, 2, [], PairRequest(ComputeProof(hmac, profile, i.own.token.value, r.fp, i.fp, nonce))),
      Requested(i.fp, 1, Guard(1, {r.ackId}, [r.ackId]), r.info, r.settings.registry, nonce, i.own.token.value))
  }

  lemma OfferIsFollowed(hmac: Hmac, i: Initiator, r: Responder, profile: Profile, nonce: Nonce)
    ensures FollowAck(hmac, i.own, i.fp, r.fp, profile, OfferOf(i, r, nonce), Guard(1, {r.ackId}, [r.ackId]))
            == FollowOffer(hmac, i, r, profile, nonce)
  {
  }

  /** What the initiator makes of the responder's answer. */
  lemma ResponseIsTaken(hmac: Hmac, i: Initiator, r: Responder, profile: Profile, q: Requested, response: Envelope)
    requires q.guard == Guard(1, {r.ackId}, [r.ackId]) && response.sequence == 2 && response.body.PairResponse?
    ensures var (outcome, stored) := OnResponse(hmac, i.own, r.fp, profile, q, Ok(response));
            && (outcome.Connected? <==>
                  && |response.messageId| == MESSAGE_ID_LEN && response.messageId != r.ackId
                  && response.body.pairStatus == PairStatus.Accepted && i.own.stored
                  && response.body.confirmation == ComputeConfirmation(hmac, profile, q.token, r.fp, q.own, q.nonce))
            && (outcome.Connected? ==>
                  var s := outcome.session;
                  && s.established == Established(r.fp, profile, q.remote, Mutual(i.own.registry, q.capabilities), q.version)
                  && s.version == q.version && s.sequence == 2)
            && (stored.Some? ==> response.body.pairStatus == PairStatus.Accepted)
            && (outcome.Connected? ==> stored == Some(StoredPeer(q.remote, r.fp, Mutual(i.own.registry, q.capabilities), q.version, true)))
  {
  }

  /** The confirmation of a proof that verified, under the token of the window. */
  lemma VerdictConfirms(hmac: Hmac, r: Responder, fp: Fingerprint, profile: Profile, nonce: Bytes, proof: Bytes)
    ensures var (verdict, held) := Judge(hmac, r, fp, profile, nonce, proof);
            verdict.Ok? ==>
              && r.held.Some? && held == None && proof == ComputeProof(hmac, profile, r.held.value.token, r.fp, fp, nonce)
              && verdict.value == ComputeConfirmation(hmac, profile, r.held.value.token, r.fp, fp, nonce)
  {
  }

  /** The responder's session out of a pairing. */
  lemma PairedSession(p: PairAnswers, fp: Fingerprint, profile: Profile, w: Waiting, read: Result<Envelope, Failure>)
    ensures var r := Pair(p, fp, profile, w, read).1;
            r.Ok? ==>
              && read.Ok? && p.verdict.Ok? && p.answer == Some(true) && p.stored
              && r.value.established == Established(fp, profile, w.device, Allowed(Mutual(p.registry, w.capabilities), Granted(p.status)), w.version)
              && r.value.version == w.version && r.value.sequence == 2
  {
  }

  /** An ending with a request, as the responder's and the initiator's halves give it. */
  ghost predicate IsRequestedEnding(hmac: Hmac, i: Initiator, r: Responder, profile: Profile, greeted: seq<Call>, w: Waiting, after: AfterAck, e: Ending)
    requires after.SendRequest?
  {
    var (judged, result) := Pair(PairHost(hmac, r, i.fp, profile, w, ProofIn(after)), i.fp, profile, w, Ok(after.request));
    && e.responder == result && e.calls == greeted + judged
    && (e.initiator, e.stored) == OnResponse(hmac, i.own, r.fp, profile, after.requested, Delivered(judged))
    && (|judged| > 1 ==> e.held == Judge(hmac, r, i.fp, profile, w.nonce, ProofIn(after)).1)
  }

  lemma EndsWithRequest(hmac: Hmac, i: Initiator, r: Responder, profile: Profile, greeted: seq<Call>, w: Waiting, after: AfterAck)
    requires i.own.requestWritten && after.SendRequest?
    ensures IsRequestedEnding(hmac, i, r, profile, greeted, w, after, EndPairing(hmac, i, r, profile, greeted, w, after))
  {
  }

  lemma EndsWithoutRequest(hmac: Hmac, i: Initiator, r: Responder, profile: Profile, greeted: seq<Call>, w: Waiting, after: AfterAck)
    requires after.Settled?
    ensures var e := EndPairing(hmac, i, r, profile, greeted, w, after);
            e.responder.Err? && e.initiator == after.outcome && e.stored == None
  {
  }

  lemma RequestedEnding(hmac: Hmac, i: Initiator, r: Responder, profile: Profile)
    requires Honest(i, r) && Greeting(i, r, profile).1.Awaiting? && Reaction(hmac, i, r, profile).SendRequest?
    ensures IsRequestedEnding(hmac, i, r, profile, Greeting(i, r, profile).0, Greeting(i, r, profile).1.waiting,
                              Reaction(hmac, i, r, profile), RunBoth(hmac, i, r, profile))
  {
    EndsWithRequest(hmac, i, r, profile, Greeting(i, r, profile).0, Greeting(i, r, profile).1.waiting, Reaction(hmac, i, r, profile));
  }

  /** A pairing that got as far as a request. */
  lemma RequestedRun(hmac: Hmac, i: Initiator, r: Responder, profile: Profile)
    requires Honest(i, r) && Greeting(i, r, profile).1.Awaiting? && |r.ackId| == MESSAGE_ID_LEN && i.own.token.Some?
    ensures var e := RunBoth(hmac, i, r, profile);
            && (e.stored.Some? ==> e.responder.Ok?)
            && (e.initiator.Connected? <==> e.responder.Ok? && Completes(hmac, i, r, profile))
            && (e.initiator.Connected? ==> Agree(i, r, e.responder.value, e.initiator.session))
  {
    OfferedRun(hmac, i, r, profile);
    RequestedEnding(hmac, i, r, profile);
    TrustedSession(HelloHost(r, i.fp), i.fp, profile, HelloOf(i.own));
    var w, after := Greeting(i, r, profile).1.waiting, Reaction(hmac, i, r, profile);
    var p := PairHost(hmac, r, i.fp, profile, w, ProofIn(after));
    PairIsTruthful(p, i.fp, profile, w, after.request);
    PairedSession(p, i.fp, profile, w, Ok(after.request));
    VerdictConfirms(hmac, r, i.fp, profile, w.nonce, ProofIn(after));
    var delivered := Delivered(Pair(p, i.fp, profile, w, Ok(after.request)).0);
    if RunBoth(hmac, i, r, profile).responder.Ok? {
      ResponseIsTaken(hmac, i, r, profile, after.requested, delivered.value);
    } else {
      NotAcceptedNotConnected(hmac, i, r, profile, after.requested, delivered);
    }
  }

  lemma NotAcceptedNotConnected(hmac: Hmac, i: Initiator, r: Responder, profile: Profile, q: Requested, read: Result<Envelope, Failure>)
    requires read.Ok? ==> read.value.body.PairResponse? && read.value.body.pairStatus != PairStatus.Accepted
    ensures var (outcome, stored) := OnResponse(hmac, i.own, r.fp, profile, q, read);
            !outcome.Connected? && stored == None
  {
  }

  lemma OfferNotTaken(hmac: Hmac, i: Initiator, r: Responder, profile: Profile)
    requires Honest(i, r) && Greeting(i, r, profile).1.Awaiting? && (|r.ackId| != MESSAGE_ID_LEN || i.own.token.None?)
    ensures Reaction(hmac, i, r, profile).Settled? && !Reaction(hmac, i, r, profile).outcome.Connected?
  {
    OfferedRun(hmac, i, r, profile);
  }

  lemma SettledRun(hmac: Hmac, i: Initiator, r: Responder, profile: Profile)
    requires Greeting(i, r, profile).1.Awaiting? && Reaction(hmac, i, r, profile).Settled?
    ensures var e := RunBoth(hmac, i, r, profile);
            e.responder.Err? && e.initiator == Reaction(hmac, i, r, profile).outcome && e.stored == None
  {
    EndsWithoutRequest(hmac, i, r, profile, Greeting(i, r, profile).0, Greeting(i, r, profile).1.waiting, Reaction(hmac, i, r, profile));
  }

  lemma UnrequestedRun(hmac: Hmac, i: Initiator, r: Responder, profile: Profile)
    requires Honest(i, r) && Greeting(i, r, profile).1.Awaiting? && (|r.ackId| != MESSAGE_ID_LEN || i.own.token.None?)
    ensures var e := RunBoth(hmac, i, r, profile);
            e.stored == None && !e.initiator.Connected? && e.responder.Err?
  {
    OfferNotTaken(hmac, i, r, profile);
    SettledRun(hmac, i, r, profile);
  }

  /**
   For every token, window, answer, store and message id: the initiator is connected exactly when the
   responder is and `Completes` holds, the two ends then agree, and the initiator never records a
   responder that did not record it.
   */
  lemma EndsAgree(hmac: Hmac, i: Initiator, r: Responder, profile: Profile)
    requires Honest(i, r)
    ensures var e := RunBoth(hmac, i, r, profile);
            && (e.stored.Some? ==> e.responder.Ok?)
            && (e.initiator.Connected? <==> e.responder.Ok? && Completes(hmac, i, r, profile))
            && (e.initiator.Connected? ==> Agree(i, r, e.responder.value, e.initiator.session))
  {
    if Greeting(i, r, profile).1.Ended? {
      EndedRun(hmac, i, r, profile);
    } else if |r.ackId| != MESSAGE_ID_LEN || i.own.token.None? {
      UnrequestedRun(hmac, i, r, profile);
    } else {
      RequestedRun(hmac, i, r, profile);
    }
  }

  // ---- the run that pairs ---------------------------------------------------------------------

  /** An open window showing the token that was scanned, a yes, stores that work, and good message ids. */
  ghost predicate Ready(i: Initiator, r: Responder) {
    && !T.LookupPeer(r.peers, i.fp).StatusTrusted?
    && WindowActive(r, r.atLookup) && WindowActive(r, r.atOffer) && WindowActive(r, r.atProof)
    && i.own.token == Some(r.held.value.token) && r.nonce.Some?
    && r.answer == Some(true) && r.stores && i.own.stored
    && |i.own.helloId| == |i.own.requestId| == |r.ackId| == |r.responseId| == MESSAGE_ID_LEN
    && i.own.helloId != i.own.requestId && r.ackId != r.responseId
  }

  lemma OfferIsMade(h: HelloAnswers, fp: Fingerprint, profile: Profile, hello: Envelope, guard: Guard)
    requires hello.body.Hello? && hello.body.device.Some? && !h.status.StatusTrusted?
    requires h.ackWritten && h.window && h.windowIfRevoked && h.nonce.Some?
    ensures Decide(h, fp, profile, hello, guard, 1).1
            == Awaiting(Waiting(1, guard, hello.body.device.value, hello.body.capabilities, h.nonce.value))
  {
  }

  lemma HelloIsScreened(i: Initiator)
    requires FromHex(i.own.info.identityFingerprint, 32) == Some(i.fp) && |i.own.helloId| == MESSAGE_ID_LEN
    ensures Screen(i.fp, Ok(HelloOf(i.own))) == Ok((HelloOf(i.own), Guard(1, {i.own.helloId}, [i.own.helloId])))
  {
    FirstIsAdmitted(HelloOf(i.own));
  }

  function WaitingFor(i: Initiator, r: Responder): Waiting
    requires r.nonce.Some?
  {
    Waiting(1, Guard(1, {i.own.helloId}, [i.own.helloId]), i.own.info, i.own.registry, r.nonce.value)
  }

  lemma GreetingAwaits(i: Initiator, r: Responder, profile: Profile)
    requires Honest(i, r) && Ready(i, r)
    ensures Greeting(i, r, profile).1 == Awaiting(WaitingFor(i, r))
  {
    var hello := HelloOf(i.own);
    HelloIsScreened(i);
    assert Common(1, 1, 1);
    OfferIsMade(HelloHost(r, i.fp), i.fp, profile, hello, Guard(1, {i.own.helloId}, [i.own.helloId]));
  }

  /** A window that is open and shows this token accepts this proof, and is used up by it. */
  lemma ProofIsAccepted(hmac: Hmac, i: Initiator, r: Responder, profile: Profile)
    requires Ready(i, r)
    ensures Judge(hmac, r, i.fp, profile, r.nonce.value, ComputeProof(hmac, profile, i.own.token.value, r.fp, i.fp, r.nonce.value))
            == (Ok(ComputeConfirmation(hmac, profile, i.own.token.value, r.fp, i.fp, r.nonce.value)), None)
  {
  }

  lemma RequestIsScreened(i: Initiator, r: Responder, request: Envelope)
    requires Ready(i, r) && request.version == 1 && request.messageId == i.own.requestId && request.sequence == 2 && request.body.PairRequest?
    ensures ScreenRequest(WaitingFor(i, r), Ok(request)).Ok?
  {
  }

  lemma RequestIsPaired(p: PairAnswers, fp: Fingerprint, profile: Profile, w: Waiting, request: Envelope)
    requires ScreenRequest(w, Ok(request)).Ok? && p.verdict.Ok? && p.answer == Some(true) && p.stored && p.responseWritten
    ensures var (calls, r) := Pair(p, fp, profile, w, Ok(request));
            && r.Ok? && |calls| > 3 && calls[3] == StoredPeer(w.device, fp, Mutual(p.registry, w.capabilities), w.version, true)
  {
  }

  /** What pairing grants is what is both mutual and granted without asking. */
  lemma AutoGrants(r: Responder, fp: Fingerprint, w: Waiting)
    ensures var status := T.LookupPeer(PeersWith(r, fp, w), fp);
            && status.StatusTrusted?
            && forall c :: c in status.granted <==> c in Mutual(r.settings.registry, w.capabilities) && c in r.settings.autoGrant
  {
  }

  /** What a ready run ends in. */
  ghost predicate Paired(i: Initiator, r: Responder, e: Ending) {
    && e.responder.Ok? && e.initiator.Connected? && Agree(i, r, e.responder.value, e.initiator.session)
    && StoredPeer(i.own.info, i.fp, Mutual(r.settings.registry, i.own.registry), 1, true) in e.calls
    && e.stored == Some(StoredPeer(r.info, r.fp, Mutual(i.own.registry, r.settings.registry), 1, true))
    && e.initiator.session.established.capabilities == Mutual(r.settings.registry, i.own.registry)
    && (forall c :: c in e.responder.value.established.capabilities
                    <==> c in i.own.registry && c in r.settings.registry && c in r.settings.autoGrant)
    && e.held == None
  }

  lemma ReadyReaction(hmac: Hmac, i: Initiator, r: Responder, profile: Profile)
    requires Honest(i, r) && Ready(i, r)
    ensures Greeting(i, r, profile).1 == Awaiting(WaitingFor(i, r))
    ensures Reaction(hmac, i, r, profile) == FollowOffer(hmac, i, r, profile, r.nonce.value)
  {
    GreetingAwaits(i, r, profile);
    OfferedRun(hmac, i, r, profile);
  }

  /** The responder's answers in a ready run. */
  function ReadyHost(hmac: Hmac, i: Initiator, r: Responder, profile: Profile): PairAnswers
    requires r.nonce.Some?
  {
    PairHost(hmac, r, i.fp, profile, WaitingFor(i, r), ProofIn(FollowOffer(hmac, i, r, profile, r.nonce.value)))
  }

  lemma ReadyJudgement(hmac: Hmac, i: Initiator, r: Responder, profile: Profile)
    requires Ready(i, r)
    ensures var after := FollowOffer(hmac, i, r, profile, r.nonce.value);
            var (calls, result) := Pair(ReadyHost(hmac, i, r, profile), i.fp, profile, WaitingFor(i, r), Ok(after.request));
            && result.Ok? && |calls| > 3 && calls[3] == StoredPeer(i.own.info, i.fp, Mutual(r.settings.registry, i.own.registry), 1, true)
            && Judge(hmac, r, i.fp, profile, r.nonce.value, ProofIn(after)).1 == None
  {
    var after := FollowOffer(hmac, i, r, profile, r.nonce.value);
    ProofIsAccepted(hmac, i, r, profile);
    RequestIsScreened(i, r, after.request);
    RequestIsPaired(ReadyHost(hmac, i, r, profile), i.fp, profile, WaitingFor(i, r), after.request);
  }

  lemma ReadyCapabilities(hmac: Hmac, i: Initiator, r: Responder, profile: Profile)
    requires Ready(i, r)
    ensures var after := FollowOffer(hmac, i, r, profile, r.nonce.value);
            var result := Pair(ReadyHost(hmac, i, r, profile), i.fp, profile, WaitingFor(i, r), Ok(after.request)).1;
            && result.Ok?
            && forall c :: c in result.value.established.capabilities
                           <==> c in i.own.registry && c in r.settings.registry && c in r.settings.autoGrant
  {
    var after := FollowOffer(hmac, i, r, profile, r.nonce.value);
    ReadyJudgement(hmac, i, r, profile);
    PairedSession(ReadyHost(hmac, i, r, profile), i.fp, profile, WaitingFor(i, r), Ok(after.request));
    AutoGrants(r, i.fp, WaitingFor(i, r));
  }

  lemma InSecond(a: seq<Call>, b: seq<Call>, k: nat)
    requires k < |b|
    ensures b[k] in a + b
  {
    assert (a + b)[|a| + k] == b[k];
  }

  lemma ReadyResponder(hmac: Hmac, i: Initiator, r: Responder, profile: Profile)
    requires Honest(i, r) && Ready(i, r)
    ensures var e := RunBoth(hmac, i, r, profile);
            && e.responder.Ok? && e.held == None
            && StoredPeer(i.own.info, i.fp, Mutual(r.settings.registry, i.own.registry), 1, true) in e.calls
            && forall c :: c in e.responder.value.established.capabilities
                           <==> c in i.own.registry && c in r.settings.registry && c in r.settings.autoGrant
  {
    ReadyReaction(hmac, i, r, profile);
    RequestedEnding(hmac, i, r, profile);
    ReadyJudgement(hmac, i, r, profile);
    ReadyCapabilities(hmac, i, r, profile);
    var after := FollowOffer(hmac, i, r, profile, r.nonce.value);
    InSecond(Greeting(i, r, profile).0, Pair(ReadyHost(hmac, i, r, profile), i.fp, profile, WaitingFor(i, r), Ok(after.request)).0, 3);
  }

  lemma ReadyInitiator(hmac: Hmac, i: Initiator, r: Responder, profile: Profile)
    requires Honest(i, r) && Ready(i, r) && RunBoth(hmac, i, r, profile).initiator.Connected?
    ensures var e := RunBoth(hmac, i, r, profile);
            var mutual := Mutual(i.own.registry, r.settings.registry);
            && e.stored == Some(StoredPeer(r.info, r.fp, mutual, 1, true))
            && e.initiator.session.established.capabilities == mutual
  {
    ReadyReaction(hmac, i, r, profile);
    RequestedEnding(hmac, i, r, profile);
    ReadyJudgement(hmac, i, r, profile);
    var after, p := FollowOffer(hmac, i, r, profile, r.nonce.value), ReadyHost(hmac, i, r, profile);
    PairIsTruthful(p, i.fp, profile, WaitingFor(i, r), after.request);
    ResponseIsTaken(hmac, i, r, profile, after.requested, Delivered(Pair(p, i.fp, profile, WaitingFor(i, r), Ok(after.request)).0).value);
  }

  lemma ReadyConnects(hmac: Hmac, i: Initiator, r: Responder, profile: Profile)
    requires Honest(i, r) && Ready(i, r)
    ensures var e := RunBoth(hmac, i, r, profile);
            e.responder.Ok? && e.initiator.Connected? && Agree(i, r, e.responder.value, e.initiator.session)
  {
    ReadyResponder(hmac, i, r, profile);
    EndsAgree(hmac, i, r, profile);
    ReadyCompletes(hmac, i, r, profile);
  }

  lemma ReadyCompletes(hmac: Hmac, i: Initiator, r: Responder, profile: Profile)
    requires Ready(i, r)
    ensures Completes(hmac, i, r, profile)
  {
  }

  /**
   Any two registries, any two keys, either profile: both sides end up in the same session, each has
   recorded the other with the same mutual capabilities, and the token is spent.
   */
  lemma ReadyRunPairs(hmac: Hmac, i: Initiator, r: Responder, profile: Profile)
    requires Honest(i, r) && Ready(i, r)
    ensures Paired(i, r, RunBoth(hmac, i, r, profile))
  {
    ReadyConnects(hmac, i, r, profile);
    ReadyResponder(hmac, i, r, profile);
    ReadyInitiator(hmac, i, r, profile);
    NegotiationIsSymmetric(r.settings.registry, i.own.registry);
  }

  ghost predicate StoresNothing(calls: seq<Call>) {
    forall k :: 0 <= k < |calls| ==> !calls[k].StoredPeer?
  }

  lemma RefusedStoresNothing(p: PairAnswers, fp: Fingerprint, profile: Profile, w: Waiting, read: Result<Envelope, Failure>)
    requires p.verdict.Err? || read.Err?
    ensures Pair(p, fp, profile, w, read).1.Err? && StoresNothing(Pair(p, fp, profile, w, read).0)
  {
  }

  lemma StoresInNeither(greeted: seq<Call>, judged: seq<Call>, fp: Fingerprint, next: Next)
    requires Q.GreetingShape(greeted, fp, next) && StoresNothing(judged)
    ensures StoresNothing(greeted) && StoresNothing(greeted + judged)
  {
    assert forall k :: 0 <= k < |greeted| ==> !Q.IsPairing(greeted[k]);
  }

  /** The token is not the one the window shows: their proofs for this nonce differ. */
  ghost predicate WrongToken(hmac: Hmac, i: Initiator, r: Responder, profile: Profile) {
    && i.own.token.Some? && r.held.Some? && r.nonce.Some?
    && ComputeProof(hmac, profile, i.own.token.value, r.fp, i.fp, r.nonce.value)
       != ComputeProof(hmac, profile, r.held.value.token, r.fp, i.fp, r.nonce.value)
  }

  lemma WrongTokenIsJudged(hmac: Hmac, i: Initiator, r: Responder, profile: Profile, w: Waiting)
    requires WrongToken(hmac, i, r, profile) && r.nonce == Some(w.nonce)
    ensures PairHost(hmac, r, i.fp, profile, w, ProofIn(FollowOffer(hmac, i, r, profile, w.nonce))).verdict.Err?
  {
    VerdictConfirms(hmac, r, i.fp, profile, w.nonce, ProofIn(FollowOffer(hmac, i, r, profile, w.nonce)));
  }

  lemma WrongTokenIsRefused(hmac: Hmac, i: Initiator, r: Responder, profile: Profile, w: Waiting, after: AfterAck)
    requires WrongToken(hmac, i, r, profile) && r.nonce == Some(w.nonce)
    requires after.Settled? || after == FollowOffer(hmac, i, r, profile, w.nonce)
    ensures var (judged, result) := Judgement(hmac, i, r, profile, w, after);
            result.Err? && StoresNothing(judged)
  {
    var read := if after.SendRequest? then Ok(after.request) else Err(Unreadable(Closed));
    WrongTokenIsJudged(hmac, i, r, profile, w);
    RefusedStoresNothing(PairHost(hmac, r, i.fp, profile, w, ProofIn(after)), i.fp, profile, w, read);
  }

  lemma AwaitingEnding(hmac: Hmac, i: Initiator, r: Responder, profile: Profile)
    requires Greeting(i, r, profile).1.Awaiting?
    ensures var e := RunBoth(hmac, i, r, profile);
            var (judged, result) := Judgement(hmac, i, r, profile, Greeting(i, r, profile).1.waiting, Reaction(hmac, i, r, profile));
            e.responder == result && e.calls == Greeting(i, r, profile).0 + judged
  {
  }

  lemma AwaitingNonce(i: Initiator, r: Responder, profile: Profile)
    ensures var next := Greeting(i, r, profile).1; next.Awaiting? ==> r.nonce == Some(next.waiting.nonce)
    ensures var next := Greeting(i, r, profile).1;
            !T.LookupPeer(r.peers, i.fp).StatusTrusted? && next.Ended? ==> next.result.Err?
  {
    TrustedSession(HelloHost(r, i.fp), i.fp, profile, HelloOf(i.own));
  }

  /** The responder's side of it. */
  lemma WrongTokenStoresNothing(hmac: Hmac, i: Initiator, r: Responder, profile: Profile)
    requires Honest(i, r) && !T.LookupPeer(r.peers, i.fp).StatusTrusted? && WrongToken(hmac, i, r, profile)
    ensures var e := RunBoth(hmac, i, r, profile); e.responder.Err? && StoresNothing(e.calls)
  {
    AwaitingNonce(i, r, profile);
    Q.GreetShape(HelloHost(r, i.fp), i.fp, profile, Ok(HelloOf(i.own)));
    var (greeted, next) := Greeting(i, r, profile);
    if next.Awaiting? {
      OfferedRun(hmac, i, r, profile);
      var after := Reaction(hmac, i, r, profile);
      WrongTokenIsRefused(hmac, i, r, profile, next.waiting, after);
      AwaitingEnding(hmac, i, r, profile);
      StoresInNeither(greeted, Judgement(hmac, i, r, profile, next.waiting, after).0, i.fp, next);
    } else {
      StoresInNeither(greeted, [], i.fp, next);
    }
  }

  /** A token whose proof differs pairs nobody, and neither side stores anything. */
  lemma WrongTokenPairsNobody(hmac: Hmac, i: Initiator, r: Responder, profile: Profile)
    requires Honest(i, r) && !T.LookupPeer(r.peers, i.fp).StatusTrusted? && WrongToken(hmac, i, r, profile)
    ensures var e := RunBoth(hmac, i, r, profile);
            e.responder.Err? && !e.initiator.Connected? && e.stored == None && StoresNothing(e.calls)
  {
    EndsAgree(hmac, i, r, profile);
    WrongTokenStoresNothing(hmac, i, r, profile);
  }
}
