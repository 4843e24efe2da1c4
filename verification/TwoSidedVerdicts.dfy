/** What both ends come to, case by case: trusted, revoked, no window, a no, a wrong token. */
module TwoSidedVerdicts {
  import opened Prelude
  import opened Protocol
  import opened Replay
  import opened Pairing
  import opened Handshake
  import opened TwoSided
  import V = HandshakeVerdicts

  /** The ids both first messages carry are whole. */
  predicate GoodIds(i: Initiator, r: Responder) {
    |i.own.helloId| == |r.ackId| == MESSAGE_ID_LEN
  }

  function GuardOf(i: Initiator): Guard {
    Guard(1, {i.own.helloId}, [i.own.helloId])
  }

  lemma GreetingDecides(i: Initiator, r: Responder, profile: Profile)
    requires Honest(i, r) && |i.own.helloId| == MESSAGE_ID_LEN
    ensures var (calls, next) := Decide(HelloHost(r, i.fp), i.fp, profile, HelloOf(i.own), GuardOf(i), 1);
            Greeting(i, r, profile) == ([Read(Ok(HelloOf(i.own)))] + calls, next)
  {
    HelloIsScreened(i);
    assert Common(1, 1, 1);
  }

  // ---- trusted --------------------------------------------------------------------------------

  /** A device that is paired connects, whatever window is or is not open, and both ends agree. */
  lemma TrustedRunConnects(hmac: Hmac, i: Initiator, r: Responder, profile: Profile)
    requires Honest(i, r) && GoodIds(i, r) && T.LookupPeer(r.peers, i.fp).StatusTrusted?
    ensures var e := RunBoth(hmac, i, r, profile);
            && e.responder.Ok? && e.initiator.Connected? && Agree(i, r, e.responder.value, e.initiator.session)
            && e.stored == None && e.held == r.held
  {
    GreetingDecides(i, r, profile);
    EndsAgree(hmac, i, r, profile);
    EndedRun(hmac, i, r, profile);
  }

  // ---- not let in -----------------------------------------------------------------------------

  lemma DeliveredLast(calls: seq<Call>, envelope: Envelope)
    ensures Delivered(calls + [Sent(envelope, true)]) == Ok(envelope)
  {
  }

  /** A greeting that ends with one answer to the initiator, and what becomes of both ends. */
  lemma RefusedRun(hmac: Hmac, i: Initiator, r: Responder, profile: Profile, before: seq<Call>, ack: Envelope, failure: Failure)
    requires Honest(i, r) && |r.ackId| == MESSAGE_ID_LEN
    requires Greeting(i, r, profile).0 == before + [Sent(ack, true)] && Greeting(i, r, profile).1 == Ended(Err(failure))
    requires ack.messageId == r.ackId && ack.sequence == 1 && ack.body.HelloAck? && ack.body.device == Some(r.info)
    requires ack.body.status != HelloStatus.Trusted && ack.body.nonce == []
    ensures var e := RunBoth(hmac, i, r, profile);
            && e.responder == Err(failure) && e.stored == None && e.held == r.held
            && V.AckIsReported(i.own, ack, e.initiator)
  {
    DeliveredLast(before, ack);
    AckIsScreened(r, ack);
    FirstIsAdmitted(ack);
    V.AckReports(hmac, i.own, i.fp, r.fp, profile, Ok(ack));
  }

  lemma RevokedDecides(h: HelloAnswers, fp: Fingerprint, profile: Profile, hello: Envelope, guard: Guard)
    requires hello.body.Hello? && hello.body.device.Some? && h.status.StatusRevoked? && !h.windowIfRevoked && h.ackWritten
    ensures var ack := Ack(h, hello, 1, HelloStatus.Rejected, 1, [], []);
            var (calls, next) := Decide(h, fp, profile, hello, guard, 1);
            calls == [LookedUp(fp, h.status), AskedWindow(false)] + [Sent(ack, true)] && next == Ended(Err(NotAuthorized))
  {
  }

  lemma ClosedDecides(h: HelloAnswers, fp: Fingerprint, profile: Profile, hello: Envelope, guard: Guard)
    requires hello.body.Hello? && hello.body.device.Some? && !h.status.StatusTrusted?
    requires (h.status.StatusRevoked? ==> h.windowIfRevoked) && !h.window && h.ackWritten
    ensures var ack := Ack(h, hello, 1, HelloStatus.PairingRequired, 1, h.registry, []);
            var asked := if h.status.StatusRevoked? then [LookedUp(fp, h.status), AskedWindow(true)] else [LookedUp(fp, h.status)];
            var (calls, next) := Decide(h, fp, profile, hello, guard, 1);
            && calls == asked + [AskedWindow(false)] + [Sent(ack, true)]
            && next == Ended(Err(PairingRefused(PairingError.NotInPairingMode)))
  {
  }

  /** The same with the HELLO read first. */
  lemma RefusedGreeting(i: Initiator, r: Responder, profile: Profile, before: seq<Call>, ack: Envelope, failure: Failure)
    requires Honest(i, r) && |i.own.helloId| == MESSAGE_ID_LEN
    requires var (calls, next) := Decide(HelloHost(r, i.fp), i.fp, profile, HelloOf(i.own), GuardOf(i), 1);
             calls == before + [Sent(ack, true)] && next == Ended(Err(failure))
    ensures var (calls, next) := Greeting(i, r, profile);
            calls == [Read(Ok(HelloOf(i.own)))] + before + [Sent(ack, true)] && next == Ended(Err(failure))
  {
    GreetingDecides(i, r, profile);
  }

  /** A revoked key, no window: both ends report that it is not authorized. */
  lemma RevokedRun(hmac: Hmac, i: Initiator, r: Responder, profile: Profile)
    requires Honest(i, r) && GoodIds(i, r) && T.LookupPeer(r.peers, i.fp).StatusRevoked? && !WindowActive(r, r.atLookup)
    ensures var e := RunBoth(hmac, i, r, profile);
            e.responder == Err(NotAuthorized) && e.initiator == Failed(NotAuthorized) && e.stored == None && e.held == r.held
  {
    var h := HelloHost(r, i.fp);
    RevokedDecides(h, i.fp, profile, HelloOf(i.own), GuardOf(i));
    var before, ack := [LookedUp(i.fp, h.status), AskedWindow(false)], Ack(h, HelloOf(i.own), 1, HelloStatus.Rejected, 1, [], []);
    RefusedGreeting(i, r, profile, before, ack, NotAuthorized);
    RefusedRun(hmac, i, r, profile, [Read(Ok(HelloOf(i.own)))] + before, ack, NotAuthorized);
  }

  /** A key that must pair, no window: the responder refuses, and so does an initiator that has a token. */
  lemma ClosedRun(hmac: Hmac, i: Initiator, r: Responder, profile: Profile)
    requires Honest(i, r) && GoodIds(i, r) && !T.LookupPeer(r.peers, i.fp).StatusTrusted?
    requires (T.LookupPeer(r.peers, i.fp).StatusRevoked? ==> WindowActive(r, r.atLookup)) && !WindowActive(r, r.atOffer)
    ensures var e := RunBoth(hmac, i, r, profile);
            && e.responder == Err(PairingRefused(PairingError.NotInPairingMode))
            && e.initiator == (if i.own.token.None? then MustPair else Failed(PairingRefused(PairingError.NotInPairingMode)))
            && e.stored == None && e.held == r.held
  {
    var h := HelloHost(r, i.fp);
    var asked := if h.status.StatusRevoked? then [LookedUp(i.fp, h.status), AskedWindow(true)] else [LookedUp(i.fp, h.status)];
    ClosedDecides(h, i.fp, profile, HelloOf(i.own), GuardOf(i));
    var before, ack := asked + [AskedWindow(false)], Ack(h, HelloOf(i.own), 1, HelloStatus.PairingRequired, 1, h.registry, []);
    RefusedGreeting(i, r, profile, before, ack, PairingRefused(PairingError.NotInPairingMode));
    RefusedRun(hmac, i, r, profile, [Read(Ok(HelloOf(i.own)))] + before, ack, PairingRefused(PairingError.NotInPairingMode));
  }

  // ---- not paired -----------------------------------------------------------------------------

  /** A window is open all along, the initiator has some token, and messages get through. */
  ghost predicate Attempted(i: Initiator, r: Responder) {
    && !T.LookupPeer(r.peers, i.fp).StatusTrusted?
    && WindowActive(r, r.atLookup) && WindowActive(r, r.atOffer) && WindowActive(r, r.atProof)
    && i.own.token.Some? && r.nonce.Some?
    && |i.own.helloId| == |i.own.requestId| == |r.ackId| == |r.responseId| == MESSAGE_ID_LEN
    && i.own.helloId != i.own.requestId && r.ackId != r.responseId
  }

  ghost predicate RightToken(hmac: Hmac, i: Initiator, r: Responder, profile: Profile)
    requires i.own.token.Some? && r.held.Some? && r.nonce.Some?
  {
    ComputeProof(hmac, profile, i.own.token.value, r.fp, i.fp, r.nonce.value)
    == ComputeProof(hmac, profile, r.held.value.token, r.fp, i.fp, r.nonce.value)
  }

  lemma AttemptIsOffered(hmac: Hmac, i: Initiator, r: Responder, profile: Profile)
    requires Honest(i, r) && Attempted(i, r)
    ensures Greeting(i, r, profile).1 == Awaiting(WaitingFor(i, r))
    ensures Reaction(hmac, i, r, profile) == FollowOffer(hmac, i, r, profile, r.nonce.value)
  {
    GreetingDecides(i, r, profile);
    OfferIsMade(HelloHost(r, i.fp), i.fp, profile, HelloOf(i.own), GuardOf(i));
    OfferedRun(hmac, i, r, profile);
  }

  lemma RequestIsGenuine(hmac: Hmac, i: Initiator, r: Responder, profile: Profile)
    requires Attempted(i, r)
    ensures V.IsGenuineRequest(WaitingFor(i, r), Ok(FollowOffer(hmac, i, r, profile, r.nonce.value).request))
  {
  }

  /** The verdict of an open window on the proof of this token. */
  lemma VerdictOfWindow(hmac: Hmac, i: Initiator, r: Responder, profile: Profile)
    requires Attempted(i, r)
    ensures var proof := ComputeProof(hmac, profile, i.own.token.value, r.fp, i.fp, r.nonce.value);
            var (verdict, held) := Judge(hmac, r, i.fp, profile, r.nonce.value, proof);
            if RightToken(hmac, i, r, profile) then verdict.Ok? && held == None
            else
              var failed := r.held.value.(failedAttempts := r.held.value.failedAttempts + 1);
              verdict == Err(BadProof) && held == if failed.IsExhausted(r.afterProof) then None else Some(failed)
  {
  }

  /** The one answer to the request, as the initiator reads and reports it. */
  lemma RefusalIsReported(hmac: Hmac, i: Initiator, r: Responder, profile: Profile, judged: seq<Call>, response: Envelope, q: Requested)
    requires |judged| > 0 && judged[|judged| - 1] == Sent(response, true) && response.sequence == 2 && response.messageId == r.responseId
    requires |r.responseId| == MESSAGE_ID_LEN && r.responseId != r.ackId && q.guard == Guard(1, {r.ackId}, [r.ackId])
    requires response.body.PairResponse? && response.body.pairStatus in {PairStatus.DeclinedByUser, PairStatus.RejectedPair}
    ensures var (outcome, stored) := OnResponse(hmac, i.own, r.fp, profile, q, Delivered(judged));
            && stored == None
            && outcome == Failed(PairingRefused(if response.body.pairStatus == PairStatus.DeclinedByUser then PairingError.DeclinedByUser
                                                else PairingError.BadProof))
  {
  }

  lemma LastOfPair(p: PairAnswers, fp: Fingerprint, profile: Profile, w: Waiting, request: Envelope)
    requires V.IsGenuineRequest(w, Ok(request)) && p.responseWritten
    requires p.verdict == Err(BadProof) || (p.verdict.Ok? && p.answer != Some(true))
    ensures var (judged, result) := Pair(p, fp, profile, w, Ok(request));
            var declined := p.verdict.Ok?;
            && |judged| > 1
            && judged[|judged| - 1]
               == Sent(Response(p, w, request, if declined then PairStatus.DeclinedByUser else PairStatus.RejectedPair, []), true)
            && result == Err(PairingRefused(if declined then PairingError.DeclinedByUser else PairingError.BadProof))
  {
  }

  /** The two halves of a pairing that is refused. */
  lemma UnpairedHalves(hmac: Hmac, i: Initiator, r: Responder, profile: Profile)
    requires Attempted(i, r) && (!RightToken(hmac, i, r, profile) || r.answer != Some(true))
    ensures var after := FollowOffer(hmac, i, r, profile, r.nonce.value);
            var (judged, result) := Pair(ReadyHost(hmac, i, r, profile), i.fp, profile, WaitingFor(i, r), Ok(after.request));
            var error := if RightToken(hmac, i, r, profile) then PairingError.DeclinedByUser else PairingError.BadProof;
            && |judged| > 1 && result == Err(PairingRefused(error))
            && OnResponse(hmac, i.own, r.fp, profile, after.requested, Delivered(judged)) == (Failed(PairingRefused(error)), None)
  {
    RequestIsGenuine(hmac, i, r, profile);
    VerdictOfWindow(hmac, i, r, profile);
    var after, p, w := FollowOffer(hmac, i, r, profile, r.nonce.value), ReadyHost(hmac, i, r, profile), WaitingFor(i, r);
    LastOfPair(p, i.fp, profile, w, after.request);
    var judged := Pair(p, i.fp, profile, w, Ok(after.request)).0;
    RefusalIsReported(hmac, i, r, profile, judged, judged[|judged| - 1].envelope, after.requested);
  }

  lemma UnpairedRun(hmac: Hmac, i: Initiator, r: Responder, profile: Profile)
    requires Honest(i, r) && Attempted(i, r) && (!RightToken(hmac, i, r, profile) || r.answer != Some(true))
    ensures var e := RunBoth(hmac, i, r, profile);
            var error := if RightToken(hmac, i, r, profile) then PairingError.DeclinedByUser else PairingError.BadProof;
            && e.responder == Err(PairingRefused(error)) && e.initiator == Failed(PairingRefused(error)) && e.stored == None
            && e.held == Judge(hmac, r, i.fp, profile, r.nonce.value,
                               ComputeProof(hmac, profile, i.own.token.value, r.fp, i.fp, r.nonce.value)).1
  {
    AttemptIsOffered(hmac, i, r, profile);
    RequestedEnding(hmac, i, r, profile);
    UnpairedHalves(hmac, i, r, profile);
  }

  /** A person who says no: both ends report that, nobody stores anything, and the token is spent. */
  lemma DeclinedRun(hmac: Hmac, i: Initiator, r: Responder, profile: Profile)
    requires Honest(i, r) && Attempted(i, r) && RightToken(hmac, i, r, profile) && r.answer != Some(true)
    ensures var e := RunBoth(hmac, i, r, profile);
            && e.responder == Err(PairingRefused(PairingError.DeclinedByUser))
            && e.initiator == Failed(PairingRefused(PairingError.DeclinedByUser))
            && e.stored == None && e.held == None
  {
    UnpairedRun(hmac, i, r, profile);
    VerdictOfWindow(hmac, i, r, profile);
  }

  /** A wrong token: both ends report a bad proof, nobody stores anything, and the failure is counted. */
  lemma WrongTokenRun(hmac: Hmac, i: Initiator, r: Responder, profile: Profile)
    requires Honest(i, r) && Attempted(i, r) && !RightToken(hmac, i, r, profile)
    ensures var e := RunBoth(hmac, i, r, profile);
            var failed := r.held.value.(failedAttempts := r.held.value.failedAttempts + 1);
            && e.responder == Err(PairingRefused(PairingError.BadProof))
            && e.initiator == Failed(PairingRefused(PairingError.BadProof))
            && e.stored == None && e.held == if failed.IsExhausted(r.afterProof) then None else Some(failed)
  {
    UnpairedRun(hmac, i, r, profile);
    VerdictOfWindow(hmac, i, r, profile);
  }
}
