/**
 What each half of the handshake must do: exactly when a session comes of it, and what each side is told
 and reports when none does.
 */
module HandshakeVerdicts {
  import opened Prelude
  import opened Encodings
  import opened Protocol
  import opened Replay
  import opened Pairing
  import opened Handshake
  import Q = HandshakeRuns

  // ---- what the responder is asked ------------------------------------------------------------

  /** A HELLO, fresh, that states the key of the connection. */
  ghost predicate IsGenuineHello(fp: Fingerprint, read: Result<Envelope, Failure>) {
    && read.Ok? && read.value.body.Hello? && read.value.body.device.Some?
    && FromHex(read.value.body.device.value.identityFingerprint, 32) == Some(fp)
    && Admit(FRESH_GUARD, read.value).0 == None
  }

  /** The version both sides would speak, if there is one. */
  function SharedVersion(hello: Envelope): Option<nat>
    requires hello.body.Hello?
  {
    NegotiateVersion(hello.body.minVersion, hello.body.maxVersion)
  }

  /** The peer must pair, and may: a window is open, and a nonce could be drawn and sent. */
  ghost predicate MayPair(h: HelloAnswers) {
    && !h.status.StatusTrusted? && (h.status.StatusRevoked? ==> h.windowIfRevoked)
    && h.window && h.nonce.Some? && h.ackWritten
  }

  /** A fresh PAIR_REQUEST of the agreed version whose proof is right, a yes, a store that works, and an answer that goes out. */
  ghost predicate Pairs(p: PairAnswers, hello: Envelope, version: nat, read: Result<Envelope, Failure>) {
    && read.Ok? && read.value.body.PairRequest? && read.value.version == version
    && Admit(Admit(FRESH_GUARD, hello).1, read.value).0 == None
    && p.verdict.Ok? && p.answer == Some(true) && p.stored && p.responseWritten
  }

  lemma ScreenedHello(fp: Fingerprint, read: Result<Envelope, Failure>)
    ensures Screen(fp, read).Ok? <==> IsGenuineHello(fp, read)
  {
  }

  /** What the responder remembers of an offer, and when it makes one. */
  lemma OfferExactly(h: HelloAnswers, fp: Fingerprint, profile: Profile, hello: Envelope, guard: Guard, version: nat)
    requires hello.body.Hello? && hello.body.device.Some?
    ensures var next := Decide(h, fp, profile, hello, guard, version).1;
            && (next.Awaiting? <==> MayPair(h))
            && (MayPair(h) ==> next.waiting == Waiting(version, guard, hello.body.device.value, hello.body.capabilities, h.nonce.value))
            && (next.Ended? && next.result.Ok? <==> h.status.StatusTrusted? && h.ackWritten)
  {
  }

  lemma PairExactly(p: PairAnswers, fp: Fingerprint, profile: Profile, w: Waiting, hello: Envelope, read: Result<Envelope, Failure>)
    requires w.guard == Admit(FRESH_GUARD, hello).1
    ensures Pair(p, fp, profile, w, read).1.Ok? <==> Pairs(p, hello, w.version, read)
  {
  }

  lemma GreetExactly(h: HelloAnswers, fp: Fingerprint, profile: Profile, read: Result<Envelope, Failure>)
    ensures IsGenuineHello(fp, read) && SharedVersion(read.value).Some? ==>
              Greet(h, fp, profile, read).1 == Decide(h, fp, profile, read.value, Admit(FRESH_GUARD, read.value).1, SharedVersion(read.value).value).1
    ensures !IsGenuineHello(fp, read) || SharedVersion(read.value).None? ==>
              Greet(h, fp, profile, read).1.Ended? && Greet(h, fp, profile, read).1.result.Err?
  {
    ScreenedHello(fp, read);
  }

  /**
   Against every peer and every host: the responder has a session if and only if it read a fresh HELLO that
   states the key of the connection and shares a version, and either the key is trusted and the answer went
   out, or it may pair and does.
   */
  lemma SessionExactly(h: HelloAnswers, p: PairAnswers, fp: Fingerprint, profile: Profile,
                       first: Result<Envelope, Failure>, second: Result<Envelope, Failure>)
    ensures Respond(h, p, fp, profile, first, second).1.Ok?
            <==> && IsGenuineHello(fp, first) && SharedVersion(first.value).Some?
                 && (|| (h.status.StatusTrusted? && h.ackWritten)
                     || (MayPair(h) && Pairs(p, first.value, SharedVersion(first.value).value, second)))
  {
    GreetExactly(h, fp, profile, first);
    if IsGenuineHello(fp, first) && SharedVersion(first.value).Some? {
      var guard, version := Admit(FRESH_GUARD, first.value).1, SharedVersion(first.value).value;
      OfferExactly(h, fp, profile, first.value, guard, version);
      if MayPair(h) {
        PairExactly(p, fp, profile, Greet(h, fp, profile, first).1.waiting, first.value, second);
      }
    }
  }

  // ---- what the peer is told ------------------------------------------------------------------

  /** What was written, in order. */
  function Said(calls: seq<Call>): seq<Envelope> {
    if calls == [] then []
    else Said(calls[..|calls| - 1]) + if calls[|calls| - 1].Sent? then [calls[|calls| - 1].envelope] else []
  }

  lemma {:induction false} SaidConcat(a: seq<Call>, b: seq<Call>)
    ensures Said(a + b) == Said(a) + Said(b)
  {
    if b == [] {
      assert a + b == a;
    } else {
      var front, last := b[..|b| - 1], b[|b| - 1];
      SaidConcat(a, front);
      assert (a + b)[..|a + b| - 1] == a + front && (a + b)[|a + b| - 1] == last;
    }
  }

  lemma {:induction false} SaidNothing(calls: seq<Call>)
    requires forall k :: 0 <= k < |calls| ==> !calls[k].Sent?
    ensures Said(calls) == []
  {
    if calls != [] {
      SaidNothing(calls[..|calls| - 1]);
    }
  }

  /** If one call was a write, it is all that was said. */
  lemma {:induction false} SaidOnly(calls: seq<Call>, k: nat)
    requires k < |calls| && forall j :: 0 <= j < |calls| ==> (calls[j].Sent? <==> j == k)
    ensures Said(calls) == [calls[k].envelope]
  {
    if k == |calls| - 1 {
      SaidNothing(calls[..k]);
    } else {
      SaidOnly(calls[..|calls| - 1], k);
    }
  }

  /** A HELLO_ACK in answer to this HELLO. */
  function AckOf(h: HelloAnswers, hello: Envelope, version: nat, status: HelloStatus, negotiated: nat, capabilities: seq<Text>, nonce: Bytes): Envelope {
    Envelope(version, h.ackId, 1, hello.messageId, HelloAck(Some(h.info), status, negotiated, capabilities, nonce))
  }

  lemma OfferSays(h: HelloAnswers, hello: Envelope, guard: Guard, version: nat)
    requires hello.body.Hello? && hello.body.device.Some?
    ensures var (calls, next) := Offer(h, hello, guard, version);
            if h.window && h.nonce.None? then Said(calls) == [] && next == Ended(Err(NoRandomness))
            else
              && Said(calls) == [AckOf(h, hello, version, HelloStatus.PairingRequired, version, h.registry, if h.window then h.nonce.value else [])]
              && (!h.ackWritten ==> next == Ended(Err(WriteFailed)))
              && (h.ackWritten && !h.window ==> next == Ended(Err(PairingRefused(PairingError.NotInPairingMode))))
  {
    var calls := Offer(h, hello, guard, version).0;
    if h.window && h.nonce.None? {
      SaidNothing(calls);
    } else {
      SaidOnly(calls, |calls| - 1);
    }
  }

  /** A trusted peer is told so at once, whether or not a window is open, and has its session. */
  lemma TrustedIsTold(h: HelloAnswers, fp: Fingerprint, profile: Profile, hello: Envelope, guard: Guard, version: nat)
    requires hello.body.Hello? && hello.body.device.Some? && h.status.StatusTrusted?
    ensures var (calls, next) := Decide(h, fp, profile, hello, guard, version);
            && Said(calls) == [AckOf(h, hello, version, HelloStatus.Trusted, version, h.registry, [])]
            && next.Ended? && (if h.ackWritten then next.result.Ok? else next.result == Err(WriteFailed))
            && (h.ackWritten ==>
                  && next.result.value.established.device == hello.body.device.value.(deviceId := h.status.deviceId, deviceName := h.status.deviceName)
                  && next.result.value.established.version == next.result.value.version == version
                  && next.result.value.sequence == 1 && next.result.value.guard == guard)
  {
    SaidOnly(Decide(h, fp, profile, hello, guard, version).0, 1);
  }

  /** A revoked key is rejected unless a window is open, and told nothing else. */
  lemma RevokedIsTold(h: HelloAnswers, fp: Fingerprint, profile: Profile, hello: Envelope, guard: Guard, version: nat)
    requires hello.body.Hello? && hello.body.device.Some? && h.status.StatusRevoked? && !h.windowIfRevoked
    ensures var (calls, next) := Decide(h, fp, profile, hello, guard, version);
            && Said(calls) == [AckOf(h, hello, version, HelloStatus.Rejected, version, [], [])]
            && next == Ended(Err(NotAuthorized))
  {
    SaidOnly(Decide(h, fp, profile, hello, guard, version).0, 2);
  }

  /** Any other peer is told that it must pair, and gets a nonce exactly if a window is open. */
  lemma UnknownIsTold(h: HelloAnswers, fp: Fingerprint, profile: Profile, hello: Envelope, guard: Guard, version: nat)
    requires hello.body.Hello? && hello.body.device.Some? && !h.status.StatusTrusted? && (h.status.StatusRevoked? ==> h.windowIfRevoked)
    ensures var (calls, next) := Decide(h, fp, profile, hello, guard, version);
            if h.window && h.nonce.None? then Said(calls) == [] && next == Ended(Err(NoRandomness))
            else
              && Said(calls) == [AckOf(h, hello, version, HelloStatus.PairingRequired, version, h.registry, if h.window then h.nonce.value else [])]
              && (!h.ackWritten ==> next == Ended(Err(WriteFailed)))
              && (h.ackWritten && !h.window ==> next == Ended(Err(PairingRefused(PairingError.NotInPairingMode))))
  {
    Q.DecidedByOffer(h, fp, profile, hello, guard, version);
    OfferSays(h, hello, guard, version);
    SaidNothing(Q.Asked(h, fp));
    SaidConcat(Q.Asked(h, fp), Offer(h, hello, guard, version).0);
  }

  /** What a HELLO is answered with, and what the responder reports of it, in each of the cases. */
  ghost predicate HelloIsAnswered(h: HelloAnswers, hello: Envelope, said: seq<Envelope>, next: Next)
    requires hello.body.Hello?
  {
    match SharedVersion(hello)
    case None =>
      && said == [AckOf(h, hello, PROTOCOL_VERSION_MAX, HelloStatus.VersionUnsupported, 0, [], [])]
      && next == Ended(Err(NoCommonVersion))
    case Some(version) =>
      if h.status.StatusTrusted? then
        && said == [AckOf(h, hello, version, HelloStatus.Trusted, version, h.registry, [])]
        && next.Ended? && (if h.ackWritten then next.result.Ok? else next.result == Err(WriteFailed))
      else if h.status.StatusRevoked? && !h.windowIfRevoked then
        && said == [AckOf(h, hello, version, HelloStatus.Rejected, version, [], [])]
        && next == Ended(Err(NotAuthorized))
      else if h.window && h.nonce.None? then said == [] && next == Ended(Err(NoRandomness))
      else
        && said == [AckOf(h, hello, version, HelloStatus.PairingRequired, version, h.registry, if h.window then h.nonce.value else [])]
        && (!h.ackWritten ==> next == Ended(Err(WriteFailed)))
        && (h.ackWritten && !h.window ==> next == Ended(Err(PairingRefused(PairingError.NotInPairingMode))))
        && (h.ackWritten && h.window ==> next.Awaiting?)
  }

  lemma DecisionIsTold(h: HelloAnswers, fp: Fingerprint, profile: Profile, hello: Envelope, guard: Guard)
    requires hello.body.Hello? && hello.body.device.Some? && SharedVersion(hello).Some?
    ensures var (calls, next) := Decide(h, fp, profile, hello, guard, SharedVersion(hello).value);
            HelloIsAnswered(h, hello, Said(calls), next)
  {
    var version := SharedVersion(hello).value;
    OfferExactly(h, fp, profile, hello, guard, version);
    if h.status.StatusTrusted? {
      TrustedIsTold(h, fp, profile, hello, guard, version);
    } else if h.status.StatusRevoked? && !h.windowIfRevoked {
      RevokedIsTold(h, fp, profile, hello, guard, version);
    } else {
      UnknownIsTold(h, fp, profile, hello, guard, version);
    }
  }

  lemma KnownIsAnswered(h: HelloAnswers, fp: Fingerprint, profile: Profile, hello: Envelope, guard: Guard)
    requires hello.body.Hello? && hello.body.device.Some?
    ensures var (calls, next) := GreetKnown(h, fp, profile, hello, guard);
            HelloIsAnswered(h, hello, Said(calls), next)
  {
    if SharedVersion(hello).Some? {
      DecisionIsTold(h, fp, profile, hello, guard);
    } else {
      SaidOnly(GreetKnown(h, fp, profile, hello, guard).0, 0);
    }
  }

  /** Reading says nothing. */
  lemma SaidAfterRead(read: Result<Envelope, Failure>, calls: seq<Call>)
    ensures Said([Read(read)] + calls) == Said(calls) && Said([Read(read)]) == []
  {
    SaidNothing([Read(read)]);
    SaidConcat([Read(read)], calls);
  }

  /** Against every peer and every host: one answer to a genuine HELLO, as the case demands, and none to any other. */
  lemma EveryHelloIsAnswered(h: HelloAnswers, fp: Fingerprint, profile: Profile, read: Result<Envelope, Failure>)
    ensures var (calls, next) := Greet(h, fp, profile, read);
            if IsGenuineHello(fp, read) then HelloIsAnswered(h, read.value, Said(calls), next)
            else Said(calls) == [] && next.Ended? && next.result.Err?
  {
    ScreenedHello(fp, read);
    if IsGenuineHello(fp, read) {
      var guard := Admit(FRESH_GUARD, read.value).1;
      KnownIsAnswered(h, fp, profile, read.value, guard);
      SaidAfterRead(read, GreetKnown(h, fp, profile, read.value, guard).0);
    } else {
      SaidAfterRead(read, []);
    }
  }

  /**
   A paired device that comes back, whatever window is or is not open: it has its session exactly when the
   answer to its HELLO went out, under the name the store has for it, and that answer is all it was sent.
   */
  lemma TrustedPeerReturns(h: HelloAnswers, p: PairAnswers, fp: Fingerprint, profile: Profile,
                           first: Result<Envelope, Failure>, second: Result<Envelope, Failure>)
    requires IsGenuineHello(fp, first) && SharedVersion(first.value).Some? && h.status.StatusTrusted?
    ensures var (calls, r) := Respond(h, p, fp, profile, first, second);
            var version := SharedVersion(first.value).value;
            && Said(calls) == [AckOf(h, first.value, version, HelloStatus.Trusted, version, h.registry, [])]
            && (if h.ackWritten then r.Ok? else r == Err(WriteFailed))
            && (r.Ok? ==>
                  && r.value.established.device == first.value.body.device.value.(deviceId := h.status.deviceId, deviceName := h.status.deviceName)
                  && r.value.established.version == version
                  && forall c :: c in r.value.established.capabilities
                                 <==> c in h.registry && c in first.value.body.capabilities && c in h.status.granted)
  {
    var hello, guard, version := first.value, Admit(FRESH_GUARD, first.value).1, SharedVersion(first.value).value;
    EveryHelloIsAnswered(h, fp, profile, first);
    GreetExactly(h, fp, profile, first);
    TrustedIsTold(h, fp, profile, hello, guard, version);
    Q.DecidedWell(h, fp, profile, hello, guard, version);
  }

  /** A PAIR_RESPONSE to this request. */
  function ResponseOf(p: PairAnswers, w: Waiting, request: Envelope, status: PairStatus, confirmation: Bytes): Envelope {
    Envelope(w.version, p.responseId, 2, request.messageId, PairResponse(status, confirmation))
  }

  ghost predicate IsGenuineRequest(w: Waiting, read: Result<Envelope, Failure>) {
    read.Ok? && read.value.body.PairRequest? && read.value.version == w.version && Admit(w.guard, read.value).0 == None
  }

  /** What a PAIR_REQUEST is answered with, and what the responder reports of it. */
  ghost predicate RequestIsAnswered(p: PairAnswers, w: Waiting, request: Envelope, said: seq<Envelope>, r: Result<Session, Failure>) {
    match p.verdict
    case Err(NotInPairingMode) =>
      said == [ResponseOf(p, w, request, PairStatus.NotInPairingMode, [])] && r == Err(PairingRefused(PairingError.NotInPairingMode))
    case Err(RateLimited) =>
      said == [ResponseOf(p, w, request, PairStatus.RateLimited, [])] && r == Err(PairingRefused(PairingError.RateLimited))
    case Err(e) => said == [ResponseOf(p, w, request, PairStatus.RejectedPair, [])] && r == Err(PairingRefused(e))
    case Ok(confirmation) =>
      if p.answer != Some(true) then
        && said == [ResponseOf(p, w, request, PairStatus.DeclinedByUser, [])]
        && r == Err(PairingRefused(PairingError.DeclinedByUser))
      else if !p.stored then said == [] && r == Err(StoreFailed)
      else
        && said == [ResponseOf(p, w, request, PairStatus.Accepted, confirmation)]
        && (if p.responseWritten then r.Ok? else r == Err(WriteFailed))
  }

  lemma RefusalIsTold(p: PairAnswers, fp: Fingerprint, profile: Profile, w: Waiting, read: Result<Envelope, Failure>)
    requires IsGenuineRequest(w, read) && p.verdict.Err?
    ensures var (calls, r) := Pair(p, fp, profile, w, read); RequestIsAnswered(p, w, read.value, Said(calls), r)
  {
    SaidOnly(Pair(p, fp, profile, w, read).0, 2);
  }

  lemma VerifiedIsTold(p: PairAnswers, fp: Fingerprint, profile: Profile, w: Waiting, read: Result<Envelope, Failure>)
    requires IsGenuineRequest(w, read) && p.verdict.Ok?
    ensures var (calls, r) := Pair(p, fp, profile, w, read); RequestIsAnswered(p, w, read.value, Said(calls), r)
  {
    var calls := Pair(p, fp, profile, w, read).0;
    if p.answer != Some(true) {
      SaidOnly(calls, 3);
    } else if !p.stored {
      SaidNothing(calls);
    } else {
      SaidOnly(calls, 4);
    }
  }

  /** Against every peer and every host: one answer to a genuine PAIR_REQUEST, and none to anything else. */
  lemma EveryRequestIsAnswered(p: PairAnswers, fp: Fingerprint, profile: Profile, w: Waiting, read: Result<Envelope, Failure>)
    ensures var (calls, r) := Pair(p, fp, profile, w, read);
            if IsGenuineRequest(w, read) then RequestIsAnswered(p, w, read.value, Said(calls), r)
            else Said(calls) == [] && r.Err?
  {
    if IsGenuineRequest(w, read) {
      if p.verdict.Err? {
        RefusalIsTold(p, fp, profile, w, read);
      } else {
        VerifiedIsTold(p, fp, profile, w, read);
      }
    } else {
      SaidNothing([Read(read)]);
    }
  }

  // ---- what the initiator reports -------------------------------------------------------------

  /** What the initiator makes of a genuine HELLO_ACK that does not lead on. */
  ghost predicate AckIsReported(c: ConnectAnswers, ack: Envelope, outcome: Outcome)
    requires ack.body.HelloAck?
  {
    match ack.body.status
    case VersionUnsupported => outcome == Failed(NoCommonVersion)
    case Rejected => outcome == Failed(NotAuthorized)
    case UnspecifiedHello => outcome == Failed(UnspecifiedStatus)
    case Trusted => if Spoken(ack.body.version) then outcome.Connected? else outcome == Failed(NoCommonVersion)
    case PairingRequired =>
      if c.token.None? then outcome == MustPair
      else if |ack.body.nonce| != 32 then outcome == Failed(PairingRefused(PairingError.NotInPairingMode))
      else !Spoken(ack.body.version) && outcome == Failed(NoCommonVersion)
  }

  /** What it makes of a fresh PAIR_RESPONSE, having answered the challenge of `ack`. */
  ghost predicate ResponseIsReported(hmac: Hmac, c: ConnectAnswers, own: Fingerprint, server: Fingerprint, profile: Profile, ack: Envelope,
                                     response: Envelope, outcome: Outcome)
    requires response.body.PairResponse? && ack.body.HelloAck? && c.token.Some?
  {
    match response.body.pairStatus
    case DeclinedByUser => outcome == Failed(PairingRefused(PairingError.DeclinedByUser))
    case NotInPairingMode => outcome == Failed(PairingRefused(PairingError.NotInPairingMode))
    case RateLimited => outcome == Failed(PairingRefused(PairingError.RateLimited))
    case RejectedPair => outcome == Failed(PairingRefused(PairingError.BadProof))
    case UnspecifiedPair => outcome == Failed(PairingRefused(PairingError.BadProof))
    case Accepted =>
      if response.body.confirmation != ComputeConfirmation(hmac, profile, c.token.value, server, own, ack.body.nonce) then
        outcome == Failed(PairingRefused(PairingError.BadProof))
      else if !c.stored then outcome == Failed(StoreFailed)
      else outcome.Connected?
  }

  lemma ResponseReports(hmac: Hmac, c: ConnectAnswers, own: Fingerprint, server: Fingerprint, profile: Profile, ack: Envelope,
                        q: Requested, read: Result<Envelope, Failure>)
    requires ack.body.HelloAck? && c.token == Some(q.token) && q.own == own && q.nonce == ack.body.nonce
    ensures var outcome := OnResponse(hmac, c, server, profile, q, read).0;
            && (read.Err? ==> outcome == Failed(read.error))
            && (read.Ok? && Admit(q.guard, read.value).0.None? && read.value.body.PairResponse?
                ==> ResponseIsReported(hmac, c, own, server, profile, ack, read.value, outcome))
  {
  }

  /** Against every responder: what the initiator reports when a genuine HELLO_ACK decides the matter. */
  lemma AckReports(hmac: Hmac, c: ConnectAnswers, own: Fingerprint, server: Fingerprint, profile: Profile, first: Result<Envelope, Failure>)
    requires Q.IsGenuine(server, first) && !Q.IsChallenge(c, server, first)
    ensures var next := OnAck(hmac, c, own, server, profile, first);
            next.Settled? && AckIsReported(c, first.value, next.outcome)
  {
    Q.ScreenedIsGenuine(server, first);
  }

  /** What the initiator reports of the answer to its proof. */
  lemma ChallengeReports(hmac: Hmac, c: ConnectAnswers, own: Fingerprint, server: Fingerprint, profile: Profile,
                         first: Result<Envelope, Failure>, second: Result<Envelope, Failure>)
    requires c.requestWritten && Q.IsChallenge(c, server, first)
    ensures var outcome := Conclude(hmac, c, server, profile, OnAck(hmac, c, own, server, profile, first), second).0;
            && (second.Err? ==> outcome == Failed(second.error))
            && (second.Ok? && second.value.body.PairResponse? && Admit(Admit(FRESH_GUARD, first.value).1, second.value).0.None?
                ==> ResponseIsReported(hmac, c, own, server, profile, first.value, second.value, outcome))
  {
    Q.AckIsJudged(hmac, c, own, server, profile, first);
    ResponseReports(hmac, c, own, server, profile, first.value, OnAck(hmac, c, own, server, profile, first).requested, second);
  }

  /** Against every responder: what the initiator as a whole reports after a genuine HELLO_ACK. */
  lemma InitiatorReports(hmac: Hmac, c: ConnectAnswers, own: Fingerprint, server: Fingerprint, profile: Profile,
                         first: Result<Envelope, Failure>, second: Result<Envelope, Failure>)
    requires FromHex(c.info.identityFingerprint, 32) == Some(own) && c.helloWritten && c.requestWritten && Q.IsGenuine(server, first)
    ensures var outcome := Connect(hmac, c, server, profile, first, second).0;
            if !Q.IsChallenge(c, server, first) then AckIsReported(c, first.value, outcome)
            else
              && (second.Err? ==> outcome == Failed(second.error))
              && (second.Ok? && second.value.body.PairResponse? && Admit(Admit(FRESH_GUARD, first.value).1, second.value).0.None?
                  ==> ResponseIsReported(hmac, c, own, server, profile, first.value, second.value, outcome))
  {
    if Q.IsChallenge(c, server, first) {
      ChallengeReports(hmac, c, own, server, profile, first, second);
    } else {
      AckReports(hmac, c, own, server, profile, first);
    }
  }
}
