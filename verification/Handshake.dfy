/**
 The two halves of the handshake.

 Everything a half asks of the world (frames, the host's answers, random bytes, whether a write went
 out) is a parameter, one per place it is asked, so the lemmas hold for every peer and every host.
 What it does is recorded as a sequence of calls.
 */
module Handshake {
  import opened Prelude
  import opened Encodings
  import opened Protocol
  import opened Framing
  import opened Replay
  import opened Pairing
  import opened Capability
  import T = TrustRules

  type Nonce = b: Bytes | |b| == NONCE_LEN witness seq(32, i => 0)

  datatype Failure =
    | TimedOut
    | Unreadable(readError: ReadError)
    | NotAdmitted(violation: Violation)
    | UnexpectedMessage
    | NoDeviceInfo
    | MalformedFingerprint
    | WrongFingerprint
    | NoCommonVersion
    | NotAuthorized
    | UnspecifiedStatus
    | VersionChanged
    | PairingRefused(pairingError: PairingError)
    | WriteFailed
    | StoreFailed
    | NoRandomness

  datatype Established = Established(peer: Fingerprint, profile: Profile, device: DeviceInfo, capabilities: seq<Text>, version: nat)

  /** An established connection with the factory and the guard that go on into the message loop. */
  datatype Session = Session(established: Established, version: nat, sequence: nat, guard: Guard)

  datatype Call =
    | Read(result: Result<Envelope, Failure>)
    | Sent(envelope: Envelope, ok: bool)
    | LookedUp(fp: Fingerprint, status: T.PeerStatus)
    | AskedWindow(isOpen: bool)
    | DrewNonce(drawn: Option<Nonce>)
    | CheckedProof(profile: Profile, fp: Fingerprint, nonce: Bytes, proof: Bytes, verdict: Result<Bytes, PairingError>)
    | AskedHuman(device: DeviceInfo, fp: Fingerprint, answer: Option<bool>)
    | StoredPeer(device: DeviceInfo, fp: Fingerprint, mutual: seq<Text>, version: nat, ok: bool)

  /** What a list keeps of what is granted. */
  function Allowed(mutual: seq<Text>, granted: set<Text>): (r: seq<Text>)
    ensures forall x :: x in r <==> x in mutual && x in granted
  {
    if mutual == [] then []
    else
      var front, last := mutual[..|mutual| - 1], mutual[|mutual| - 1];
      assert mutual == front + [last];
      if last in granted then Allowed(front, granted) + [last] else Allowed(front, granted)
  }

  function Granted(status: T.PeerStatus): set<Text> {
    if status.StatusTrusted? then status.granted else {}
  }

  // ---- the responder --------------------------------------------------------------------------

  /** The host's answers up to the HELLO_ACK, in the order they are asked for. */
  datatype HelloAnswers = HelloAnswers(
    registry: Registry,
    info: DeviceInfo,
    status: T.PeerStatus,
    windowIfRevoked: bool,
    window: bool,
    nonce: Option<Nonce>,
    ackId: Bytes,
    ackWritten: bool)

  /** And from the PAIR_REQUEST on. */
  datatype PairAnswers = PairAnswers(
    verdict: Result<Bytes, PairingError>,
    answer: Option<bool>,
    registry: Registry,
    stored: bool,
    responseId: Bytes,
    responseWritten: bool,
    status: T.PeerStatus)

  /** What the responder remembers while it waits for the PAIR_REQUEST. */
  datatype Waiting = Waiting(version: nat, guard: Guard, device: DeviceInfo, capabilities: seq<Text>, nonce: Nonce)

  datatype Next = Ended(result: Result<Session, Failure>) | Awaiting(waiting: Waiting)

  /** The checks a HELLO passes before anything is asked of the host. */
  function Screen(fp: Fingerprint, read: Result<Envelope, Failure>): (r: Result<(Envelope, Guard), Failure>)
    ensures r.Ok? ==>
      && read == Ok(r.value.0) && Admit(FRESH_GUARD, r.value.0) == (None, r.value.1)
      && r.value.0.body.Hello? && r.value.0.body.device.Some?
      && FromHex(r.value.0.body.device.value.identityFingerprint, 32) == Some(fp)
  {
    match read
    case Err(e) => Err(e)
    case Ok(env) =>
      var (violation, guard) := Admit(FRESH_GUARD, env);
      if violation.Some? then Err(NotAdmitted(violation.value))
      else if !env.body.Hello? then Err(UnexpectedMessage)
      else if env.body.device.None? then Err(NoDeviceInfo)
      else match FromHex(env.body.device.value.identityFingerprint, 32)
        case None => Err(MalformedFingerprint)
        case Some(claimed) => if claimed != fp then Err(WrongFingerprint) else Ok((env, guard))
  }

  /** The one HELLO_ACK of a connection: the first envelope of its factory, answering the HELLO. */
  function Ack(h: HelloAnswers, hello: Envelope, version: nat, status: HelloStatus, negotiated: nat, capabilities: seq<Text>, nonce: Bytes): Envelope {
    Envelope(version, h.ackId, 1, hello.messageId, HelloAck(Some(h.info), status, negotiated, capabilities, nonce))
  }

  /** The HELLO_ACK for a peer that is not trusted, and whether its PAIR_REQUEST is awaited. */
  function Offer(h: HelloAnswers, hello: Envelope, guard: Guard, version: nat): (seq<Call>, Next)
    requires hello.body.Hello? && hello.body.device.Some?
  {
    if h.window && h.nonce.None? then ([AskedWindow(true), DrewNonce(None)], Ended(Err(NoRandomness)))
    else
      var nonce := if h.window then h.nonce.value else [];
      var ack := Ack(h, hello, version, HelloStatus.PairingRequired, version, h.registry, nonce);
      var calls := if h.window then [AskedWindow(true), DrewNonce(h.nonce), Sent(ack, h.ackWritten)]
                   else [AskedWindow(false), Sent(ack, h.ackWritten)];
      if !h.ackWritten then (calls, Ended(Err(WriteFailed)))
      else if !h.window then (calls, Ended(Err(PairingRefused(PairingError.NotInPairingMode))))
      else (calls, Awaiting(Waiting(version, guard, hello.body.device.value, hello.body.capabilities, h.nonce.value)))
  }

  /** What follows once a version is agreed: the trust store decides. */
  function Decide(h: HelloAnswers, fp: Fingerprint, profile: Profile, hello: Envelope, guard: Guard, version: nat): (seq<Call>, Next)
    requires hello.body.Hello? && hello.body.device.Some?
  {
    match h.status
    case StatusTrusted(deviceId, deviceName, granted) =>
      var ack := Ack(h, hello, version, HelloStatus.Trusted, version, h.registry, []);
      var device := hello.body.device.value.(deviceId := deviceId, deviceName := deviceName);
      var capabilities := Allowed(Mutual(h.registry, hello.body.capabilities), granted);
      ([LookedUp(fp, h.status), Sent(ack, h.ackWritten)],
       Ended(if h.ackWritten then Ok(Session(Established(fp, profile, device, capabilities, version), version, 1, guard)) else Err(WriteFailed)))
    case StatusRevoked =>
      if h.windowIfRevoked then
        var (calls, next) := Offer(h, hello, guard, version);
        ([LookedUp(fp, h.status), AskedWindow(true)] + calls, next)
      else
        var ack := Ack(h, hello, version, HelloStatus.Rejected, version, [], []);
        ([LookedUp(fp, h.status), AskedWindow(false), Sent(ack, h.ackWritten)], Ended(Err(NotAuthorized)))
    case StatusUnknown =>
      var (calls, next) := Offer(h, hello, guard, version);
      ([LookedUp(fp, h.status)] + calls, next)
  }

  /** The version first, then the decision. */
  function GreetKnown(h: HelloAnswers, fp: Fingerprint, profile: Profile, hello: Envelope, guard: Guard): (seq<Call>, Next)
    requires hello.body.Hello? && hello.body.device.Some?
  {
    match NegotiateVersion(hello.body.minVersion, hello.body.maxVersion)
    case None =>
      var ack := Ack(h, hello, PROTOCOL_VERSION_MAX, HelloStatus.VersionUnsupported, 0, [], []);
      ([Sent(ack, h.ackWritten)], Ended(Err(NoCommonVersion)))
    case Some(version) => Decide(h, fp, profile, hello, guard, version)
  }

  function Greet(h: HelloAnswers, fp: Fingerprint, profile: Profile, read: Result<Envelope, Failure>): (seq<Call>, Next) {
    match Screen(fp, read)
    case Err(e) => ([Read(read)], Ended(Err(e)))
    case Ok((hello, guard)) =>
      var (calls, next) := GreetKnown(h, fp, profile, hello, guard);
      ([Read(read)] + calls, next)
  }

  function PairStatusOf(e: PairingError): PairStatus {
    match e
    case NotInPairingMode => PairStatus.NotInPairingMode
    case RateLimited => PairStatus.RateLimited
    case _ => PairStatus.RejectedPair
  }

  function ScreenRequest(w: Waiting, read: Result<Envelope, Failure>): (r: Result<(Envelope, Guard), Failure>)
    ensures r.Ok? ==>
      && read == Ok(r.value.0) && Admit(w.guard, r.value.0) == (None, r.value.1)
      && r.value.0.version == w.version && r.value.0.body.PairRequest?
  {
    match read
    case Err(e) => Err(e)
    case Ok(env) =>
      var (violation, guard) := Admit(w.guard, env);
      if violation.Some? then Err(NotAdmitted(violation.value))
      else if env.version != w.version then Err(VersionChanged)
      else if !env.body.PairRequest? then Err(UnexpectedMessage)
      else Ok((env, guard))
  }

  function Response(p: PairAnswers, w: Waiting, request: Envelope, status: PairStatus, confirmation: Bytes): Envelope {
    Envelope(w.version, p.responseId, 2, request.messageId, PairResponse(status, confirmation))
  }

  /** `accept_pairing`: proof, then the human, then the store, then the answer. */
  function Pair(p: PairAnswers, fp: Fingerprint, profile: Profile, w: Waiting, read: Result<Envelope, Failure>): (seq<Call>, Result<Session, Failure>) {
    match ScreenRequest(w, read)
    case Err(e) => ([Read(read)], Err(e))
    case Ok((request, guard)) =>
      var checked := [Read(read), CheckedProof(profile, fp, w.nonce, request.body.proof, p.verdict)];
      match p.verdict
      case Err(e) =>
        (checked + [Sent(Response(p, w, request, PairStatusOf(e), []), p.responseWritten)], Err(PairingRefused(e)))
      case Ok(confirmation) =>
        var asked := checked + [AskedHuman(w.device, fp, p.answer)];
        if p.answer != Some(true) then
          (asked + [Sent(Response(p, w, request, PairStatus.DeclinedByUser, []), p.responseWritten)],
           Err(PairingRefused(PairingError.DeclinedByUser)))
        else
          var mutual := Mutual(p.registry, w.capabilities);
          var stored := asked + [StoredPeer(w.device, fp, mutual, w.version, p.stored)];
          if !p.stored then (stored, Err(StoreFailed))
          else
            var sent := stored + [Sent(Response(p, w, request, PairStatus.Accepted, confirmation), p.responseWritten)];
            if !p.responseWritten then (sent, Err(WriteFailed))
            else
              (sent + [LookedUp(fp, p.status)],
               Ok(Session(Established(fp, profile, w.device, Allowed(mutual, Granted(p.status)), w.version), w.version, 2, guard)))
  }

  /** The responder's half: everything it does, and what comes of it. */
  function Respond(h: HelloAnswers, p: PairAnswers, fp: Fingerprint, profile: Profile,
                   first: Result<Envelope, Failure>, second: Result<Envelope, Failure>): (seq<Call>, Result<Session, Failure>) {
    match Greet(h, fp, profile, first)
    case (calls, Ended(r)) => (calls, r)
    case (calls, Awaiting(w)) => var (more, r) := Pair(p, fp, profile, w, second); (calls + more, r)
  }

  // ---- the responder as the code runs it ------------------------------------------------------

  method AcceptPairing(p: PairAnswers, fp: Fingerprint, profile: Profile, factory: EnvelopeFactory, guard: ReplayGuard,
                       device: DeviceInfo, nonce: Nonce, version: nat, capabilities: seq<Text>, read: Result<Envelope, Failure>)
    returns (calls: seq<Call>, r: Result<Established, Failure>)
    requires factory.version == version && factory.sequence == 1
    modifies factory, guard
    ensures var (calls', r') := Pair(p, fp, profile, Waiting(version, old(guard.View()), device, capabilities, nonce), read);
            && calls == calls'
            && r'.Ok? == r.Ok? && (r.Err? ==> r'.error == r.error)
            && (r.Ok? ==> r'.value == Session(r.value, factory.version, factory.sequence, guard.View()))
  {
    calls := [Read(read)];
    if read.Err? {
      return calls, Err(read.error);
    }
    var env := read.value;
    var violation := guard.AdmitEnvelope(env);
    if violation.Some? {
      return calls, Err(NotAdmitted(violation.value));
    }
    if env.version != version {
      return calls, Err(VersionChanged);
    }
    if !env.body.PairRequest? {
      return calls, Err(UnexpectedMessage);
    }
    calls := calls + [CheckedProof(profile, fp, nonce, env.body.proof, p.verdict)];
    if p.verdict.Err? {
      var refusal := factory.BuildReply(PairResponse(PairStatusOf(p.verdict.error), []), p.responseId, env.messageId);
      return calls + [Sent(refusal, p.responseWritten)], Err(PairingRefused(p.verdict.error));
    }
    calls := calls + [AskedHuman(device, fp, p.answer)];
    if p.answer != Some(true) {
      var refusal := factory.BuildReply(PairResponse(PairStatus.DeclinedByUser, []), p.responseId, env.messageId);
      return calls + [Sent(refusal, p.responseWritten)], Err(PairingRefused(PairingError.DeclinedByUser));
    }
    var mutual := Negotiate(p.registry, capabilities);
    calls := calls + [StoredPeer(device, fp, mutual, version, p.stored)];
    if !p.stored {
      return calls, Err(StoreFailed);
    }
    var response := factory.BuildReply(PairResponse(PairStatus.Accepted, p.verdict.value), p.responseId, env.messageId);
    calls := calls + [Sent(response, p.responseWritten)];
    if !p.responseWritten {
      return calls, Err(WriteFailed);
    }
    calls := calls + [LookedUp(fp, p.status)];
    r := Ok(Established(fp, profile, device, Allowed(mutual, Granted(p.status)), version));
  }

  /** The branch for a peer that must pair first; returns with a nonce when a PAIR_REQUEST is due. */
  method OfferPairing(h: HelloAnswers, hello: Envelope, factory: EnvelopeFactory, ghost guard: Guard)
    returns (calls: seq<Call>, r: Result<Nonce, Failure>)
    requires hello.body.Hello? && hello.body.device.Some? && factory.sequence == 0
    modifies factory
    ensures factory.version == old(factory.version) && (r.Ok? ==> factory.sequence == 1)
    ensures Offer(h, hello, guard, factory.version)
            == (calls, if r.Err? then Ended(Err(r.error))
                       else Awaiting(Waiting(factory.version, guard, hello.body.device.value, hello.body.capabilities, r.value)))
  {
    calls := [AskedWindow(h.window)];
    var nonce: Bytes := [];
    if h.window {
      calls := calls + [DrewNonce(h.nonce)];
      if h.nonce.None? {
        assert calls == [AskedWindow(true), DrewNonce(None)];
        return calls, Err(NoRandomness);
      }
      nonce := h.nonce.value;
    }
    var ack := factory.BuildReply(HelloAck(Some(h.info), HelloStatus.PairingRequired, factory.version, h.registry, nonce), h.ackId, hello.messageId);
    calls := calls + [Sent(ack, h.ackWritten)];
    assert calls == if h.window then [AskedWindow(true), DrewNonce(h.nonce), Sent(ack, h.ackWritten)]
                    else [AskedWindow(false), Sent(ack, h.ackWritten)];
    if !h.ackWritten {
      return calls, Err(WriteFailed);
    }
    if !h.window {
      return calls, Err(PairingRefused(PairingError.NotInPairingMode));
    }
    r := Ok(nonce);
  }

  /** What the HELLO must be before anything is asked of the host. */
  method ReadHello(fp: Fingerprint, read: Result<Envelope, Failure>, guard: ReplayGuard) returns (r: Result<Envelope, Failure>)
    requires guard.View() == FRESH_GUARD
    modifies guard
    ensures Screen(fp, read) == if r.Err? then Err(r.error) else Ok((r.value, guard.View()))
  {
    if read.Err? {
      return Err(read.error);
    }
    var violation := guard.AdmitEnvelope(read.value);
    if violation.Some? {
      return Err(NotAdmitted(violation.value));
    }
    if !read.value.body.Hello? {
      return Err(UnexpectedMessage);
    }
    if read.value.body.device.None? {
      return Err(NoDeviceInfo);
    }
    var claimed := FromHex(read.value.body.device.value.identityFingerprint, 32);
    if claimed.None? {
      return Err(MalformedFingerprint);
    }
    if claimed.value != fp {
      return Err(WrongFingerprint);
    }
    r := Ok(read.value);
  }

  /** The three branches on what the trust store says of the peer. */
  method ActOnHello(h: HelloAnswers, fp: Fingerprint, profile: Profile, hello: Envelope, factory: EnvelopeFactory, guard: ReplayGuard)
    returns (calls: seq<Call>, next: Next)
    requires hello.body.Hello? && hello.body.device.Some? && factory.sequence == 0
    modifies factory
    ensures factory.version == old(factory.version) && (next.Awaiting? ==> factory.sequence == 1)
    ensures (calls, next) == Decide(h, fp, profile, hello, guard.View(), factory.version)
  {
    calls := [LookedUp(fp, h.status)];
    if h.status.StatusRevoked? {
      calls := calls + [AskedWindow(h.windowIfRevoked)];
      if !h.windowIfRevoked {
        var ack := factory.BuildReply(HelloAck(Some(h.info), HelloStatus.Rejected, factory.version, [], []), h.ackId, hello.messageId);
        calls := calls + [Sent(ack, h.ackWritten)];
        assert calls == [LookedUp(fp, h.status), AskedWindow(false), Sent(ack, h.ackWritten)];
        return calls, Ended(Err(NotAuthorized));
      }
    }
    if h.status.StatusTrusted? {
      var mutual := Negotiate(h.registry, hello.body.capabilities);
      var effective := Allowed(mutual, h.status.granted);
      var ack := factory.BuildReply(HelloAck(Some(h.info), HelloStatus.Trusted, factory.version, h.registry, []), h.ackId, hello.messageId);
      calls := calls + [Sent(ack, h.ackWritten)];
      assert calls == [LookedUp(fp, h.status), Sent(ack, h.ackWritten)];
      if !h.ackWritten {
        return calls, Ended(Err(WriteFailed));
      }
      var info := hello.body.device.value.(deviceId := h.status.deviceId, deviceName := h.status.deviceName);
      var established := Established(fp, profile, info, effective, factory.version);
      return calls, Ended(Ok(Session(established, factory.version, factory.sequence, guard.View())));
    }
    var offered, nonce := OfferPairing(h, hello, factory, guard.View());
    calls := calls + offered;
    assert h.status.StatusRevoked? ==> calls == [LookedUp(fp, h.status), AskedWindow(true)] + offered;
    next := if nonce.Err? then Ended(Err(nonce.error))
            else Awaiting(Waiting(factory.version, guard.View(), hello.body.device.value, hello.body.capabilities, nonce.value));
  }

  /** From a HELLO that passed to what the responder does next. */
  method WelcomeKnown(h: HelloAnswers, fp: Fingerprint, profile: Profile, hello: Envelope, guard: ReplayGuard)
    returns (calls: seq<Call>, next: Next, factory: EnvelopeFactory)
    requires hello.body.Hello? && hello.body.device.Some?
    ensures fresh(factory) && (calls, next) == GreetKnown(h, fp, profile, hello, guard.View())
    ensures next.Awaiting? ==> factory.sequence == 1 && factory.version == next.waiting.version && guard.View() == next.waiting.guard
  {
    var version := NegotiateVersion(hello.body.minVersion, hello.body.maxVersion);
    if version.None? {
      factory := new EnvelopeFactory(PROTOCOL_VERSION_MAX);
      var ack := factory.BuildReply(HelloAck(Some(h.info), HelloStatus.VersionUnsupported, 0, [], []), h.ackId, hello.messageId);
      return [Sent(ack, h.ackWritten)], Ended(Err(NoCommonVersion)), factory;
    }
    factory := new EnvelopeFactory(version.value);
    calls, next := ActOnHello(h, fp, profile, hello, factory, guard);
  }

  /** The HELLO's half of `accept_handshake`. */
  method Welcome(h: HelloAnswers, fp: Fingerprint, profile: Profile, read: Result<Envelope, Failure>, guard: ReplayGuard)
    returns (calls: seq<Call>, next: Next, factory: EnvelopeFactory)
    requires guard.View() == FRESH_GUARD
    modifies guard
    ensures fresh(factory) && (calls, next) == Greet(h, fp, profile, read)
    ensures next.Awaiting? ==> factory.sequence == 1 && factory.version == next.waiting.version && guard.View() == next.waiting.guard
  {
    calls := [Read(read)];
    var screened := ReadHello(fp, read, guard);
    if screened.Err? {
      factory := new EnvelopeFactory(PROTOCOL_VERSION_MAX);
      return calls, Ended(Err(screened.error)), factory;
    }
    var more;
    more, next, factory := WelcomeKnown(h, fp, profile, screened.value, guard);
    calls := calls + more;
  }

  /** The PAIR_REQUEST's half of `accept_handshake`. */
  method PairWaiting(p: PairAnswers, fp: Fingerprint, profile: Profile, factory: EnvelopeFactory, guard: ReplayGuard,
                     w: Waiting, second: Result<Envelope, Failure>)
    returns (calls: seq<Call>, r: Result<Session, Failure>)
    requires factory.version == w.version && factory.sequence == 1 && guard.View() == w.guard
    modifies factory, guard
    ensures (calls, r) == Pair(p, fp, profile, w, second)
  {
    var established;
    calls, established := AcceptPairing(p, fp, profile, factory, guard, w.device, w.nonce, w.version, w.capabilities, second);
    r := if established.Ok? then Ok(Session(established.value, factory.version, factory.sequence, guard.View())) else Err(established.error);
  }

  /** `accept_handshake`: one factory, one guard, at most two reads. */
  method AcceptHandshake(h: HelloAnswers, p: PairAnswers, fp: Fingerprint, profile: Profile,
                         first: Result<Envelope, Failure>, second: Result<Envelope, Failure>)
    returns (calls: seq<Call>, r: Result<Session, Failure>)
    ensures (calls, r) == Respond(h, p, fp, profile, first, second)
  {
    var guard := new ReplayGuard();
    var next, factory;
    calls, next, factory := Welcome(h, fp, profile, first, guard);
    if next.Ended? {
      return calls, next.result;
    }
    var more;
    more, r := PairWaiting(p, fp, profile, factory, guard, next.waiting, second);
    calls := calls + more;
  }

  // ---- the initiator --------------------------------------------------------------------------

  /** The initiator's own side, and the answers of its host. `ownFp` is its key. */
  datatype ConnectAnswers = ConnectAnswers(
    registry: Registry,
    info: DeviceInfo,
    token: Option<Bytes>,
    helloId: Bytes,
    helloWritten: bool,
    requestId: Bytes,
    requestWritten: bool,
    stored: bool)

  datatype Outcome = Connected(session: Session) | MustPair | Failed(failure: Failure)

  /** What the initiator remembers while it waits for the PAIR_RESPONSE. */
  datatype Requested = Requested(own: Fingerprint, version: nat, guard: Guard, remote: DeviceInfo, capabilities: seq<Text>, nonce: Bytes, token: Bytes)

  datatype AfterAck = Settled(outcome: Outcome) | SendRequest(request: Envelope, requested: Requested)

  function HelloOf(c: ConnectAnswers): Envelope {
    Envelope(PROTOCOL_VERSION_MAX, c.helloId, 1, [], Hello(Some(c.info), PROTOCOL_VERSION_MIN, PROTOCOL_VERSION_MAX, c.registry))
  }

  predicate Spoken(version: nat) {
    PROTOCOL_VERSION_MIN <= version <= PROTOCOL_VERSION_MAX
  }

  /** The checks a HELLO_ACK passes first. */
  function ScreenAck(server: Fingerprint, read: Result<Envelope, Failure>): (r: Result<(Envelope, Guard), Failure>)
    ensures r.Ok? ==>
      && read == Ok(r.value.0) && Admit(FRESH_GUARD, r.value.0) == (None, r.value.1)
      && r.value.0.body.HelloAck? && r.value.0.body.device.Some?
      && FromHex(r.value.0.body.device.value.identityFingerprint, 32) == Some(server)
  {
    match read
    case Err(e) => Err(e)
    case Ok(env) =>
      var (violation, guard) := Admit(FRESH_GUARD, env);
      if violation.Some? then Err(NotAdmitted(violation.value))
      else if !env.body.HelloAck? then Err(UnexpectedMessage)
      else if env.body.device.None? then Err(NoDeviceInfo)
      else match FromHex(env.body.device.value.identityFingerprint, 32)
        case None => Err(MalformedFingerprint)
        case Some(claimed) => if claimed != server then Err(WrongFingerprint) else Ok((env, guard))
  }

  /** What a HELLO_ACK that passed them leads to. */
  function FollowAck(hmac: Hmac, c: ConnectAnswers, own: Fingerprint, server: Fingerprint, profile: Profile, ack: Envelope, guard: Guard): AfterAck
    requires ack.body.HelloAck? && ack.body.device.Some?
  {
    var body := ack.body;
    match body.status
    case VersionUnsupported => Settled(Failed(NoCommonVersion))
    case Rejected => Settled(Failed(NotAuthorized))
    case UnspecifiedHello => Settled(Failed(UnspecifiedStatus))
    case Trusted =>
      if !Spoken(body.version) then Settled(Failed(NoCommonVersion))
      else
        var established := Established(server, profile, body.device.value, Mutual(c.registry, body.capabilities), body.version);
        Settled(Connected(Session(established, body.version, 1, guard)))
    case PairingRequired =>
      if c.token.None? then Settled(MustPair)
      else if |body.nonce| != NONCE_LEN then Settled(Failed(PairingRefused(PairingError.NotInPairingMode)))
      else if !Spoken(body.version) then Settled(Failed(NoCommonVersion))
      else
        var proof := ComputeProof(hmac, profile, c.token.value, server, own, body.nonce);
        SendRequest(Envelope(body.version, c.requestId, 2, [], PairRequest(proof)),
                    Requested(own, body.version, guard, body.device.value, body.capabilities, body.nonce, c.token.value))
  }

  function OnAck(hmac: Hmac, c: ConnectAnswers, own: Fingerprint, server: Fingerprint, profile: Profile, read: Result<Envelope, Failure>): AfterAck {
    match ScreenAck(server, read)
    case Err(e) => Settled(Failed(e))
    case Ok((ack, guard)) => FollowAck(hmac, c, own, server, profile, ack, guard)
  }

  function PairErrorOf(s: PairStatus): PairingError {
    match s
    case DeclinedByUser => PairingError.DeclinedByUser
    case NotInPairingMode => PairingError.NotInPairingMode
    case RateLimited => PairingError.RateLimited
    case _ => PairingError.BadProof
  }

  /** What a PAIR_RESPONSE leads to, and whether the responder was put in the trust store. */
  function OnResponse(hmac: Hmac, c: ConnectAnswers, server: Fingerprint, profile: Profile, q: Requested, read: Result<Envelope, Failure>): (Outcome, Option<Call>) {
    match read
    case Err(e) => (Failed(e), None)
    case Ok(env) =>
      var (violation, guard) := Admit(q.guard, env);
      if violation.Some? then (Failed(NotAdmitted(violation.value)), None)
      else if !env.body.PairResponse? then (Failed(UnexpectedMessage), None)
      else if env.body.pairStatus != PairStatus.Accepted then (Failed(PairingRefused(PairErrorOf(env.body.pairStatus))), None)
      else if env.body.confirmation != ComputeConfirmation(hmac, profile, q.token, server, q.own, q.nonce) then
        (Failed(PairingRefused(PairingError.BadProof)), None)
      else
        var mutual := Mutual(c.registry, q.capabilities);
        var call := Some(StoredPeer(q.remote, server, mutual, q.version, c.stored));
        if !c.stored then (Failed(StoreFailed), call)
        else (Connected(Session(Established(server, profile, q.remote, mutual, q.version), q.version, 2, guard)), call)
  }

  /** From the HELLO_ACK to the end. */
  function Conclude(hmac: Hmac, c: ConnectAnswers, server: Fingerprint, profile: Profile, next: AfterAck, second: Result<Envelope, Failure>): (Outcome, Option<Call>) {
    match next
    case Settled(outcome) => (outcome, None)
    case SendRequest(_, q) =>
      if !c.requestWritten then (Failed(WriteFailed), None) else OnResponse(hmac, c, server, profile, q, second)
  }

  function ConnectAs(hmac: Hmac, c: ConnectAnswers, own: Fingerprint, server: Fingerprint, profile: Profile,
                     first: Result<Envelope, Failure>, second: Result<Envelope, Failure>): (Outcome, Option<Call>) {
    if !c.helloWritten then (Failed(WriteFailed), None)
    else Conclude(hmac, c, server, profile, OnAck(hmac, c, own, server, profile, first), second)
  }

  function RequestIn(next: AfterAck): seq<Envelope> {
    if next.SendRequest? then [next.request] else []
  }

  /** The envelopes the initiator sends. */
  function SentBy(hmac: Hmac, c: ConnectAnswers, own: Fingerprint, server: Fingerprint, profile: Profile, first: Result<Envelope, Failure>): seq<Envelope> {
    [HelloOf(c)] + if c.helloWritten then RequestIn(OnAck(hmac, c, own, server, profile, first)) else []
  }

  /** The envelopes of a whole connection; without a readable fingerprint of its own it sends none. */
  function Sends(hmac: Hmac, c: ConnectAnswers, server: Fingerprint, profile: Profile, first: Result<Envelope, Failure>): seq<Envelope> {
    match FromHex(c.info.identityFingerprint, 32)
    case None => []
    case Some(own) => SentBy(hmac, c, own, server, profile, first)
  }

  /** The initiator's half: its outcome and what it did to its trust store. */
  function Connect(hmac: Hmac, c: ConnectAnswers, server: Fingerprint, profile: Profile,
                   first: Result<Envelope, Failure>, second: Result<Envelope, Failure>): (Outcome, Option<Call>) {
    match FromHex(c.info.identityFingerprint, 32)
    case None => (Failed(MalformedFingerprint), None)
    case Some(own) => ConnectAs(hmac, c, own, server, profile, first, second)
  }

  /** The second half of `connect_handshake`, from the PAIR_REQUEST on. */
  method RequestPairing(hmac: Hmac, c: ConnectAnswers, server: Fingerprint, profile: Profile, own: Fingerprint, ack: Envelope,
                        factory: EnvelopeFactory, guard: ReplayGuard, second: Result<Envelope, Failure>)
    returns (sent: seq<Envelope>, outcome: Outcome, stored: Option<Call>)
    requires ack.body.HelloAck? && ack.body.device.Some? && c.token.Some? && factory.sequence == 1
    modifies factory, guard
    ensures sent == [Envelope(ack.body.version, c.requestId, 2, [],
                              PairRequest(ComputeProof(hmac, profile, c.token.value, server, own, ack.body.nonce)))]
    ensures var q := Requested(own, ack.body.version, old(guard.View()), ack.body.device.value, ack.body.capabilities, ack.body.nonce, c.token.value);
            (outcome, stored) == if !c.requestWritten then (Failed(WriteFailed), None) else OnResponse(hmac, c, server, profile, q, second)
    ensures stored.Some? ==>
      && second.Ok? && second.value.body.PairResponse? && second.value.body.pairStatus == PairStatus.Accepted
      && second.value.body.confirmation == ComputeConfirmation(hmac, profile, c.token.value, server, own, ack.body.nonce)
  {
    factory.version := ack.body.version;
    var proof := ComputeProof(hmac, profile, c.token.value, server, own, ack.body.nonce);
    var request := factory.Build(PairRequest(proof), c.requestId);
    sent, stored := [request], None;
    if !c.requestWritten {
      return sent, Failed(WriteFailed), None;
    }
    if second.Err? {
      return sent, Failed(second.error), None;
    }
    var violation := guard.AdmitEnvelope(second.value);
    if violation.Some? {
      return sent, Failed(NotAdmitted(violation.value)), None;
    }
    var body := second.value.body;
    if !body.PairResponse? {
      return sent, Failed(UnexpectedMessage), None;
    }
    if body.pairStatus != PairStatus.Accepted {
      return sent, Failed(PairingRefused(PairErrorOf(body.pairStatus))), None;
    }
    var expected := ComputeConfirmation(hmac, profile, c.token.value, server, own, ack.body.nonce);
    if body.confirmation != expected {
      return sent, Failed(PairingRefused(PairingError.BadProof)), None;
    }
    var mutual := Negotiate(c.registry, ack.body.capabilities);
    stored := Some(StoredPeer(ack.body.device.value, server, mutual, ack.body.version, c.stored));
    if !c.stored {
      return sent, Failed(StoreFailed), stored;
    }
    var established := Established(server, profile, ack.body.device.value, mutual, ack.body.version);
    outcome := Connected(Session(established, factory.version, factory.sequence, guard.View()));
  }

  /** What the HELLO_ACK must be before its status is looked at. */
  method ReadAck(server: Fingerprint, read: Result<Envelope, Failure>, guard: ReplayGuard) returns (r: Result<Envelope, Failure>)
    requires guard.View() == FRESH_GUARD
    modifies guard
    ensures ScreenAck(server, read) == if r.Err? then Err(r.error) else Ok((r.value, guard.View()))
  {
    if read.Err? {
      return Err(read.error);
    }
    var violation := guard.AdmitEnvelope(read.value);
    if violation.Some? {
      return Err(NotAdmitted(violation.value));
    }
    if !read.value.body.HelloAck? {
      return Err(UnexpectedMessage);
    }
    if read.value.body.device.None? {
      return Err(NoDeviceInfo);
    }
    var claimed := FromHex(read.value.body.device.value.identityFingerprint, 32);
    if claimed.None? {
      return Err(MalformedFingerprint);
    }
    if claimed.value != server {
      return Err(WrongFingerprint);
    }
    r := Ok(read.value);
  }

  /** The rest of `connect_handshake`, once the HELLO_ACK is known to come from the pinned key. */
  method ActOnAck(hmac: Hmac, c: ConnectAnswers, own: Fingerprint, server: Fingerprint, profile: Profile, ack: Envelope,
                  factory: EnvelopeFactory, guard: ReplayGuard, second: Result<Envelope, Failure>)
    returns (sent: seq<Envelope>, outcome: Outcome, stored: Option<Call>)
    requires ack.body.HelloAck? && ack.body.device.Some? && factory.sequence == 1
    modifies factory, guard
    ensures var next := FollowAck(hmac, c, own, server, profile, ack, old(guard.View()));
            && (outcome, stored) == Conclude(hmac, c, server, profile, next, second)
            && sent == RequestIn(next)
  {
    sent, stored := [], None;
    var body := ack.body;
    match body.status {
      case VersionUnsupported => return sent, Failed(NoCommonVersion), None;
      case Rejected => return sent, Failed(NotAuthorized), None;
      case UnspecifiedHello => return sent, Failed(UnspecifiedStatus), None;
      case Trusted =>
        if !Spoken(body.version) {
          return sent, Failed(NoCommonVersion), None;
        }
        factory.version := body.version;
        var mutual := Negotiate(c.registry, body.capabilities);
        var established := Established(server, profile, body.device.value, mutual, body.version);
        return sent, Connected(Session(established, factory.version, factory.sequence, guard.View())), None;
      case PairingRequired =>
    }
    if c.token.None? {
      return sent, MustPair, None;
    }
    if |body.nonce| != NONCE_LEN {
      return sent, Failed(PairingRefused(PairingError.NotInPairingMode)), None;
    }
    if !Spoken(body.version) {
      return sent, Failed(NoCommonVersion), None;
    }
    sent, outcome, stored := RequestPairing(hmac, c, server, profile, own, ack, factory, guard, second);
  }

  /** `connect_handshake`, the own fingerprint known. */
  method ConnectWithKey(hmac: Hmac, c: ConnectAnswers, own: Fingerprint, server: Fingerprint, profile: Profile,
                        first: Result<Envelope, Failure>, second: Result<Envelope, Failure>)
    returns (sent: seq<Envelope>, outcome: Outcome, stored: Option<Call>)
    ensures (outcome, stored) == ConnectAs(hmac, c, own, server, profile, first, second)
    ensures sent == SentBy(hmac, c, own, server, profile, first)
  {
    var factory := new EnvelopeFactory(PROTOCOL_VERSION_MAX);
    var guard := new ReplayGuard();
    var hello := factory.Build(Hello(Some(c.info), PROTOCOL_VERSION_MIN, PROTOCOL_VERSION_MAX, c.registry), c.helloId);
    sent := [hello];
    if !c.helloWritten {
      return sent, Failed(WriteFailed), None;
    }
    var screened := ReadAck(server, first, guard);
    if screened.Err? {
      return sent, Failed(screened.error), None;
    }
    var more;
    more, outcome, stored := ActOnAck(hmac, c, own, server, profile, screened.value, factory, guard, second);
    sent := sent + more;
  }

  /** `connect_handshake`: the outcome, the store it made, and the envelopes it sent in order. */
  method ConnectHandshake(hmac: Hmac, c: ConnectAnswers, server: Fingerprint, profile: Profile,
                          first: Result<Envelope, Failure>, second: Result<Envelope, Failure>)
    returns (sent: seq<Envelope>, outcome: Outcome, stored: Option<Call>)
    ensures (outcome, stored) == Connect(hmac, c, server, profile, first, second)
    ensures sent == Sends(hmac, c, server, profile, first)
  {
    var own := FromHex(c.info.identityFingerprint, 32);
    if own.None? {
      return [], Failed(MalformedFingerprint), None;
    }
    sent, outcome, stored := ConnectWithKey(hmac, c, own.value, server, profile, first, second);
  }
}
