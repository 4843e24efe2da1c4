/** What every handshake keeps: the responder against any peer, and the two halves together. */
module HandshakeRuns {
  import opened Prelude
  import opened Encodings
  import opened Protocol
  import opened Replay
  import opened Pairing
  import opened Capability
  import opened Handshake

  // ---- the responder, whatever it is sent and whatever its host answers -----------------------

  ghost predicate IsOffer(c: Call, nonce: Bytes) {
    && c.Sent? && c.ok && c.envelope.body.HelloAck?
    && c.envelope.body.status == HelloStatus.PairingRequired && c.envelope.body.nonce == nonce
  }

  ghost predicate IsRequest(c: Call, proof: Bytes) {
    c.Read? && c.result.Ok? && c.result.value.body == PairRequest(proof)
  }

  /** Before the store at `k`: an open window, a nonce drawn and sent, its proof verified, and a yes. */
  ghost predicate Earned(calls: seq<Call>, fp: Fingerprint, profile: Profile, k: nat)
    requires k < |calls|
  {
    && k >= 6 && calls[k].StoredPeer? && calls[k].fp == fp
    && FromHex(calls[k].device.identityFingerprint, 32) == Some(fp)
    && calls[k - 1] == AskedHuman(calls[k].device, fp, Some(true))
    && calls[k - 2].CheckedProof? && calls[k - 2].profile == profile && calls[k - 2].fp == fp && calls[k - 2].verdict.Ok?
    && IsRequest(calls[k - 3], calls[k - 2].proof)
    && IsOffer(calls[k - 4], calls[k - 2].nonce)
    && calls[k - 5].DrewNonce? && calls[k - 5].drawn == Some(calls[k - 2].nonce)
    && calls[k - 6] == AskedWindow(true)
  }

  /** A call that belongs to pairing proper. */
  predicate IsPairing(c: Call) {
    c.CheckedProof? || c.AskedHuman? || c.StoredPeer?
  }

  /** What the trust store last said. */
  function LastStatus(calls: seq<Call>): T.PeerStatus {
    if calls == [] then T.StatusUnknown
    else if calls[|calls| - 1].LookedUp? then calls[|calls| - 1].status
    else LastStatus(calls[..|calls| - 1])
  }

  /** The HELLO's part reads once, pairs nobody, and awaits a PAIR_REQUEST only after an offer. */
  ghost predicate GreetingShape(calls: seq<Call>, fp: Fingerprint, next: Next) {
    && |calls| > 0 && calls[0].Read?
    && (forall k :: 0 <= k < |calls| ==> (calls[k].Read? ==> k == 0) && !IsPairing(calls[k]))
    && (next.Awaiting? ==>
          && |calls| >= 5
          && calls[|calls| - 3] == AskedWindow(true)
          && calls[|calls| - 2] == DrewNonce(Some(next.waiting.nonce))
          && IsOffer(calls[|calls| - 1], next.waiting.nonce)
          && FromHex(next.waiting.device.identityFingerprint, 32) == Some(fp))
  }

  ghost predicate Quiet(c: Call) {
    !c.Read? && !IsPairing(c)
  }

  ghost predicate OfferingShape(calls: seq<Call>, device: DeviceInfo, next: Next) {
    && (forall k :: 0 <= k < |calls| ==> Quiet(calls[k]))
    && (next.Awaiting? ==>
          && |calls| == 3 && calls[0] == AskedWindow(true) && calls[1] == DrewNonce(Some(next.waiting.nonce))
          && IsOffer(calls[2], next.waiting.nonce) && next.waiting.device == device)
  }

  lemma OfferShape(h: HelloAnswers, hello: Envelope, guard: Guard, version: nat)
    requires hello.body.Hello? && hello.body.device.Some?
    ensures var (calls, next) := Offer(h, hello, guard, version);
            OfferingShape(calls, hello.body.device.value, next)
  {
  }

  lemma QuietTogether(a: seq<Call>, b: seq<Call>, k: nat)
    requires k < |a + b| && (forall j :: 0 <= j < |a| ==> Quiet(a[j])) && (forall j :: 0 <= j < |b| ==> Quiet(b[j]))
    ensures Quiet((a + b)[k])
  {
    assert (a + b)[k] == if k < |a| then a[k] else b[k - |a|];
  }

  lemma OfferedShape(read: Result<Envelope, Failure>, asked: seq<Call>, calls: seq<Call>, fp: Fingerprint, device: DeviceInfo, next: Next)
    requires OfferingShape(calls, device, next) && FromHex(device.identityFingerprint, 32) == Some(fp)
    requires |asked| >= 1 && forall k :: 0 <= k < |asked| ==> Quiet(asked[k])
    ensures GreetingShape([Read(read)] + (asked + calls), fp, next)
  {
    var tail := asked + calls;
    forall k | 0 <= k < |tail|
      ensures Quiet(tail[k])
    {
      QuietTogether(asked, calls, k);
    }
    QuietAfterRead(read, tail);
    if next.Awaiting? {
      LastThree(read, asked, calls);
    }
  }

  lemma LastThree(read: Result<Envelope, Failure>, asked: seq<Call>, calls: seq<Call>)
    requires |calls| == 3
    ensures var all := [Read(read)] + (asked + calls);
            all[|all| - 3] == calls[0] && all[|all| - 2] == calls[1] && all[|all| - 1] == calls[2]
  {
  }

  lemma QuietAfterRead(read: Result<Envelope, Failure>, tail: seq<Call>)
    requires forall k :: 0 <= k < |tail| ==> Quiet(tail[k])
    ensures var all := [Read(read)] + tail;
            forall k :: 0 <= k < |all| ==> (all[k].Read? ==> k == 0) && !IsPairing(all[k])
  {
    var all := [Read(read)] + tail;
    forall k | 0 <= k < |all|
      ensures (all[k].Read? ==> k == 0) && !IsPairing(all[k])
    {
      assert k > 0 ==> all[k] == tail[k - 1];
    }
  }

  lemma EndedShape(read: Result<Envelope, Failure>, calls: seq<Call>, fp: Fingerprint, r: Result<Session, Failure>)
    requires forall k :: 0 <= k < |calls| ==> Quiet(calls[k])
    ensures GreetingShape([Read(read)] + calls, fp, Ended(r))
  {
    QuietAfterRead(read, calls);
  }

  lemma DecidedAtOnce(h: HelloAnswers, fp: Fingerprint, profile: Profile, hello: Envelope, guard: Guard, version: nat)
    requires hello.body.Hello? && hello.body.device.Some?
    requires h.status.StatusTrusted? || (h.status.StatusRevoked? && !h.windowIfRevoked)
    ensures var (calls, next) := Decide(h, fp, profile, hello, guard, version);
            next.Ended? && forall k :: 0 <= k < |calls| ==> Quiet(calls[k])
  {
  }

  function Asked(h: HelloAnswers, fp: Fingerprint): seq<Call> {
    if h.status.StatusRevoked? then [LookedUp(fp, h.status), AskedWindow(true)] else [LookedUp(fp, h.status)]
  }

  lemma DecidedByOffer(h: HelloAnswers, fp: Fingerprint, profile: Profile, hello: Envelope, guard: Guard, version: nat)
    requires hello.body.Hello? && hello.body.device.Some?
    requires h.status.StatusUnknown? || (h.status.StatusRevoked? && h.windowIfRevoked)
    ensures var (offered, next) := Offer(h, hello, guard, version);
            Decide(h, fp, profile, hello, guard, version) == (Asked(h, fp) + offered, next)
  {
  }

  lemma ByOfferShape(h: HelloAnswers, fp: Fingerprint, hello: Envelope, guard: Guard, version: nat, read: Result<Envelope, Failure>)
    requires hello.body.Hello? && hello.body.device.Some? && FromHex(hello.body.device.value.identityFingerprint, 32) == Some(fp)
    ensures var (offered, next) := Offer(h, hello, guard, version);
            GreetingShape([Read(read)] + (Asked(h, fp) + offered), fp, next)
  {
    OfferShape(h, hello, guard, version);
    var (offered, next) := Offer(h, hello, guard, version);
    OfferedShape(read, Asked(h, fp), offered, fp, hello.body.device.value, next);
  }

  lemma DecideShape(h: HelloAnswers, fp: Fingerprint, profile: Profile, hello: Envelope, guard: Guard, version: nat, read: Result<Envelope, Failure>)
    requires hello.body.Hello? && hello.body.device.Some? && FromHex(hello.body.device.value.identityFingerprint, 32) == Some(fp)
    ensures var (calls, next) := Decide(h, fp, profile, hello, guard, version);
            GreetingShape([Read(read)] + calls, fp, next)
  {
    if h.status.StatusTrusted? || (h.status.StatusRevoked? && !h.windowIfRevoked) {
      DecidedAtOnce(h, fp, profile, hello, guard, version);
      var (calls, next) := Decide(h, fp, profile, hello, guard, version);
      EndedShape(read, calls, fp, next.result);
    } else {
      DecidedByOffer(h, fp, profile, hello, guard, version);
      ByOfferShape(h, fp, hello, guard, version, read);
    }
  }

  lemma GreetShape(h: HelloAnswers, fp: Fingerprint, profile: Profile, read: Result<Envelope, Failure>)
    ensures var (calls, next) := Greet(h, fp, profile, read);
            GreetingShape(calls, fp, next)
  {
    match Screen(fp, read)
    case Err(_) =>
    case Ok((hello, guard)) =>
      match NegotiateVersion(hello.body.minVersion, hello.body.maxVersion)
      case None =>
      case Some(version) => DecideShape(h, fp, profile, hello, guard, version, read);
  }

  /** The PAIR_REQUEST's part: each call has its one place, and a store follows a verified proof and a yes. */
  ghost predicate PairingShape(calls: seq<Call>, fp: Fingerprint, profile: Profile, w: Waiting, ok: bool) {
    && |calls| > 0 && calls[0].Read?
    && (forall k :: 0 <= k < |calls| ==>
          && (calls[k].Read? ==> k == 0) && (calls[k].CheckedProof? ==> k == 1)
          && (calls[k].AskedHuman? ==> k == 2) && (calls[k].StoredPeer? ==> k == 3))
    && (|calls| > 1 ==> calls[1].CheckedProof? && IsRequest(calls[0], calls[1].proof)
                        && calls[1].profile == profile && calls[1].fp == fp && calls[1].nonce == w.nonce)
    && (|calls| > 3 && calls[3].StoredPeer? ==>
          && calls[1].verdict.Ok? && calls[2] == AskedHuman(w.device, fp, Some(true))
          && calls[3].device == w.device && calls[3].fp == fp)
    && (ok ==> |calls| > 3 && calls[3].StoredPeer? && calls[3].ok)
  }

  lemma PairShape(p: PairAnswers, fp: Fingerprint, profile: Profile, w: Waiting, read: Result<Envelope, Failure>)
    ensures var (calls, r) := Pair(p, fp, profile, w, read);
            PairingShape(calls, fp, profile, w, r.Ok?)
  {
  }

  lemma ShapesJoin(c1: seq<Call>, c2: seq<Call>, fp: Fingerprint, profile: Profile, w: Waiting, ok: bool)
    requires GreetingShape(c1, fp, Awaiting(w)) && PairingShape(c2, fp, profile, w, ok)
    ensures Orderly(c1 + c2, fp, profile, |c1|)
    ensures ok ==> Earned(c1 + c2, fp, profile, |c1| + 3) && (c1 + c2)[|c1| + 3].ok
  {
    var calls := c1 + c2;
    assert forall k :: 0 <= k < |c2| ==> calls[|c1| + k] == c2[k];
    if |c2| > 3 && c2[3].StoredPeer? {
      assert Earned(calls, fp, profile, |c1| + 3);
    }
    forall k | 0 <= k < |calls|
      ensures InPlace(calls, k, |c1|)
    {
      assert calls[k] == if k < |c1| then c1[k] else c2[k - |c1|];
    }
  }

  /** With the second read at `m`: proof, question and store each have one place after it. */
  ghost predicate InPlace(calls: seq<Call>, k: nat, m: nat)
    requires k < |calls|
  {
    && (calls[k].Read? ==> k == 0 || k == m)
    && (calls[k].CheckedProof? ==> k == m + 1)
    && (calls[k].AskedHuman? ==> k == m + 2)
    && (calls[k].StoredPeer? ==> k == m + 3)
  }

  ghost predicate Orderly(calls: seq<Call>, fp: Fingerprint, profile: Profile, m: nat) {
    && (forall k :: 0 <= k < |calls| ==> InPlace(calls, k, m))
    && (m + 3 < |calls| && calls[m + 3].StoredPeer? ==> Earned(calls, fp, profile, m + 3))
  }

  /**
   Against every peer and every host: at most two reads, at most one proof, one question and one
   store in that order; a store only when it is earned; and a session only for a peer the trust store
   knew, or one whose store was earned on this very connection.
   */
  lemma ResponderIsSafe(h: HelloAnswers, p: PairAnswers, fp: Fingerprint, profile: Profile,
                        first: Result<Envelope, Failure>, second: Result<Envelope, Failure>) returns (m: nat)
    ensures var (calls, r) := Respond(h, p, fp, profile, first, second);
            && Orderly(calls, fp, profile, m)
            && (r.Ok? ==> r.value.established.peer == fp && r.value.established.profile == profile)
            && (r.Ok? ==> || (|calls| > 1 && calls[1] == LookedUp(fp, h.status) && h.status.StatusTrusted?)
                          || (m + 3 < |calls| && Earned(calls, fp, profile, m + 3) && calls[m + 3].ok))
  {
    GreetShape(h, fp, profile, first);
    GreetedWell(h, fp, profile, first);
    var (c1, next) := Greet(h, fp, profile, first);
    m := |c1|;
    if next.Awaiting? {
      PairShape(p, fp, profile, next.waiting, second);
      var (c2, r) := Pair(p, fp, profile, next.waiting, second);
      ShapesJoin(c1, c2, fp, profile, next.waiting, r.Ok?);
      PairedPeer(p, fp, profile, next.waiting, second);
    } else {
      GreetingIsOrderly(c1, fp, profile, next);
    }
  }

  lemma GreetingIsOrderly(calls: seq<Call>, fp: Fingerprint, profile: Profile, next: Next)
    requires GreetingShape(calls, fp, next)
    ensures Orderly(calls, fp, profile, |calls|)
  {
  }

  lemma PairedPeer(p: PairAnswers, fp: Fingerprint, profile: Profile, w: Waiting, read: Result<Envelope, Failure>)
    ensures var (calls, r) := Pair(p, fp, profile, w, read);
            r.Ok? ==> r.value.established.peer == fp && r.value.established.profile == profile
  {
  }

  /** A greeting ends well only for a peer the store trusts. */
  lemma DecidedWell(h: HelloAnswers, fp: Fingerprint, profile: Profile, hello: Envelope, guard: Guard, version: nat)
    requires hello.body.Hello? && hello.body.device.Some?
    ensures var (calls, next) := Decide(h, fp, profile, hello, guard, version);
            next.Ended? && next.result.Ok? ==>
              && h.status.StatusTrusted? && |calls| == 2 && calls[0] == LookedUp(fp, h.status) && calls[1].Sent?
              && next.result.value.established.peer == fp && next.result.value.established.profile == profile
              && next.result.value.established.capabilities
                 == Allowed(Mutual(h.registry, hello.body.capabilities), h.status.granted)
  {
    if !h.status.StatusTrusted? {
      OfferEndsBadly(h, hello, guard, version);
    }
  }

  lemma OfferEndsBadly(h: HelloAnswers, hello: Envelope, guard: Guard, version: nat)
    requires hello.body.Hello? && hello.body.device.Some?
    ensures var next := Offer(h, hello, guard, version).1;
            next.Ended? ==> next.result.Err?
  {
  }

  lemma GreetedWell(h: HelloAnswers, fp: Fingerprint, profile: Profile, first: Result<Envelope, Failure>)
    ensures var (calls, next) := Greet(h, fp, profile, first);
            next.Ended? && next.result.Ok? ==>
              && first.Ok? && first.value.body.Hello? && h.status.StatusTrusted?
              && |calls| == 3 && calls[1] == LookedUp(fp, h.status) && calls[2].Sent?
              && next.result.value.established.peer == fp && next.result.value.established.profile == profile
              && next.result.value.established.capabilities
                 == Allowed(Mutual(h.registry, first.value.body.capabilities), h.status.granted)
  {
    match Screen(fp, first)
    case Err(_) =>
    case Ok((hello, guard)) =>
      match NegotiateVersion(hello.body.minVersion, hello.body.maxVersion)
      case None =>
      case Some(version) => DecidedWell(h, fp, profile, hello, guard, version);
  }

  lemma {:induction false} LastStatusOfLast(calls: seq<Call>)
    requires calls != []
    ensures calls[|calls| - 1].LookedUp? ==> LastStatus(calls) == calls[|calls| - 1].status
    ensures |calls| > 1 && !calls[|calls| - 1].LookedUp? && calls[|calls| - 2].LookedUp? ==> LastStatus(calls) == calls[|calls| - 2].status
  {
  }

  lemma GreetedCapabilities(h: HelloAnswers, fp: Fingerprint, profile: Profile, first: Result<Envelope, Failure>)
    ensures var (calls, next) := Greet(h, fp, profile, first);
            next.Ended? && next.result.Ok? ==>
              && first.Ok? && first.value.body.Hello? && h.status.StatusTrusted? && LastStatus(calls) == h.status
              && next.result.value.established.capabilities
                 == Allowed(Mutual(h.registry, first.value.body.capabilities), h.status.granted)
  {
    GreetedWell(h, fp, profile, first);
    var (calls, next) := Greet(h, fp, profile, first);
    if next.Ended? && next.result.Ok? {
      LastStatusOfLast(calls);
    }
  }

  lemma AwaitingRemembers(h: HelloAnswers, fp: Fingerprint, profile: Profile, first: Result<Envelope, Failure>)
    ensures var next := Greet(h, fp, profile, first).1;
            next.Awaiting? ==> first.Ok? && first.value.body.Hello? && !h.status.StatusTrusted?
                               && next.waiting.capabilities == first.value.body.capabilities
  {
  }

  lemma PairedCapabilities(p: PairAnswers, fp: Fingerprint, profile: Profile, w: Waiting, read: Result<Envelope, Failure>, c: Text)
    ensures var (calls, r) := Pair(p, fp, profile, w, read);
            r.Ok? ==>
              && |calls| > 0 && calls[|calls| - 1] == LookedUp(fp, p.status)
              && (c in r.value.established.capabilities
                  <==> c in p.registry && c in w.capabilities && c in Granted(p.status))
  {
  }

  /**
   The capabilities of a session are exactly those this side has registered, the peer advertised and
   the trust store granted when it was last asked.
   */
  lemma CapabilitiesAreGranted(h: HelloAnswers, p: PairAnswers, fp: Fingerprint, profile: Profile,
                               first: Result<Envelope, Failure>, second: Result<Envelope, Failure>, c: Text)
    ensures var (calls, r) := Respond(h, p, fp, profile, first, second);
            r.Ok? ==>
              && first.Ok? && first.value.body.Hello?
              && (c in r.value.established.capabilities
                  <==> && c in (if h.status.StatusTrusted? then h.registry else p.registry)
                       && c in first.value.body.capabilities && c in Granted(LastStatus(calls)))
  {
    GreetedCapabilities(h, fp, profile, first);
    AwaitingRemembers(h, fp, profile, first);
    var (c1, next) := Greet(h, fp, profile, first);
    if next.Awaiting? {
      PairedCapabilities(p, fp, profile, next.waiting, second, c);
      var (c2, r) := Pair(p, fp, profile, next.waiting, second);
      if r.Ok? {
        assert (c1 + c2)[|c1 + c2| - 1] == c2[|c2| - 1];
        LastStatusOfLast(c1 + c2);
      }
    }
  }

  /** Without trust and without an open window: no session, no second read, and no nonce goes out. */
  lemma ClosedWindowPairsNobody(h: HelloAnswers, p: PairAnswers, fp: Fingerprint, profile: Profile,
                                first: Result<Envelope, Failure>, second: Result<Envelope, Failure>)
    requires !h.status.StatusTrusted? && (!h.window || (h.status.StatusRevoked? && !h.windowIfRevoked))
    ensures var (calls, r) := Respond(h, p, fp, profile, first, second);
            && r.Err?
            && (forall k :: 0 <= k < |calls| && calls[k].Read? ==> k == 0)
            && NoNonceIn(calls)
  {
    GreetShape(h, fp, profile, first);
    ClosedWindowEnds(h, fp, profile, first);
  }

  predicate NoNonce(e: Envelope) {
    e.body.HelloAck? ==> e.body.nonce == []
  }

  ghost predicate NoNonceIn(calls: seq<Call>) {
    forall k :: 0 <= k < |calls| && calls[k].Sent? ==> NoNonce(calls[k].envelope)
  }

  lemma ClosedWindowOffers(h: HelloAnswers, hello: Envelope, guard: Guard, version: nat)
    requires hello.body.Hello? && hello.body.device.Some? && !h.window
    ensures var (calls, next) := Offer(h, hello, guard, version);
            next.Ended? && next.result.Err? && NoNonceIn(calls)
  {
  }

  lemma ClosedWindowDecides(h: HelloAnswers, fp: Fingerprint, profile: Profile, hello: Envelope, guard: Guard, version: nat)
    requires hello.body.Hello? && hello.body.device.Some?
    requires !h.status.StatusTrusted? && (!h.window || (h.status.StatusRevoked? && !h.windowIfRevoked))
    ensures var (calls, next) := Decide(h, fp, profile, hello, guard, version);
            next.Ended? && next.result.Err? && NoNonceIn(calls)
  {
    if !h.window {
      ClosedWindowOffers(h, hello, guard, version);
    }
  }

  lemma ClosedWindowEnds(h: HelloAnswers, fp: Fingerprint, profile: Profile, first: Result<Envelope, Failure>)
    requires !h.status.StatusTrusted? && (!h.window || (h.status.StatusRevoked? && !h.windowIfRevoked))
    ensures var (calls, next) := Greet(h, fp, profile, first);
            next.Ended? && next.result.Err? && NoNonceIn(calls)
  {
    match Screen(fp, first)
    case Err(_) =>
    case Ok((hello, guard)) =>
      match NegotiateVersion(hello.body.minVersion, hello.body.maxVersion)
      case None =>
      case Some(version) => ClosedWindowDecides(h, fp, profile, hello, guard, version);
  }

  // ---- the initiator, whatever it is sent and whatever its host answers -----------------------

  /** A HELLO_ACK, fresh, that states the pinned key. */
  ghost predicate IsGenuine(server: Fingerprint, read: Result<Envelope, Failure>) {
    && read.Ok? && read.value.body.HelloAck? && read.value.body.device.Some?
    && FromHex(read.value.body.device.value.identityFingerprint, 32) == Some(server)
    && Admit(FRESH_GUARD, read.value).0 == None
  }

  /** One of this status and of a version this side speaks. */
  ghost predicate IsAck(server: Fingerprint, read: Result<Envelope, Failure>, status: HelloStatus) {
    IsGenuine(server, read) && read.value.body.status == status && Spoken(read.value.body.version)
  }

  /** The responder asked for a proof and sent a whole nonce for it, and there is a token to make it with. */
  ghost predicate IsChallenge(c: ConnectAnswers, server: Fingerprint, read: Result<Envelope, Failure>) {
    IsAck(server, read, HelloStatus.PairingRequired) && |read.value.body.nonce| == NONCE_LEN && c.token.Some?
  }

  /** A fresh acceptance that proves, under this profile, knowledge of the token for this very nonce. */
  ghost predicate IsConfirmation(hmac: Hmac, token: Bytes, server: Fingerprint, own: Fingerprint, profile: Profile,
                                 ack: Envelope, read: Result<Envelope, Failure>)
    requires ack.body.HelloAck?
  {
    && read.Ok? && read.value.body.PairResponse? && read.value.body.pairStatus == PairStatus.Accepted
    && Admit(Admit(FRESH_GUARD, ack).1, read.value).0 == None
    && read.value.body.confirmation == ComputeConfirmation(hmac, profile, token, server, own, ack.body.nonce)
  }

  /** Everything a record of the responder must rest on. */
  ghost predicate Confirmed(hmac: Hmac, c: ConnectAnswers, server: Fingerprint, profile: Profile,
                            first: Result<Envelope, Failure>, second: Result<Envelope, Failure>) {
    && IsChallenge(c, server, first)
    && FromHex(c.info.identityFingerprint, 32).Some?
    && IsConfirmation(hmac, c.token.value, server, FromHex(c.info.identityFingerprint, 32).value, profile, first.value, second)
  }

  /** From the response on, in terms of the challenge it answers. */
  lemma ResponseIsJudged(hmac: Hmac, c: ConnectAnswers, server: Fingerprint, profile: Profile, own: Fingerprint, ack: Envelope,
                         q: Requested, second: Result<Envelope, Failure>)
    requires ack.body.HelloAck? && q.guard == Admit(FRESH_GUARD, ack).1 && q.own == own && q.nonce == ack.body.nonce
    ensures var (outcome, stored) := OnResponse(hmac, c, server, profile, q, second);
            && (stored.Some? <==> IsConfirmation(hmac, q.token, server, own, profile, ack, second))
            && (stored.Some? ==> stored.value == StoredPeer(q.remote, server, Mutual(c.registry, q.capabilities), q.version, c.stored))
            && (outcome.Connected? <==> stored.Some? && c.stored)
            && (outcome.Connected? ==> outcome.session.established
                                       == Established(server, profile, q.remote, Mutual(c.registry, q.capabilities), q.version))
  {
  }

  lemma ScreenedIsGenuine(server: Fingerprint, read: Result<Envelope, Failure>)
    ensures ScreenAck(server, read).Ok? <==> IsGenuine(server, read)
  {
  }

  /** What the initiator does with a genuine HELLO_ACK, by what it says. */
  lemma GenuineIsFollowed(hmac: Hmac, c: ConnectAnswers, own: Fingerprint, server: Fingerprint, profile: Profile, ack: Envelope, guard: Guard)
    requires ack.body.HelloAck? && ack.body.device.Some?
    ensures var next, body := FollowAck(hmac, c, own, server, profile, ack, guard), ack.body;
            && (next.SendRequest? <==> body.status == HelloStatus.PairingRequired && Spoken(body.version)
                                       && |body.nonce| == NONCE_LEN && c.token.Some?)
            && (next.Settled? && next.outcome.Connected? <==> body.status == HelloStatus.Trusted && Spoken(body.version))
            && (next.Settled? && next.outcome.Connected? ==>
                  next.outcome.session.established
                  == Established(server, profile, body.device.value, Mutual(c.registry, body.capabilities), body.version))
            && (next.SendRequest? ==>
                  && next.request.version == body.version && next.request.sequence == 2
                  && next.request.body == PairRequest(ComputeProof(hmac, profile, c.token.value, server, own, body.nonce))
                  && next.requested == Requested(own, body.version, guard, body.device.value, body.capabilities, body.nonce, c.token.value))
  {
  }

  /** The request that answers a challenge, and what is remembered with it. */
  ghost predicate IsProofFor(hmac: Hmac, c: ConnectAnswers, own: Fingerprint, server: Fingerprint, profile: Profile, ack: Envelope, next: AfterAck)
    requires ack.body.HelloAck? && ack.body.device.Some? && c.token.Some?
  {
    && next.SendRequest? && next.request.version == ack.body.version && next.request.sequence == 2
    && next.request.body == PairRequest(ComputeProof(hmac, profile, c.token.value, server, own, ack.body.nonce))
    && next.requested == Requested(own, ack.body.version, Admit(FRESH_GUARD, ack).1, ack.body.device.value,
                                   ack.body.capabilities, ack.body.nonce, c.token.value)
  }

  ghost predicate IsTrustedSession(c: ConnectAnswers, server: Fingerprint, profile: Profile, ack: Envelope, next: AfterAck)
    requires ack.body.HelloAck? && ack.body.device.Some?
  {
    && next.Settled? && next.outcome.Connected?
    && next.outcome.session.established
       == Established(server, profile, ack.body.device.value, Mutual(c.registry, ack.body.capabilities), ack.body.version)
  }

  /** What the initiator does with whatever comes first. */
  lemma AckIsJudged(hmac: Hmac, c: ConnectAnswers, own: Fingerprint, server: Fingerprint, profile: Profile, first: Result<Envelope, Failure>)
    ensures var next := OnAck(hmac, c, own, server, profile, first);
            && (next.SendRequest? <==> IsChallenge(c, server, first))
            && (next.Settled? && next.outcome.Connected? <==> IsAck(server, first, HelloStatus.Trusted))
            && (IsChallenge(c, server, first) ==> IsProofFor(hmac, c, own, server, profile, first.value, next))
            && (IsAck(server, first, HelloStatus.Trusted) ==> IsTrustedSession(c, server, profile, first.value, next))
  {
    ScreenedIsGenuine(server, first);
    if IsGenuine(server, first) {
      GenuineIsFollowed(hmac, c, own, server, profile, first.value, Admit(FRESH_GUARD, first.value).1);
    }
  }

  /** From the HELLO_ACK to the end, the HELLO sent. */
  lemma KeyedInitiatorIsSafe(hmac: Hmac, c: ConnectAnswers, own: Fingerprint, server: Fingerprint, profile: Profile,
                             first: Result<Envelope, Failure>, second: Result<Envelope, Failure>)
    ensures var next := OnAck(hmac, c, own, server, profile, first);
            var (outcome, stored) := Conclude(hmac, c, server, profile, next, second);
            && (stored.Some? <==> c.requestWritten && IsChallenge(c, server, first)
                                  && IsConfirmation(hmac, c.token.value, server, own, profile, first.value, second))
            && (outcome.Connected? <==> IsAck(server, first, HelloStatus.Trusted) || (stored.Some? && c.stored))
  {
    AckIsJudged(hmac, c, own, server, profile, first);
    var next := OnAck(hmac, c, own, server, profile, first);
    if next.SendRequest? {
      ResponseIsJudged(hmac, c, server, profile, own, first.value, next.requested, second);
    }
  }

  /** From the HELLO on, written or not. */
  lemma InitiatorAsIsSafe(hmac: Hmac, c: ConnectAnswers, own: Fingerprint, server: Fingerprint, profile: Profile,
                          first: Result<Envelope, Failure>, second: Result<Envelope, Failure>)
    ensures var (outcome, stored) := ConnectAs(hmac, c, own, server, profile, first, second);
            && (stored.Some? <==> c.helloWritten && c.requestWritten && IsChallenge(c, server, first)
                                  && IsConfirmation(hmac, c.token.value, server, own, profile, first.value, second))
            && (outcome.Connected? <==> || (c.helloWritten && IsAck(server, first, HelloStatus.Trusted))
                                        || (stored.Some? && c.stored))
  {
    if c.helloWritten {
      KeyedInitiatorIsSafe(hmac, c, own, server, profile, first, second);
    }
  }

  /**
   Against every responder and every host: the responder is recorded exactly when it proved knowledge
   of the token for the nonce it sent, under the pinned key; and the initiator is connected exactly
   when a fresh ack of the pinned key says it is trusted, or such a record was made.
   */
  lemma InitiatorIsSafe(hmac: Hmac, c: ConnectAnswers, server: Fingerprint, profile: Profile,
                        first: Result<Envelope, Failure>, second: Result<Envelope, Failure>)
    ensures var (outcome, stored) := Connect(hmac, c, server, profile, first, second);
            && (stored.Some? <==> c.helloWritten && c.requestWritten && Confirmed(hmac, c, server, profile, first, second))
            && (outcome.Connected? <==>
                  || (c.helloWritten && FromHex(c.info.identityFingerprint, 32).Some? && IsAck(server, first, HelloStatus.Trusted))
                  || (stored.Some? && c.stored))
  {
    var own := FromHex(c.info.identityFingerprint, 32);
    if own.Some? {
      InitiatorAsIsSafe(hmac, c, own.value, server, profile, first, second);
    }
  }

  /** The record is of the pinned key, with what both sides support. */
  lemma RecordIsOfThePin(hmac: Hmac, c: ConnectAnswers, server: Fingerprint, profile: Profile,
                         first: Result<Envelope, Failure>, second: Result<Envelope, Failure>)
    requires Connect(hmac, c, server, profile, first, second).1.Some?
    ensures first.Ok? && first.value.body.HelloAck? && first.value.body.device.Some?
    ensures var body := first.value.body;
            && Connect(hmac, c, server, profile, first, second).1
               == Some(StoredPeer(body.device.value, server, Mutual(c.registry, body.capabilities), body.version, c.stored))
            && FromHex(body.device.value.identityFingerprint, 32) == Some(server)
  {
    var own := FromHex(c.info.identityFingerprint, 32).value;
    AckIsJudged(hmac, c, own, server, profile, first);
    ResponseIsJudged(hmac, c, server, profile, own, first.value, OnAck(hmac, c, own, server, profile, first).requested, second);
  }

  /** So is the session, at the version the ack chose. */
  lemma SessionIsWithThePin(hmac: Hmac, c: ConnectAnswers, server: Fingerprint, profile: Profile,
                            first: Result<Envelope, Failure>, second: Result<Envelope, Failure>)
    requires Connect(hmac, c, server, profile, first, second).0.Connected?
    ensures first.Ok? && first.value.body.HelloAck? && first.value.body.device.Some?
    ensures var body := first.value.body;
            && Spoken(body.version)
            && Connect(hmac, c, server, profile, first, second).0.session.established
               == Established(server, profile, body.device.value, Mutual(c.registry, body.capabilities), body.version)
  {
    var own := FromHex(c.info.identityFingerprint, 32).value;
    AckIsJudged(hmac, c, own, server, profile, first);
    var next := OnAck(hmac, c, own, server, profile, first);
    if next.SendRequest? {
      ResponseIsJudged(hmac, c, server, profile, own, first.value, next.requested, second);
    }
  }

  /** At most a HELLO and a PAIR_REQUEST go out, stamped 1 and 2, and the second only to a challenge. */
  lemma RequestAnswersAChallenge(hmac: Hmac, c: ConnectAnswers, server: Fingerprint, profile: Profile, first: Result<Envelope, Failure>)
    ensures var sent := Sends(hmac, c, server, profile, first);
            && |sent| <= 2 && (|sent| > 0 ==> sent[0] == HelloOf(c))
            && (|sent| == 2 <==> c.helloWritten && FromHex(c.info.identityFingerprint, 32).Some? && IsChallenge(c, server, first))
            && (|sent| == 2 ==>
                  && sent[1].sequence == 2 && sent[1].version == first.value.body.version
                  && sent[1].body == PairRequest(ComputeProof(hmac, profile, c.token.value, server,
                                                              FromHex(c.info.identityFingerprint, 32).value, first.value.body.nonce)))
  {
    var own := FromHex(c.info.identityFingerprint, 32);
    if own.Some? {
      AckIsJudged(hmac, c, own.value, server, profile, first);
    }
  }
}
