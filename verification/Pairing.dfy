/** Identity profiles, the pairing MAC and the pairing window. */
module Pairing {
  import opened Prelude
  import opened Encodings

  type Fingerprint = f: Bytes | |f| == 32 witness seq(32, i => 0)

  const TOKEN_LEN := 20
  const NONCE_LEN := 32
  const MAX_FAILED_ATTEMPTS := 3

  // ---- the MAC message ------------------------------------------------------------------------

  datatype Profile = Pliwee | OmniBridge

  datatype Purpose = Proof | Confirmation

  predicate IsAscii(s: Text) {
    forall i :: 0 <= i < |s| ==> s[i] < 128 as char
  }

  function Ascii(s: Text): (b: Bytes)
    requires IsAscii(s)
    ensures |b| == |s| && forall i :: 0 <= i < |s| ==> b[i] == s[i] as int
  {
    seq(|s|, i requires 0 <= i < |s| => s[i] as int)
  }

  function ProofDomain(profile: Profile): (s: Text)
    ensures IsAscii(s)
  {
    match profile
    case Pliwee => "pliwee/pairing-proof/v1"
    case OmniBridge => "omnibridge/pairing-proof/v1"
  }

  function ConfirmDomain(profile: Profile): (s: Text)
    ensures IsAscii(s)
  {
    match profile
    case Pliwee => "pliwee/pairing-confirm/v1"
    case OmniBridge => "omnibridge/pairing-confirm/v1"
  }

  function DomainText(profile: Profile, purpose: Purpose): (s: Text)
    ensures IsAscii(s)
  {
    match purpose
    case Proof => ProofDomain(profile)
    case Confirmation => ConfirmDomain(profile)
  }

  function Domain(profile: Profile, purpose: Purpose): Bytes {
    Ascii(DomainText(profile, purpose))
  }

  /** The length is cast to `u32`, so a field of 4 GiB or more has a truncated prefix. */
  function Field(data: Bytes): Bytes {
    U32Bytes(|data|) + data
  }

  function MacMessage(profile: Profile, purpose: Purpose, responder: Fingerprint, initiator: Fingerprint, nonce: Bytes): Bytes {
    Domain(profile, purpose) + Field(responder) + Field(initiator) + Field(nonce)
  }

  /** HMAC-SHA256 of a key and a message. */
  type Hmac = (Bytes, Bytes) -> Bytes

  function ComputeProof(hmac: Hmac, profile: Profile, token: Bytes, responder: Fingerprint, initiator: Fingerprint, nonce: Bytes): Bytes {
    hmac(token, MacMessage(profile, Proof, responder, initiator, nonce))
  }

  function ComputeConfirmation(hmac: Hmac, profile: Profile, token: Bytes, responder: Fingerprint, initiator: Fingerprint, nonce: Bytes): Bytes {
    hmac(token, MacMessage(profile, Confirmation, responder, initiator, nonce))
  }

  /** Two texts part at a position both have. */
  ghost predicate PartAt(a: Bytes, b: Bytes, i: nat) {
    i < |a| && i < |b| && a[i] != b[i]
  }

  /** No domain is a prefix of another. */
  lemma DomainsArePrefixFree(p: Profile, u: Purpose, p': Profile, u': Purpose) returns (i: nat)
    requires (p, u) != (p', u')
    ensures PartAt(Domain(p, u), Domain(p', u'), i)
  {
    if p != p' {
      i := 0;
      assert DomainText(Pliwee, u)[0] == 'p' && DomainText(OmniBridge, u')[0] == 'o';
      assert DomainText(Pliwee, u')[0] == 'p' && DomainText(OmniBridge, u)[0] == 'o';
    } else if p == Pliwee {
      i := 15;
      assert DomainText(Pliwee, Proof)[15] == 'p' && DomainText(Pliwee, Confirmation)[15] == 'c';
    } else {
      i := 19;
      assert DomainText(OmniBridge, Proof)[19] == 'p' && DomainText(OmniBridge, Confirmation)[19] == 'c';
    }
  }

  lemma FieldsSplit(r: Fingerprint, i: Fingerprint, n: Bytes, r': Fingerprint, i': Fingerprint, n': Bytes)
    requires Field(r) + Field(i) + Field(n) == Field(r') + Field(i') + Field(n')
    ensures r == r' && i == i' && n == n'
  {
    var m, m' := Field(r) + Field(i) + Field(n), Field(r') + Field(i') + Field(n');
    assert m[4..36] == r && m'[4..36] == r';
    assert m[40..72] == i && m'[40..72] == i';
    assert m[76..] == n && m'[76..] == n';
  }

  /**
   The message determines everything that went into it, for every nonce. The domain has no length
   prefix and the nonce's may be truncated; it is the prefix-free domains and the fixed width of the
   fingerprints that make the whole unambiguous.
   */
  lemma MacMessageIsUnambiguous(p: Profile, u: Purpose, r: Fingerprint, i: Fingerprint, n: Bytes,
                                p': Profile, u': Purpose, r': Fingerprint, i': Fingerprint, n': Bytes)
    requires MacMessage(p, u, r, i, n) == MacMessage(p', u', r', i', n')
    ensures p == p' && u == u' && r == r' && i == i' && n == n'
  {
    var fields, fields' := Field(r) + Field(i) + Field(n), Field(r') + Field(i') + Field(n');
    var d, d' := Domain(p, u), Domain(p', u');
    Regrouped(d, Field(r), Field(i), Field(n));
    Regrouped(d', Field(r'), Field(i'), Field(n'));
    if (p, u) == (p', u') {
      SamePrefix(d, fields, fields');
      FieldsSplit(r, i, n, r', i', n');
    } else {
      var k := DomainsArePrefixFree(p, u, p', u');
      PartedStayApart(d, fields, d', fields', k);
    }
  }

  lemma Regrouped(d: Bytes, x: Bytes, y: Bytes, z: Bytes)
    ensures d + x + y + z == d + (x + y + z)
  {
  }

  lemma SamePrefix(d: Bytes, x: Bytes, y: Bytes)
    requires d + x == d + y
    ensures x == y
  {
    assert (d + x)[|d|..] == x && (d + y)[|d|..] == y;
  }

  lemma PartedStayApart(a: Bytes, x: Bytes, b: Bytes, y: Bytes, i: nat)
    requires PartAt(a, b, i)
    ensures a + x != b + y
  {
    assert (a + x)[i] == a[i] && (b + y)[i] == b[i];
  }

  // ---- the window -----------------------------------------------------------------------------

  datatype PairingError = NotInPairingMode | BadProof | Expired | AlreadyUsed | RateLimited | DeclinedByUser

  /** The fields of a pairing session, as a value. Times are readings of one monotonic clock. */
  datatype Window = Window(token: Bytes, openedAt: nat, ttl: nat, failedAttempts: nat, consumed: bool) {
    predicate IsExpired(now: nat) {
      now >= openedAt + ttl
    }

    predicate IsExhausted(now: nat) {
      consumed || IsExpired(now) || failedAttempts >= MAX_FAILED_ATTEMPTS
    }
  }

  /** A proof as it arrives on a connection. */
  datatype Attempt = Attempt(profile: Profile, responder: Fingerprint, initiator: Fingerprint, nonce: Bytes, proof: Bytes)

  predicate ProofMatches(hmac: Hmac, token: Bytes, a: Attempt) {
    a.proof == ComputeProof(hmac, a.profile, token, a.responder, a.initiator, a.nonce)
  }

  function Verify(hmac: Hmac, w: Window, now: nat, a: Attempt): (Result<Bytes, PairingError>, Window) {
    if w.consumed then (Err(AlreadyUsed), w)
    else if w.IsExpired(now) then (Err(Expired), w)
    else if w.failedAttempts >= MAX_FAILED_ATTEMPTS then (Err(RateLimited), w)
    else if !ProofMatches(hmac, w.token, a) then (Err(BadProof), w.(failedAttempts := w.failedAttempts + 1))
    else (Ok(ComputeConfirmation(hmac, a.profile, w.token, a.responder, a.initiator, a.nonce)), w.(consumed := true))
  }

  class PairingSession {
    const token: Bytes
    const openedAt: nat
    const ttl: nat
    var failedAttempts: nat
    var consumed: bool

    function View(): Window
      reads this
    {
      Window(token, openedAt, ttl, failedAttempts, consumed)
    }

    constructor (token: Bytes, now: nat, ttl: nat)
      ensures View() == Window(token, now, ttl, 0, false)
    {
      this.token, openedAt, this.ttl, failedAttempts, consumed := token, now, ttl, 0, false;
    }

    /**
     A proof is confirmed exactly when the window is unused, its time is not over, fewer than three proofs
     failed before, and this one is right; a wrong one counts, a right one uses the window up, and no other
     call changes anything.
     */
    method VerifyAndConsume(hmac: Hmac, now: nat, a: Attempt) returns (r: Result<Bytes, PairingError>)
      modifies this
      ensures (r, View()) == Verify(hmac, old(View()), now, a)
      ensures r.Ok? <==> !old(consumed) && now < openedAt + ttl && old(failedAttempts) < 3
                         && a.proof == ComputeProof(hmac, a.profile, token, a.responder, a.initiator, a.nonce)
      ensures r.Ok? ==> r.value == ComputeConfirmation(hmac, a.profile, token, a.responder, a.initiator, a.nonce)
      ensures old(consumed) || now >= openedAt + ttl || old(failedAttempts) >= 3 ==> View() == old(View())
      ensures consumed <==> old(consumed) || r.Ok?
      ensures failedAttempts == old(failedAttempts) + if r == Err(BadProof) then 1 else 0
    {
      if consumed {
        return Err(AlreadyUsed);
      }
      if now >= openedAt + ttl {
        return Err(Expired);
      }
      if failedAttempts >= MAX_FAILED_ATTEMPTS {
        return Err(RateLimited);
      }
      var expected := ComputeProof(hmac, a.profile, token, a.responder, a.initiator, a.nonce);
      if a.proof != expected {
        failedAttempts := failedAttempts + 1;
        return Err(BadProof);
      }
      consumed := true;
      r := Ok(ComputeConfirmation(hmac, a.profile, token, a.responder, a.initiator, a.nonce));
    }
  }

  /** The daemon's one window, checked and then dropped as soon as it is of no more use. */
  function VerifyHeld(hmac: Hmac, held: Option<Window>, now: nat, later: nat, a: Attempt): (Result<Bytes, PairingError>, Option<Window>) {
    if held.None? then (Err(NotInPairingMode), None)
    else
      var (r, w) := Verify(hmac, held.value, now, a);
      (r, if w.IsExhausted(later) then None else Some(w))
  }

  class PairingDesk {
    var pairing: PairingSession?

    function View(): Option<Window>
      reads this, pairing
    {
      if pairing == null then None else Some(pairing.View())
    }

    constructor ()
      ensures View() == None
    {
      pairing := null;
    }

    /** A new window replaces whatever was open. */
    method BeginPairing(token: Bytes, now: nat, ttl: nat)
      modifies this
      ensures View() == Some(Window(token, now, ttl, 0, false))
      ensures fresh(pairing)
    {
      pairing := new PairingSession(token, now, ttl);
    }

    method EndPairing()
      modifies this
      ensures View() == None
    {
      pairing := null;
    }

    /** `now` and `later` are the two readings of the clock the call makes. */
    method VerifyPairingProof(hmac: Hmac, now: nat, later: nat, a: Attempt) returns (r: Result<Bytes, PairingError>)
      modifies this, pairing
      ensures (r, View()) == VerifyHeld(hmac, old(View()), now, later, a)
    {
      if pairing == null {
        return Err(NotInPairingMode);
      }
      r := pairing.VerifyAndConsume(hmac, now, a);
      if pairing.View().IsExhausted(later) {
        pairing := null;
      }
    }
  }
}
