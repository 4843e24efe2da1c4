/**
 Trusted peers, what each command does to them, and the history they must agree with.

 A run is a sequence of commands with the fate of each write, and restarts. The lemmas say what the
 stored records answer after any run, in terms of the commands alone.
 */
module TrustRules {
  import opened Prelude
  import opened Pairing
  import opened Capability

  // ---- records --------------------------------------------------------------------------------

  datatype ClipboardPolicy = ClipboardPolicy(allowSend: bool, allowReceive: bool, autoSend: bool, autoReceive: bool)

  const CLIPBOARD_DEFAULT := ClipboardPolicy(true, true, false, false)
  const CLIPBOARD_DENIED := ClipboardPolicy(false, false, false, false)

  datatype LockPolicy = Full | AppOnly | Suppress

  datatype NotificationPolicy = NotificationPolicy(allowMirror: bool, whenLocked: LockPolicy, allowDismissSync: bool)

  const NOTIFICATION_DEFAULT := NotificationPolicy(true, AppOnly, false)
  const NOTIFICATION_DENIED := NotificationPolicy(false, Suppress, false)

  const CLIPBOARD: Text := "clipboard.v1"
  const NOTIFICATIONS: Text := "notifications.v1"

  datatype Peer = Peer(
    fingerprint: Fingerprint,
    deviceId: Text,
    deviceName: Text,
    granted: map<Text, bool>,
    lastProtocolVersion: nat,
    revoked: bool,
    hidden: bool,
    clipboardPolicy: ClipboardPolicy,
    notificationPolicy: NotificationPolicy) {

    predicate Allows(capability: Text) {
      !revoked && capability in granted && granted[capability]
    }
  }

  type Peers = map<Fingerprint, Peer>

  function Tombstone(fp: Fingerprint): Peer {
    Peer(fp, "", "", map[], 0, true, true, CLIPBOARD_DENIED, NOTIFICATION_DENIED)
  }

  /** A record that claims to be hidden and still trusted is read the safe way round. */
  function Normalized(p: Peer): Peer {
    if p.hidden then p.(revoked := true) else p
  }

  /** What the peer map always satisfies: records under their own key, and hidden only if revoked. */
  ghost predicate WellFormed(peers: Peers) {
    forall fp :: fp in peers ==> peers[fp].fingerprint == fp && (peers[fp].hidden ==> peers[fp].revoked)
  }

  // ---- questions asked of the records ---------------------------------------------------------

  datatype PeerStatus = StatusTrusted(deviceId: Text, deviceName: Text, granted: set<Text>) | StatusUnknown | StatusRevoked

  function LookupPeer(peers: Peers, fp: Fingerprint): PeerStatus {
    if fp !in peers then StatusUnknown
    else if peers[fp].revoked then StatusRevoked
    else StatusTrusted(peers[fp].deviceId, peers[fp].deviceName, set c | c in peers[fp].granted && peers[fp].granted[c])
  }

  /** The grant check behind every authorizer. */
  predicate Authorized(peers: Peers, fp: Fingerprint, capability: Text) {
    fp in peers && !peers[fp].revoked && peers[fp].Allows(capability)
  }

  function ClipboardPolicyFor(peers: Peers, fp: Fingerprint): ClipboardPolicy {
    if Authorized(peers, fp, CLIPBOARD) then peers[fp].clipboardPolicy else CLIPBOARD_DENIED
  }

  function NotificationPolicyFor(peers: Peers, fp: Fingerprint): NotificationPolicy {
    if Authorized(peers, fp, NOTIFICATIONS) then peers[fp].notificationPolicy else NOTIFICATION_DENIED
  }

  // ---- commands -------------------------------------------------------------------------------

  datatype Settings = Settings(registry: Registry, autoGrant: seq<Text>)

  datatype Command =
    | Pair(fp: Fingerprint, deviceId: Text, deviceName: Text, mutual: seq<Text>, version: nat)
    | Grant(fp: Fingerprint, capability: Text, granted: bool)
    | Revoke(fp: Fingerprint)
    | Hide(fp: Fingerprint)
    | HideAll
    | SetClipboard(fp: Fingerprint, clipboard: ClipboardPolicy)
    | SetNotifications(fp: Fingerprint, notifications: NotificationPolicy)

  function NewPeer(settings: Settings, c: Command): Peer
    requires c.Pair?
  {
    Peer(c.fp, c.deviceId, c.deviceName, map m | m in c.mutual :: m in settings.autoGrant, c.version,
         false, false, CLIPBOARD_DEFAULT, NOTIFICATION_DEFAULT)
  }

  function Revoked(p: Peer): Peer {
    p.(revoked := true, granted := map[], clipboardPolicy := CLIPBOARD_DENIED, notificationPolicy := NOTIFICATION_DENIED)
  }

  /** Whether a command gets as far as writing the store. */
  predicate TakesEffect(settings: Settings, peers: Peers, c: Command) {
    match c
    case Grant(fp, capability, _) => capability in settings.registry && fp in peers && !peers[fp].revoked
    case Revoke(fp) => fp in peers
    case Hide(fp) => fp in peers && peers[fp].revoked && !peers[fp].hidden
    case HideAll => exists fp :: fp in peers && peers[fp].revoked && !peers[fp].hidden
    case _ => true
  }

  /** The peers after a command that took effect. */
  function Apply(settings: Settings, peers: Peers, c: Command): Peers {
    match c
    case Pair(fp, _, _, _, _) => peers[fp := NewPeer(settings, c)]
    case Grant(fp, capability, granted) =>
      if fp in peers then peers[fp := peers[fp].(granted := peers[fp].granted[capability := granted])] else peers
    case Revoke(fp) => if fp in peers then peers[fp := Revoked(peers[fp])] else peers
    case Hide(fp) => peers[fp := Tombstone(fp)]
    case HideAll => map fp | fp in peers :: if peers[fp].revoked && !peers[fp].hidden then Tombstone(fp) else peers[fp]
    case SetClipboard(fp, p) => if fp in peers then peers[fp := peers[fp].(clipboardPolicy := p)] else peers
    case SetNotifications(fp, p) => if fp in peers then peers[fp := peers[fp].(notificationPolicy := p)] else peers
  }

  /** The peers after commands whose writes all succeed. */
  function After(settings: Settings, h: seq<Command>): Peers {
    if h == [] then map[]
    else
      var peers := After(settings, h[..|h| - 1]);
      if TakesEffect(settings, peers, h[|h| - 1]) then Apply(settings, peers, h[|h| - 1]) else peers
  }

  // ---- the history ----------------------------------------------------------------------------

  predicate Pairs(c: Command, fp: Fingerprint) {
    c.Pair? && c.fp == fp
  }

  predicate Grants(c: Command, fp: Fingerprint, capability: Text) {
    c.Grant? && c.fp == fp && c.capability == capability
  }

  /** `i` is the last pairing of a key, and no revocation follows it. */
  ghost predicate StandingPairing(h: seq<Command>, fp: Fingerprint, i: nat) {
    && i < |h| && Pairs(h[i], fp)
    && forall k :: i < k < |h| ==> !Pairs(h[k], fp) && h[k] != Revoke(fp)
  }

  /** `j` is the last grant or withdrawal of a capability after position `i`. */
  ghost predicate LastGrant(h: seq<Command>, fp: Fingerprint, capability: Text, i: nat, j: nat) {
    && i < j < |h| && Grants(h[j], fp, capability)
    && forall k :: j < k < |h| ==> !Grants(h[k], fp, capability)
  }

  ghost predicate HistoryTrusts(h: seq<Command>, fp: Fingerprint) {
    exists i: nat :: StandingPairing(h, fp, i)
  }

  /** The last decision about a capability since position `i`, or the auto-grant of the pairing there. */
  ghost predicate Decided(settings: Settings, h: seq<Command>, fp: Fingerprint, capability: Text, i: nat)
    requires i < |h| && h[i].Pair?
  {
    if capability in settings.registry && exists j: nat :: LastGrant(h, fp, capability, i, j)
    then exists j: nat :: LastGrant(h, fp, capability, i, j) && h[j].granted
    else capability in h[i].mutual && capability in settings.autoGrant
  }

  /** What a key may use, read off the history alone. */
  ghost predicate HistoryAllows(settings: Settings, h: seq<Command>, fp: Fingerprint, capability: Text) {
    exists i: nat :: StandingPairing(h, fp, i) && Decided(settings, h, fp, capability, i)
  }

  // ---- the two agree --------------------------------------------------------------------------

  lemma ApplyKeepsWellFormed(settings: Settings, peers: Peers, c: Command)
    requires WellFormed(peers)
    ensures WellFormed(Apply(settings, peers, c))
  {
  }

  lemma TrustsStep(h: seq<Command>, c: Command, fp: Fingerprint)
    ensures Pairs(c, fp) ==> HistoryTrusts(h + [c], fp)
    ensures c == Revoke(fp) ==> !HistoryTrusts(h + [c], fp)
    ensures !Pairs(c, fp) && c != Revoke(fp) ==> (HistoryTrusts(h + [c], fp) <==> HistoryTrusts(h, fp))
  {
    var h' := h + [c];
    if Pairs(c, fp) {
      assert StandingPairing(h', fp, |h|);
    } else if c != Revoke(fp) {
      forall i: nat | i < |h|
        ensures StandingPairing(h, fp, i) <==> StandingPairing(h', fp, i)
      {
        StandingStep(h, c, fp, i);
      }
    } else {
      assert h'[|h|] == Revoke(fp);
    }
  }

  lemma StandingStep(h: seq<Command>, c: Command, fp: Fingerprint, i: nat)
    requires i < |h| && !Pairs(c, fp) && c != Revoke(fp)
    ensures StandingPairing(h, fp, i) <==> StandingPairing(h + [c], fp, i)
  {
    var h' := h + [c];
    assert forall k :: 0 <= k < |h| ==> h'[k] == h[k];
    if StandingPairing(h', fp, i) {
      forall k | i < k < |h|
        ensures !Pairs(h[k], fp) && h[k] != Revoke(fp)
      {
        assert h'[k] == h[k];
      }
    }
  }

  lemma GrantStep(h: seq<Command>, c: Command, fp: Fingerprint, capability: Text, i: nat, j: nat)
    requires j < |h| && !Grants(c, fp, capability)
    ensures LastGrant(h, fp, capability, i, j) <==> LastGrant(h + [c], fp, capability, i, j)
  {
    var h' := h + [c];
    if LastGrant(h', fp, capability, i, j) {
      forall k | j < k < |h|
        ensures !Grants(h[k], fp, capability)
      {
        assert h'[k] == h[k];
      }
    }
  }

  /** A command that does not decide about the capability leaves what was decided. */
  lemma DecidedStep(settings: Settings, h: seq<Command>, c: Command, fp: Fingerprint, capability: Text, i: nat)
    requires i < |h| && h[i].Pair? && (Grants(c, fp, capability) ==> capability !in settings.registry)
    ensures Decided(settings, h, fp, capability, i) <==> Decided(settings, h + [c], fp, capability, i)
  {
    var h' := h + [c];
    if capability in settings.registry {
      forall j: nat | j < |h|
        ensures LastGrant(h, fp, capability, i, j) <==> LastGrant(h', fp, capability, i, j)
        ensures h'[j] == h[j]
      {
        GrantStep(h, c, fp, capability, i, j);
      }
    }
  }

  /** A grant or withdrawal decides, whatever went before. */
  lemma GrantDecides(settings: Settings, h: seq<Command>, c: Command, fp: Fingerprint, capability: Text, i: nat)
    requires i < |h| && h[i].Pair? && Grants(c, fp, capability) && capability in settings.registry
    ensures Decided(settings, h + [c], fp, capability, i) <==> c.granted
  {
    var h' := h + [c];
    assert LastGrant(h', fp, capability, i, |h|);
    assert Grants(h'[|h|], fp, capability);
    assert forall j: nat :: LastGrant(h', fp, capability, i, j) ==> j == |h|;
  }

  lemma NewPairingDecides(settings: Settings, h: seq<Command>, c: Command, fp: Fingerprint, capability: Text)
    requires Pairs(c, fp)
    ensures HistoryAllows(settings, h + [c], fp, capability) <==> capability in c.mutual && capability in settings.autoGrant
  {
    var h' := h + [c];
    assert StandingPairing(h', fp, |h|);
    assert Decided(settings, h', fp, capability, |h|) <==> capability in c.mutual && capability in settings.autoGrant;
    assert Pairs(h'[|h|], fp);
    assert forall i: nat :: StandingPairing(h', fp, i) ==> i == |h|;
  }

  /** What one more command does to what the history allows. */
  lemma AllowsStep(settings: Settings, h: seq<Command>, c: Command, fp: Fingerprint, capability: Text)
    ensures var allows, before := HistoryAllows(settings, h + [c], fp, capability), HistoryAllows(settings, h, fp, capability);
            if Pairs(c, fp) then allows <==> capability in c.mutual && capability in settings.autoGrant
            else if c == Revoke(fp) then !allows
            else if Grants(c, fp, capability) && capability in settings.registry then allows <==> HistoryTrusts(h, fp) && c.granted
            else allows <==> before
  {
    var h' := h + [c];
    if Pairs(c, fp) {
      NewPairingDecides(settings, h, c, fp, capability);
    } else if c == Revoke(fp) {
      TrustsStep(h, c, fp);
    } else {
      forall i: nat | i < |h|
        ensures StandingPairing(h, fp, i) <==> StandingPairing(h', fp, i)
        ensures h'[i] == h[i]
      {
        StandingStep(h, c, fp, i);
      }
      if Grants(c, fp, capability) && capability in settings.registry {
        forall i: nat | StandingPairing(h, fp, i)
          ensures StandingPairing(h', fp, i) && (Decided(settings, h', fp, capability, i) <==> c.granted)
        {
          GrantDecides(settings, h, c, fp, capability, i);
        }
      } else {
        forall i: nat | StandingPairing(h, fp, i)
          ensures StandingPairing(h', fp, i)
          ensures Decided(settings, h, fp, capability, i) <==> Decided(settings, h', fp, capability, i)
        {
          DecidedStep(settings, h, c, fp, capability, i);
        }
      }
    }
  }

  ghost predicate EverPaired(h: seq<Command>, fp: Fingerprint) {
    exists i :: 0 <= i < |h| && Pairs(h[i], fp)
  }

  /**
   The status of a key, read off the history: unknown if it was never paired, trusted if a pairing
   stands, and otherwise revoked, which it stays until it is paired again.
   */
  lemma {:induction false} StatusEqualsHistory(settings: Settings, h: seq<Command>, fp: Fingerprint)
    ensures LookupPeer(After(settings, h), fp).StatusTrusted? <==> HistoryTrusts(h, fp)
    ensures LookupPeer(After(settings, h), fp).StatusUnknown? <==> !EverPaired(h, fp)
  {
    if h != [] {
      var front, c := h[..|h| - 1], h[|h| - 1];
      assert h == front + [c];
      StatusEqualsHistory(settings, front, fp);
      TrustsStep(front, c, fp);
      EverPairedStep(front, c, fp);
    }
  }

  lemma EverPairedStep(h: seq<Command>, c: Command, fp: Fingerprint)
    ensures EverPaired(h + [c], fp) <==> EverPaired(h, fp) || Pairs(c, fp)
  {
    var h' := h + [c];
    assert h'[|h|] == c;
    if EverPaired(h, fp) {
      var i :| 0 <= i < |h| && Pairs(h[i], fp);
      assert h'[i] == h[i];
    }
  }

  /** For every run of commands, key and capability: the records allow exactly what the history allows. */
  lemma {:induction false} AuthorizationEqualsHistory(settings: Settings, h: seq<Command>, fp: Fingerprint, capability: Text)
    ensures Authorized(After(settings, h), fp, capability) <==> HistoryAllows(settings, h, fp, capability)
  {
    if h != [] {
      var front, c := h[..|h| - 1], h[|h| - 1];
      assert h == front + [c];
      AuthorizationEqualsHistory(settings, front, fp, capability);
      AllowsStep(settings, front, c, fp, capability);
      StatusEqualsHistory(settings, front, fp);
    }
  }

  /** The notification policy last chosen for a key since it was paired, or the default. */
  function LastNotificationPolicy(h: seq<Command>, fp: Fingerprint): NotificationPolicy {
    if h == [] then NOTIFICATION_DEFAULT
    else
      var c := h[|h| - 1];
      if Pairs(c, fp) then NOTIFICATION_DEFAULT
      else if c.SetNotifications? && c.fp == fp then c.notifications
      else LastNotificationPolicy(h[..|h| - 1], fp)
  }

  function LastClipboardPolicy(h: seq<Command>, fp: Fingerprint): ClipboardPolicy {
    if h == [] then CLIPBOARD_DEFAULT
    else
      var c := h[|h| - 1];
      if Pairs(c, fp) then CLIPBOARD_DEFAULT
      else if c.SetClipboard? && c.fp == fp then c.clipboard
      else LastClipboardPolicy(h[..|h| - 1], fp)
  }

  lemma {:induction false} StoredPolicies(settings: Settings, h: seq<Command>, fp: Fingerprint)
    requires HistoryTrusts(h, fp)
    ensures fp in After(settings, h)
    ensures After(settings, h)[fp].notificationPolicy == LastNotificationPolicy(h, fp)
    ensures After(settings, h)[fp].clipboardPolicy == LastClipboardPolicy(h, fp)
  {
    StatusEqualsHistory(settings, h, fp);
    if h != [] {
      var front, c := h[..|h| - 1], h[|h| - 1];
      assert h == front + [c];
      TrustsStep(front, c, fp);
      if !Pairs(c, fp) {
        StatusEqualsHistory(settings, front, fp);
        StoredPolicies(settings, front, fp);
      }
    }
  }

  /** A policy answer is the person's last choice for a key the history allows, and denial for any other. */
  lemma PoliciesEqualHistory(settings: Settings, h: seq<Command>, fp: Fingerprint)
    ensures NotificationPolicyFor(After(settings, h), fp)
            == if HistoryAllows(settings, h, fp, NOTIFICATIONS) then LastNotificationPolicy(h, fp) else NOTIFICATION_DENIED
    ensures ClipboardPolicyFor(After(settings, h), fp)
            == if HistoryAllows(settings, h, fp, CLIPBOARD) then LastClipboardPolicy(h, fp) else CLIPBOARD_DENIED
  {
    AuthorizationEqualsHistory(settings, h, fp, NOTIFICATIONS);
    AuthorizationEqualsHistory(settings, h, fp, CLIPBOARD);
    StatusEqualsHistory(settings, h, fp);
    if HistoryTrusts(h, fp) {
      StoredPolicies(settings, h, fp);
    }
  }

  // ---- the record as a whole ------------------------------------------------------------------

  /** A trusted record is that of the standing pairing, with what the history allows. */
  lemma {:induction false} RecordEqualsHistory(settings: Settings, h: seq<Command>, fp: Fingerprint, i: nat)
    requires StandingPairing(h, fp, i)
    ensures fp in After(settings, h)
    ensures var p := After(settings, h)[fp];
            && p.fingerprint == fp && p.deviceId == h[i].deviceId && p.deviceName == h[i].deviceName && p.lastProtocolVersion == h[i].version
            && !p.revoked && !p.hidden
  {
    var front, c := h[..|h| - 1], h[|h| - 1];
    assert h == front + [c];
    if i < |h| - 1 {
      StandingStep(front, c, fp, i);
      RecordEqualsHistory(settings, front, fp, i);
    }
  }

  /** What the trust store says of a trusted key: the names of its pairing, and exactly what the history allows. */
  lemma TrustedAnswer(settings: Settings, h: seq<Command>, fp: Fingerprint, i: nat)
    requires StandingPairing(h, fp, i)
    ensures LookupPeer(After(settings, h), fp).StatusTrusted?
    ensures var status := LookupPeer(After(settings, h), fp);
            && status.deviceId == h[i].deviceId && status.deviceName == h[i].deviceName
            && forall c :: c in status.granted <==> HistoryAllows(settings, h, fp, c)
  {
    RecordEqualsHistory(settings, h, fp, i);
    forall c
      ensures c in LookupPeer(After(settings, h), fp).granted <==> HistoryAllows(settings, h, fp, c)
    {
      AuthorizationEqualsHistory(settings, h, fp, c);
    }
  }

  /** The key was paired once, revoked at `j`, and not paired since. */
  ghost predicate RevokedAt(h: seq<Command>, fp: Fingerprint, j: nat) {
    j < |h| && h[j] == Revoke(fp) && EverPaired(h[..j], fp) && forall k :: j < k < |h| ==> !Pairs(h[k], fp)
  }

  predicate Hides(c: Command, fp: Fingerprint) {
    c == Hide(fp) || c == HideAll
  }

  /** And hidden, alone or with others, after that. */
  ghost predicate HistoryHides(h: seq<Command>, fp: Fingerprint) {
    exists j: nat, k: nat :: j < k < |h| && RevokedAt(h, fp, j) && Hides(h[k], fp)
  }

  lemma RevokedStep(h: seq<Command>, c: Command, fp: Fingerprint, j: nat)
    requires j < |h|
    ensures RevokedAt(h + [c], fp, j) <==> RevokedAt(h, fp, j) && !Pairs(c, fp)
  {
    var h' := h + [c];
    assert h'[..j] == h[..j] && h'[|h|] == c;
    assert forall k :: 0 <= k < |h| ==> h'[k] == h[k];
  }

  /** A key that is on record and not trusted was revoked, and not paired since. */
  lemma {:induction false} WasRevoked(settings: Settings, h: seq<Command>, fp: Fingerprint) returns (j: nat)
    requires LookupPeer(After(settings, h), fp).StatusRevoked?
    ensures RevokedAt(h, fp, j)
  {
    var front, c := h[..|h| - 1], h[|h| - 1];
    assert h == front + [c];
    if LookupPeer(After(settings, front), fp).StatusRevoked? {
      j := WasRevoked(settings, front, fp);
      RevokedStep(front, c, fp, j);
    } else {
      j := |front|;
      StatusEqualsHistory(settings, front, fp);
      assert h[..j] == front;
    }
  }

  lemma RevokedIsRevoked(settings: Settings, h: seq<Command>, fp: Fingerprint, j: nat)
    requires RevokedAt(h, fp, j)
    ensures LookupPeer(After(settings, h), fp).StatusRevoked?
  {
    StatusEqualsHistory(settings, h, fp);
    var i :| 0 <= i < |h[..j]| && Pairs(h[..j][i], fp);
    assert Pairs(h[i], fp);
    assert forall i: nat :: StandingPairing(h, fp, i) ==> i < j;
  }

  lemma HidesStep(h: seq<Command>, c: Command, fp: Fingerprint)
    ensures HistoryHides(h + [c], fp)
            <==> !Pairs(c, fp) && (HistoryHides(h, fp) || (Hides(c, fp) && exists j: nat :: RevokedAt(h, fp, j)))
  {
    var h' := h + [c];
    assert h'[|h|] == c && forall k :: 0 <= k < |h| ==> h'[k] == h[k];
    forall j: nat | j < |h|
      ensures RevokedAt(h', fp, j) <==> RevokedAt(h, fp, j) && !Pairs(c, fp)
    {
      RevokedStep(h, c, fp, j);
    }
    if HistoryHides(h', fp) {
      var j: nat, k: nat :| j < k < |h'| && RevokedAt(h', fp, j) && Hides(h'[k], fp);
      assert k < |h| ==> Hides(h[k], fp);
    }
    if HistoryHides(h, fp) && !Pairs(c, fp) {
      var j: nat, k: nat :| j < k < |h| && RevokedAt(h, fp, j) && Hides(h[k], fp);
      assert Hides(h'[k], fp);
    }
    if j: nat :| RevokedAt(h, fp, j) && Hides(c, fp) && !Pairs(c, fp) {
      assert RevokedAt(h', fp, j) && Hides(h'[|h|], fp);
    }
  }

  /** What one command does to whether a record is hidden. */
  lemma HiddenStep(settings: Settings, peers: Peers, c: Command, fp: Fingerprint)
    requires WellFormed(peers)
    ensures var peers' := if TakesEffect(settings, peers, c) then Apply(settings, peers, c) else peers;
            fp in peers' && peers'[fp].hidden
            <==> !Pairs(c, fp) && fp in peers && (peers[fp].hidden || (Hides(c, fp) && peers[fp].revoked))
  {
  }

  /**
   A record is hidden exactly when its key was revoked and then hidden, alone or with the others, and not
   paired since.
   */
  lemma {:induction false} HiddenEqualsHistory(settings: Settings, h: seq<Command>, fp: Fingerprint)
    ensures fp in After(settings, h) && After(settings, h)[fp].hidden <==> HistoryHides(h, fp)
    ensures WellFormed(After(settings, h))
  {
    if h != [] {
      var front, c := h[..|h| - 1], h[|h| - 1];
      assert h == front + [c];
      HiddenEqualsHistory(settings, front, fp);
      HidesStep(front, c, fp);
      HiddenStep(settings, After(settings, front), c, fp);
      if LookupPeer(After(settings, front), fp).StatusRevoked? {
        var j := WasRevoked(settings, front, fp);
      }
      forall j: nat | RevokedAt(front, fp, j)
        ensures LookupPeer(After(settings, front), fp).StatusRevoked?
      {
        RevokedIsRevoked(settings, front, fp, j);
      }
      ApplyKeepsWellFormed(settings, After(settings, front), c);
    }
  }

  /** What is left of a hidden record: its key, and nothing that names or grants. */
  ghost predicate Forgets(p: Peer) {
    p.deviceId == "" && p.deviceName == "" && p.granted.Keys <= {} && p.revoked
  }

  lemma ForgetsStep(settings: Settings, peers: Peers, c: Command, fp: Fingerprint)
    requires WellFormed(peers) && (fp in peers && peers[fp].hidden ==> Forgets(peers[fp])) && TakesEffect(settings, peers, c)
    ensures var peers' := Apply(settings, peers, c); fp in peers' && peers'[fp].hidden ==> Forgets(peers'[fp])
  {
  }

  /** A hidden record keeps no name, no id and no grant. */
  lemma {:induction false} HiddenForgets(settings: Settings, h: seq<Command>, fp: Fingerprint)
    ensures fp in After(settings, h) && After(settings, h)[fp].hidden ==> Forgets(After(settings, h)[fp])
  {
    if h != [] {
      var front, c := h[..|h| - 1], h[|h| - 1];
      HiddenForgets(settings, front, fp);
      HiddenEqualsHistory(settings, front, fp);
      if TakesEffect(settings, After(settings, front), c) {
        ForgetsStep(settings, After(settings, front), c, fp);
      }
    }
  }

  // ---- writes that fail, and restarts ---------------------------------------------------------

  /** A command with the fate of its write, or a new process reading the file. */
  datatype Event = Do(command: Command, written: bool) | Restart

  /** The peers in memory, and what loading the file would give. */
  datatype Stored = Stored(memory: Peers, disk: Peers)

  /** Hiding is undone when its write fails; every other command stays in memory. */
  predicate RollsBack(c: Command) {
    c.Hide? || c.HideAll?
  }

  function Step(settings: Settings, s: Stored, e: Event): Stored {
    match e
    case Restart => Stored(s.disk, s.disk)
    case Do(c, written) =>
      if !TakesEffect(settings, s.memory, c) then s
      else if written then Stored(Apply(settings, s.memory, c), Apply(settings, s.memory, c))
      else if RollsBack(c) then s
      else Stored(Apply(settings, s.memory, c), s.disk)
  }

  function Run(settings: Settings, es: seq<Event>): Stored {
    if es == [] then Stored(map[], map[]) else Step(settings, Run(settings, es[..|es| - 1]), es[|es| - 1])
  }

  // ---- which commands are in force ------------------------------------------------------------

  /** Event `i` changed the peers in memory, and its failure, if it failed, did not undo that. */
  ghost predicate TookHold(settings: Settings, es: seq<Event>, i: nat) {
    && i < |es| && es[i].Do? && TakesEffect(settings, Run(settings, es[..i]).memory, es[i].command)
    && (es[i].written || !RollsBack(es[i].command))
  }

  /** Event `j` wrote the whole map to the file. */
  ghost predicate WritesFile(settings: Settings, es: seq<Event>, j: nat) {
    j < |es| && es[j].Do? && es[j].written && TakesEffect(settings, Run(settings, es[..j]).memory, es[j].command)
  }

  ghost predicate NoRestart(es: seq<Event>, lo: nat, hi: nat) {
    forall k :: lo <= k < hi && k < |es| ==> !es[k].Restart?
  }

  /** A write, its own or a later one, took command `i` to the file before any restart. */
  ghost predicate Saved(settings: Settings, es: seq<Event>, i: nat) {
    exists j: nat :: i <= j && WritesFile(settings, es, j) && NoRestart(es, i, j)
  }

  /** Whether command `i` still counts: in the file if it was saved, in memory also until a restart. */
  ghost predicate InForce(settings: Settings, es: seq<Event>, i: nat, inMemory: bool) {
    TookHold(settings, es, i) && (Saved(settings, es, i) || (inMemory && NoRestart(es, i, |es|)))
  }

  /** Those of the first `n` events that are commands in force, in order. */
  ghost function Survivors(settings: Settings, es: seq<Event>, n: nat, inMemory: bool): seq<Command>
    requires n <= |es|
  {
    if n == 0 then []
    else
      var rest := Survivors(settings, es, n - 1, inMemory);
      if InForce(settings, es, n - 1, inMemory) then rest + [es[n - 1].command] else rest
  }

  /** The two runs have the same event at `i`, in force in both or in neither. */
  ghost predicate SameAt(settings: Settings, es: seq<Event>, m: bool, es': seq<Event>, m': bool, i: nat) {
    i < |es| && i < |es'| && es[i] == es'[i] && (InForce(settings, es, i, m) <==> InForce(settings, es', i, m'))
  }

  lemma SameSurvivor(settings: Settings, es: seq<Event>, m: bool, es': seq<Event>, m': bool, n: nat)
    requires n < |es| && n < |es'| && SameAt(settings, es, m, es', m', n)
    requires Survivors(settings, es, n, m) == Survivors(settings, es', n, m')
    ensures Survivors(settings, es, n + 1, m) == Survivors(settings, es', n + 1, m')
  {
  }

  lemma {:induction false} SameSurvivors(settings: Settings, es: seq<Event>, m: bool, es': seq<Event>, m': bool, n: nat)
    requires n <= |es| && n <= |es'|
    requires forall i: nat :: i < n ==> SameAt(settings, es, m, es', m', i)
    ensures Survivors(settings, es, n, m) == Survivors(settings, es', n, m')
  {
    if n > 0 {
      SameSurvivors(settings, es, m, es', m', n - 1);
      SameSurvivor(settings, es, m, es', m', n - 1);
    }
  }

  /** One more event leaves what earlier events did, and adds itself as a write at most. */
  lemma EarlierStays(settings: Settings, es: seq<Event>, e: Event, i: nat)
    requires i < |es|
    ensures TookHold(settings, es + [e], i) <==> TookHold(settings, es, i)
    ensures WritesFile(settings, es + [e], i) <==> WritesFile(settings, es, i)
  {
    assert (es + [e])[..i] == es[..i];
  }

  lemma SavedStep(settings: Settings, es: seq<Event>, e: Event, i: nat)
    requires i < |es|
    ensures Saved(settings, es + [e], i)
            <==> Saved(settings, es, i) || (WritesFile(settings, es + [e], |es|) && NoRestart(es, i, |es|))
  {
    var es' := es + [e];
    if Saved(settings, es', i) {
      var j: nat :| i <= j && WritesFile(settings, es', j) && NoRestart(es', i, j);
      NoRestartStep(es, e, i, j);
      if j < |es| {
        EarlierStays(settings, es, e, j);
      }
    }
    if Saved(settings, es, i) {
      var j: nat :| i <= j && WritesFile(settings, es, j) && NoRestart(es, i, j);
      EarlierStays(settings, es, e, j);
      NoRestartStep(es, e, i, j);
    }
    NoRestartStep(es, e, i, |es|);
  }

  lemma NoRestartStep(es: seq<Event>, e: Event, lo: nat, hi: nat)
    requires hi <= |es|
    ensures NoRestart(es + [e], lo, hi) <==> NoRestart(es, lo, hi)
    ensures lo <= |es| ==> (NoRestart(es + [e], lo, |es| + 1) <==> NoRestart(es, lo, |es|) && !e.Restart?)
  {
    var es' := es + [e];
    assert forall k :: 0 <= k < |es| ==> es'[k] == es[k];
    assert es'[|es|] == e;
  }

  /** What one more event does to the commands that were there. */
  lemma InForceStep(settings: Settings, es: seq<Event>, e: Event, i: nat)
    requires i < |es|
    ensures var es' := es + [e];
            var writes := WritesFile(settings, es', |es|);
            && (InForce(settings, es', i, false) <==> InForce(settings, es, i, writes))
            && (InForce(settings, es', i, true) <==> InForce(settings, es, i, !e.Restart?))
  {
    EarlierStays(settings, es, e, i);
    SavedStep(settings, es, e, i);
    NoRestartStep(es, e, i, |es|);
  }

  /** And what it adds itself. */
  lemma LastInForce(settings: Settings, es: seq<Event>, e: Event)
    ensures var es', n := es + [e], |es|;
            && (InForce(settings, es', n, true) <==> TookHold(settings, es', n))
            && (InForce(settings, es', n, false) <==> WritesFile(settings, es', n))
  {
    var es', n := es + [e], |es|;
    if WritesFile(settings, es', n) {
      assert NoRestart(es', n, n);
      assert Saved(settings, es', n);
    }
  }

  lemma AfterAppend(settings: Settings, h: seq<Command>, c: Command)
    requires TakesEffect(settings, After(settings, h), c)
    ensures After(settings, h + [c]) == Apply(settings, After(settings, h), c)
  {
    assert (h + [c])[..|h|] == h;
  }

  lemma SurvivorsStep(settings: Settings, es: seq<Event>, e: Event)
    ensures var es', n := es + [e], |es|;
            var writes, took := WritesFile(settings, es', n), TookHold(settings, es', n);
            && Survivors(settings, es', n + 1, true)
               == Survivors(settings, es, n, !e.Restart?) + (if took then [e.command] else [])
            && Survivors(settings, es', n + 1, false)
               == Survivors(settings, es, n, writes) + (if writes then [e.command] else [])
  {
    var es', n := es + [e], |es|;
    forall i | 0 <= i < n
      ensures es'[i] == es[i]
      ensures InForce(settings, es', i, false) <==> InForce(settings, es, i, WritesFile(settings, es', n))
      ensures InForce(settings, es', i, true) <==> InForce(settings, es, i, !e.Restart?)
    {
      InForceStep(settings, es, e, i);
    }
    LastInForce(settings, es, e);
    SameSurvivors(settings, es', true, es, !e.Restart?, n);
    SameSurvivors(settings, es', false, es, WritesFile(settings, es', n), n);
  }

  /**
   With any writes failing and any restarts: the file holds what the saved commands make of an empty
   store, and memory what they make together with those since the last restart.
   */
  lemma {:induction false} RunEqualsSurvivors(settings: Settings, es: seq<Event>)
    ensures Run(settings, es).memory == After(settings, Survivors(settings, es, |es|, true))
    ensures Run(settings, es).disk == After(settings, Survivors(settings, es, |es|, false))
  {
    if es != [] {
      var front, e := es[..|es| - 1], es[|es| - 1];
      assert es == front + [e];
      RunEqualsSurvivors(settings, front);
      SurvivorsStep(settings, front, e);
      assert es[..|front|] == front;
      var h, d := Survivors(settings, front, |front|, true), Survivors(settings, front, |front|, false);
      assert h + [] == h && d + [] == d;
      if e.Do? && TakesEffect(settings, After(settings, h), e.command) {
        AfterAppend(settings, h, e.command);
      }
    }
  }

  /** After any run at all, an authorizer answers from the history of the commands in force. */
  lemma AuthorizationWithFailures(settings: Settings, es: seq<Event>, fp: Fingerprint, capability: Text)
    ensures Authorized(Run(settings, es).memory, fp, capability)
            <==> HistoryAllows(settings, Survivors(settings, es, |es|, true), fp, capability)
  {
    RunEqualsSurvivors(settings, es);
    AuthorizationEqualsHistory(settings, Survivors(settings, es, |es|, true), fp, capability);
  }

  function CommandsOf(es: seq<Event>): seq<Command> {
    if es == [] then []
    else
      var front := CommandsOf(es[..|es| - 1]);
      if es[|es| - 1].Do? then front + [es[|es| - 1].command] else front
  }

  ghost predicate AllWritten(es: seq<Event>) {
    forall i :: 0 <= i < |es| && es[i].Do? ==> es[i].written
  }

  /** When every write succeeds, restarts change nothing: memory and file are what all commands make them. */
  lemma {:induction false} RestartsAreInvisible(settings: Settings, es: seq<Event>)
    requires AllWritten(es)
    ensures Run(settings, es) == Stored(After(settings, CommandsOf(es)), After(settings, CommandsOf(es)))
  {
    if es != [] {
      var front, e := es[..|es| - 1], es[|es| - 1];
      RestartsAreInvisible(settings, front);
      if e.Do? {
        var h := CommandsOf(front);
        assert (h + [e.command])[..|h|] == h;
      }
    }
  }

  /** The whole of it: after any run with successful writes, any authorizer answers from the history. */
  lemma AuthorizationOverRuns(settings: Settings, es: seq<Event>, fp: Fingerprint, capability: Text)
    requires AllWritten(es)
    ensures Authorized(Run(settings, es).memory, fp, capability) <==> HistoryAllows(settings, CommandsOf(es), fp, capability)
  {
    RestartsAreInvisible(settings, es);
    AuthorizationEqualsHistory(settings, CommandsOf(es), fp, capability);
  }

  // ---- a revocation that was not written ------------------------------------------------------

  predicate IsRevoked(peers: Peers, fp: Fingerprint) {
    fp in peers && peers[fp].revoked
  }

  /** No command but a pairing of the key itself undoes a revocation. */
  lemma RevokedStays(settings: Settings, peers: Peers, c: Command, fp: Fingerprint)
    requires IsRevoked(peers, fp) && !Pairs(c, fp) && TakesEffect(settings, peers, c)
    ensures IsRevoked(Apply(settings, peers, c), fp)
  {
  }

  /** Some event from `lo` on writes the file. */
  ghost predicate SomeWrite(settings: Settings, es: seq<Event>, lo: nat) {
    exists j: nat :: lo <= j && WritesFile(settings, es, j)
  }

  lemma SomeWriteStep(settings: Settings, es: seq<Event>, e: Event, lo: nat)
    requires lo <= |es|
    ensures SomeWrite(settings, es + [e], lo) <==> SomeWrite(settings, es, lo) || WritesFile(settings, es + [e], |es|)
  {
    var es' := es + [e];
    if SomeWrite(settings, es', lo) {
      var j: nat :| lo <= j && WritesFile(settings, es', j);
      if j < |es| {
        EarlierStays(settings, es, e, j);
      }
    }
    if SomeWrite(settings, es, lo) {
      var j: nat :| lo <= j && WritesFile(settings, es, j);
      EarlierStays(settings, es, e, j);
    }
  }

  /** From a failed revocation on: memory revokes the key, and the file does once anything is written. */
  lemma {:induction false} AfterFailedRevocation(settings: Settings, es: seq<Event>, fp: Fingerprint, rest: seq<Event>)
    requires fp in Run(settings, es).memory
    requires forall k :: 0 <= k < |rest| ==> rest[k].Do? && !Pairs(rest[k].command, fp)
    ensures var failed := es + [Do(Revoke(fp), false)];
            var s := Run(settings, failed + rest);
            && IsRevoked(s.memory, fp)
            && if SomeWrite(settings, failed + rest, |failed|) then IsRevoked(s.disk, fp) else s.disk == Run(settings, es).disk
  {
    var failed := es + [Do(Revoke(fp), false)];
    assert failed[..|es|] == es;
    if rest == [] {
      assert failed + rest == failed;
    } else {
      var front, e := rest[..|rest| - 1], rest[|rest| - 1];
      AfterFailedRevocation(settings, es, fp, front);
      SomeWriteStep(settings, failed + front, e, |failed|);
      assert failed + rest == failed + front + [e];
      assert (failed + rest)[..|failed + front|] == failed + front;
      var s := Run(settings, failed + front);
      if TakesEffect(settings, s.memory, e.command) {
        RevokedStays(settings, s.memory, e.command, fp);
      }
    }
  }

  /**
   A revocation whose write failed is in force in memory. Past the next restart it is in force if and
   only if, before that restart, some later command took effect and was written: the whole map goes
   to the file, and the revocation with it. `rest` is what comes between.
   */
  lemma FailedRevocation(settings: Settings, es: seq<Event>, fp: Fingerprint, rest: seq<Event>)
    requires fp in Run(settings, es).memory && LookupPeer(Run(settings, es).disk, fp).StatusTrusted?
    requires forall k :: 0 <= k < |rest| ==> rest[k].Do? && !Pairs(rest[k].command, fp)
    ensures var failed := es + [Do(Revoke(fp), false)];
            && LookupPeer(Run(settings, failed + rest).memory, fp).StatusRevoked?
            && LookupPeer(Run(settings, failed + rest + [Restart]).memory, fp)
               == (if SomeWrite(settings, failed + rest, |failed|) then StatusRevoked else LookupPeer(Run(settings, es).disk, fp))
  {
    var all := es + [Do(Revoke(fp), false)] + rest;
    AfterFailedRevocation(settings, es, fp, rest);
    assert (all + [Restart])[..|all|] == all;
  }

  /** So the property fails: a peer that was revoked may use what it was granted again. */
  lemma FailedRevocationReturns(settings: Settings, es: seq<Event>, fp: Fingerprint, capability: Text)
    requires AllWritten(es) && HistoryAllows(settings, CommandsOf(es), fp, capability)
    ensures !Authorized(Run(settings, es + [Do(Revoke(fp), false)]).memory, fp, capability)
    ensures Authorized(Run(settings, es + [Do(Revoke(fp), false), Restart]).memory, fp, capability)
  {
    AuthorizationOverRuns(settings, es, fp, capability);
    RestartsAreInvisible(settings, es);
    var failed := es + [Do(Revoke(fp), false)];
    assert failed[..|es|] == es;
    assert (es + [Do(Revoke(fp), false), Restart])[..|es| + 1] == failed;
  }
}
