/** The messages of protocol version 1, as the schema has them. */
module Protocol {
  import opened Prelude

  const PROTOCOL_VERSION_MIN := 1
  const PROTOCOL_VERSION_MAX := 1

  datatype DeviceInfo = DeviceInfo(deviceId: Text, deviceName: Text, platform: int, identityFingerprint: Text)

  datatype HelloStatus = UnspecifiedHello | Trusted | PairingRequired | VersionUnsupported | Rejected

  datatype PairStatus = UnspecifiedPair | Accepted | RejectedPair | DeclinedByUser | NotInPairingMode | RateLimited

  datatype Body =
    | Hello(device: Option<DeviceInfo>, minVersion: nat, maxVersion: nat, capabilities: seq<Text>)
    | HelloAck(device: Option<DeviceInfo>, status: HelloStatus, version: nat, capabilities: seq<Text>, nonce: Bytes)
    | PairRequest(proof: Bytes)
    | PairResponse(pairStatus: PairStatus, confirmation: Bytes)
    | CapabilityAnnounce(capabilities: seq<Text>)
    | Ping(payload: Bytes)
    | Pong(payload: Bytes)
    | ErrorMessage(code: int, fatal: bool)
    | CapabilityMessage(capability: Text, payload: Bytes)
    | NoBody

  datatype Envelope = Envelope(version: nat, messageId: Bytes, sequence: nat, correlationId: Bytes, body: Body)

  const MESSAGE_ID_LEN := 16
  const ERROR_UNSUPPORTED_CAPABILITY := 3

  /** A version both sides can speak. */
  ghost predicate Common(peerMin: nat, peerMax: nat, v: nat) {
    peerMin <= v <= peerMax && PROTOCOL_VERSION_MIN <= v <= PROTOCOL_VERSION_MAX
  }

  /** `negotiate_version`: the highest version in both ranges. */
  function NegotiateVersion(peerMin: nat, peerMax: nat): (r: Option<nat>)
    ensures r.Some? <==> exists v: nat :: Common(peerMin, peerMax, v)
    ensures r.Some? ==> Common(peerMin, peerMax, r.value)
    ensures r.Some? ==> forall v: nat :: Common(peerMin, peerMax, v) ==> v <= r.value
  {
    var chosen := if peerMax < PROTOCOL_VERSION_MAX then peerMax else PROTOCOL_VERSION_MAX;
    var floor := if peerMin > PROTOCOL_VERSION_MIN then peerMin else PROTOCOL_VERSION_MIN;
    assert chosen >= floor ==> Common(peerMin, peerMax, chosen);
    if chosen >= floor then Some(chosen) else None
  }
}
