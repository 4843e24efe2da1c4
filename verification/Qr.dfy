/** The QR payload: what is emitted, what is accepted, and that the first reads back. */
module Qr {
  import opened Prelude
  import opened Encodings
  import opened Pairing

  const MAX_QR_PAYLOAD_LEN := 512
  const MAX_DEVICE_ID_LEN := 64
  const TOKEN_GROUPS := 4

  datatype QrError = TooLarge | UnsupportedVersion | UnknownScheme | BadFingerprint | BadToken | BadDeviceId

  /** Addresses are hints; their text form is a matter of the standard library. */
  datatype AddressCodec<!A> = AddressCodec(show: A -> Text, read: Text -> Option<A>)

  datatype Payload<A> = Payload(profile: Profile, fingerprint: Fingerprint, tokenText: Text, deviceId: Text, addresses: seq<A>)

  // ---- splitting and joining ------------------------------------------------------------------

  /** The position of the first `c`, or the length of the text. */
  function IndexOf(s: Text, c: char): (i: nat)
    ensures i <= |s| && c !in s[..i] && (i < |s| ==> s[i] == c)
  {
    if s == [] || s[0] == c then 0
    else
      var i := 1 + IndexOf(s[1..], c);
      assert s[..i] == [s[0]] + s[1..][..i - 1];
      i
  }

  /** One step of a split: the text before the next `c`, and what is after it, if it was there. */
  function NextPart(rest: Option<Text>, c: char): (Text, Option<Text>) {
    if rest.None? then ("", None)
    else
      var i := IndexOf(rest.value, c);
      (rest.value[..i], if i < |rest.value| then Some(rest.value[i + 1..]) else None)
  }

  function SplitAll(s: Text, c: char): (parts: seq<Text>)
    ensures |parts| > 0
    decreases |s|
  {
    var i := IndexOf(s, c);
    if i < |s| then [s[..i]] + SplitAll(s[i + 1..], c) else [s]
  }

  function Join(parts: seq<Text>, c: char): Text {
    if parts == [] then "" else if |parts| == 1 then parts[0] else parts[0] + [c] + Join(parts[1..], c)
  }

  lemma {:induction false} FirstPart(head: Text, c: char, tail: Text)
    requires c !in head
    ensures IndexOf(head + [c] + tail, c) == |head|
    ensures NextPart(Some(head + [c] + tail), c) == (head, Some(tail))
  {
    var s := head + [c] + tail;
    if head != [] {
      assert s[1..] == head[1..] + [c] + tail;
      FirstPart(head[1..], c, tail);
    }
    assert s[..|head|] == head && s[|head| + 1..] == tail;
  }

  lemma LastPart(s: Text, c: char)
    requires c !in s
    ensures IndexOf(s, c) == |s|
  {
  }

  lemma SplitFirst(head: Text, c: char, tail: Text)
    requires c !in head
    ensures SplitAll(head + [c] + tail, c) == [head] + SplitAll(tail, c)
  {
    FirstPart(head, c, tail);
    var s := head + [c] + tail;
    assert s[..|head|] == head && s[|head| + 1..] == tail;
  }

  lemma {:induction false} JoinRoundTrip(parts: seq<Text>, c: char)
    requires parts != [] && forall i :: 0 <= i < |parts| ==> c !in parts[i]
    ensures SplitAll(Join(parts, c), c) == parts
  {
    if |parts| == 1 {
      LastPart(parts[0], c);
    } else {
      JoinRoundTrip(parts[1..], c);
      SplitFirst(parts[0], c, Join(parts[1..], c));
      assert parts == [parts[0]] + parts[1..];
    }
  }

  // ---- the schemes ----------------------------------------------------------------------------

  function QrScheme(profile: Profile): Text {
    match profile
    case Pliwee => "pliwee1"
    case OmniBridge => "omnibridge1"
  }

  predicate IsDigits(s: Text) {
    forall i :: 0 <= i < |s| ==> '0' <= s[i] <= '9'
  }

  predicate IsOtherVersion(scheme: Text, brand: Text) {
    brand < scheme && IsDigits(scheme[|brand|..])
  }

  function ProfileOfScheme(scheme: Text): (r: Result<Profile, QrError>)
    ensures forall p: Profile :: r == Ok(p) <==> scheme == QrScheme(p)
    ensures r == Err(UnsupportedVersion) <==>
      && (forall p: Profile :: scheme != QrScheme(p))
      && (IsOtherVersion(scheme, "pliwee") || IsOtherVersion(scheme, "omnibridge"))
    ensures r.Ok? || r.error in {UnsupportedVersion, UnknownScheme}
  {
    assert QrScheme(Pliwee)[0] == 'p' && QrScheme(OmniBridge)[0] == 'o';
    if scheme == QrScheme(Pliwee) then Ok(Pliwee)
    else if scheme == QrScheme(OmniBridge) then Ok(OmniBridge)
    else if IsOtherVersion(scheme, "pliwee") || IsOtherVersion(scheme, "omnibridge") then Err(UnsupportedVersion)
    else Err(UnknownScheme)
  }

  predicate IsHexDigit(c: char) {
    '0' <= c <= '9' || 'a' <= c <= 'f' || 'A' <= c <= 'F'
  }

  predicate GoodDeviceId(s: Text) {
    s != "" && |s| <= MAX_DEVICE_ID_LEN && forall i :: 0 <= i < |s| ==> IsHexDigit(s[i])
  }

  // ---- encoding and parsing -------------------------------------------------------------------

  function ShowAll<A>(codec: AddressCodec<A>, addresses: seq<A>): (r: seq<Text>)
    ensures |r| == |addresses| && forall i :: 0 <= i < |r| ==> r[i] == codec.show(addresses[i])
  {
    seq(|addresses|, i requires 0 <= i < |addresses| => codec.show(addresses[i]))
  }

  /** The text of five fields. */
  function FiveFields(a: Text, b: Text, c: Text, d: Text, e: Text): Text {
    a + ":" + b + ":" + c + ":" + d + ":" + e
  }

  /** The canonical scheme, always: the legacy one is never emitted. */
  function Encode<A>(codec: AddressCodec<A>, fp: Fingerprint, token: Bytes, deviceId: Text, addresses: seq<A>): Text
    requires |token| == TOKEN_LEN
  {
    FiveFields(QrScheme(Pliwee), ToHex(fp), ToBase32(token, TOKEN_GROUPS), deviceId, Join(ShowAll(codec, addresses), ','))
  }

  /** An address that does not parse is dropped, and so is an empty one. */
  function ReadAddresses<A>(codec: AddressCodec<A>, parts: seq<Text>): seq<A> {
    if parts == [] then []
    else
      var rest := ReadAddresses(codec, parts[1..]);
      if parts[0] == "" then rest
      else match codec.read(parts[0])
        case None => rest
        case Some(a) => [a] + rest
  }

  /** Four parts, and what follows the fourth colon. */
  function FourParts(input: Text): (Text, Text, Text, Text, Option<Text>) {
    var (a, r1) := NextPart(Some(input), ':');
    var (b, r2) := NextPart(r1, ':');
    var (c, r3) := NextPart(r2, ':');
    var (d, r4) := NextPart(r3, ':');
    (a, b, c, d, r4)
  }

  /** The fields before the address hints, refused in their order; the hints as they stand. */
  function Validated(scheme: Text, hex: Text, token: Text, deviceId: Text, hints: Option<Text>): Result<(Payload<Text>, Text), QrError> {
    match ProfileOfScheme(scheme)
    case Err(e) => Err(e)
    case Ok(profile) =>
      match FromHex(hex, 32)
      case None => Err(BadFingerprint)
      case Some(fp) =>
        if FromBase32(token, TOKEN_GROUPS).None? then Err(BadToken)
        else if !GoodDeviceId(deviceId) then Err(BadDeviceId)
        else Ok((Payload(profile, fp, token, deviceId, []), if hints.None? then "" else hints.value))
  }

  function Fields(input: Text): Result<(Payload<Text>, Text), QrError> {
    if |input| > MAX_QR_PAYLOAD_LEN then Err(TooLarge)
    else
      var (scheme, hex, token, deviceId, hints) := FourParts(input);
      Validated(scheme, hex, token, deviceId, hints)
  }

  function Parse<A>(codec: AddressCodec<A>, input: Text): Result<Payload<A>, QrError> {
    match Fields(input)
    case Err(e) => Err(e)
    case Ok((p, hints)) => Ok(Payload(p.profile, p.fingerprint, p.tokenText, p.deviceId, ReadAddresses(codec, SplitAll(hints, ','))))
  }

  /** A split iterator over a text, limited to `limit` parts. */
  class Parts {
    var rest: Option<Text>
    var limit: nat

    constructor (s: Text, limit: nat)
      ensures rest == Some(s) && this.limit == limit
    {
      rest, this.limit := Some(s), limit;
    }

    /** The next part, or nothing left; the last allowed part is all that remains. */
    method Next() returns (part: Text)
      modifies this
      ensures old(limit) > 1 ==> (part, rest) == NextPart(old(rest), ':') && limit == old(limit) - 1
      ensures old(limit) <= 1 ==> part == (if old(rest).None? || old(limit) == 0 then "" else old(rest).value) && rest == None
    {
      if limit == 0 || rest.None? {
        part := "";
        rest := None;
        limit := if limit > 1 then limit - 1 else 0;
      } else if limit == 1 {
        part := rest.value;
        rest := None;
        limit := 0;
      } else {
        var i := IndexOf(rest.value, ':');
        part := rest.value[..i];
        rest := if i < |rest.value| then Some(rest.value[i + 1..]) else None;
        limit := limit - 1;
      }
    }
  }

  /** The first four parts, taken off the iterator one by one. */
  method TakeFields(input: Text) returns (r: Result<(Payload<Text>, Text), QrError>)
    ensures r == Fields(input)
  {
    if |input| > MAX_QR_PAYLOAD_LEN {
      return Err(TooLarge);
    }
    var parts := new Parts(input, 5);
    var scheme := parts.Next();
    var profile := ProfileOfScheme(scheme);
    if profile.Err? {
      return Err(profile.error);
    }
    var hex := parts.Next();
    var fingerprint := FromHex(hex, 32);
    if fingerprint.None? {
      return Err(BadFingerprint);
    }
    var token := parts.Next();
    if FromBase32(token, TOKEN_GROUPS).None? {
      return Err(BadToken);
    }
    var deviceId := parts.Next();
    if !GoodDeviceId(deviceId) {
      return Err(BadDeviceId);
    }
    var hints := parts.Next();
    r := Ok((Payload(profile.value, fingerprint.value, token, deviceId, []), hints));
  }

  /** The address list: a loop that skips what it cannot read. */
  method CollectAddresses<A>(codec: AddressCodec<A>, pieces: seq<Text>) returns (addresses: seq<A>)
    ensures addresses == ReadAddresses(codec, pieces)
  {
    addresses := [];
    for i := 0 to |pieces|
      invariant addresses + ReadAddresses(codec, pieces[i..]) == ReadAddresses(codec, pieces)
    {
      assert pieces[i..][1..] == pieces[i + 1..];
      if pieces[i] != "" {
        var address := codec.read(pieces[i]);
        if address.Some? {
          addresses := addresses + [address.value];
        }
      }
    }
  }

  /** `parse` as the code does it. */
  method ParsePayload<A>(codec: AddressCodec<A>, input: Text) returns (r: Result<Payload<A>, QrError>)
    ensures r == Parse(codec, input)
  {
    var fields := TakeFields(input);
    if fields.Err? {
      return Err(fields.error);
    }
    var (p, hints) := fields.value;
    var addresses := CollectAddresses(codec, SplitAll(hints, ','));
    r := Ok(Payload(p.profile, p.fingerprint, p.tokenText, p.deviceId, addresses));
  }

  // ---- the round trip -------------------------------------------------------------------------

  /** What the standard library promises of address text. */
  ghost predicate Readable<A>(codec: AddressCodec<A>, a: A) {
    codec.show(a) != "" && ',' !in codec.show(a) && codec.read(codec.show(a)) == Some(a)
  }

  lemma {:induction false} AddressesReadBack<A>(codec: AddressCodec<A>, addresses: seq<A>)
    requires forall i :: 0 <= i < |addresses| ==> Readable(codec, addresses[i])
    ensures ReadAddresses(codec, ShowAll(codec, addresses)) == addresses
  {
    if addresses != [] {
      AddressesReadBack(codec, addresses[1..]);
      assert ShowAll(codec, addresses)[1..] == ShowAll(codec, addresses[1..]);
      assert addresses == [addresses[0]] + addresses[1..];
    }
  }

  lemma HintsReadBack<A>(codec: AddressCodec<A>, addresses: seq<A>)
    requires forall i :: 0 <= i < |addresses| ==> Readable(codec, addresses[i])
    ensures ReadAddresses(codec, SplitAll(Join(ShowAll(codec, addresses), ','), ',')) == addresses
  {
    if addresses == [] {
      assert SplitAll("", ',') == [""];
      assert ReadAddresses(codec, [""]) == ReadAddresses(codec, [""][1..]);
    } else {
      JoinRoundTrip(ShowAll(codec, addresses), ',');
      AddressesReadBack(codec, addresses);
    }
  }

  /** No symbol of an alphabet without a colon spells one. */
  lemma NoColon(alphabet: Text, ds: seq<nat>)
    requires Below(ds, |alphabet|) && ':' !in alphabet
    ensures ':' !in Spell(alphabet, ds)
  {
    var s := Spell(alphabet, ds);
    forall i | 0 <= i < |s|
      ensures s[i] != ':'
    {
      assert s[i] in alphabet;
    }
  }

  lemma Regrouped5(a: Text, b: Text, c: Text, d: Text, e: Text)
    ensures a + ":" + b + ":" + c + ":" + d + ":" + e == a + [':'] + (b + [':'] + (c + [':'] + (d + [':'] + e)))
  {
  }

  /** Four fields without colons and a remainder come off the iterator as they went in. */
  lemma FieldsComeOff(a: Text, b: Text, c: Text, d: Text, e: Text)
    requires ':' !in a && ':' !in b && ':' !in c && ':' !in d
    ensures FourParts(FiveFields(a, b, c, d, e)) == (a, b, c, d, Some(e))
  {
    Regrouped5(a, b, c, d, e);
    FirstPart(a, ':', b + [':'] + (c + [':'] + (d + [':'] + e)));
    FirstPart(b, ':', c + [':'] + (d + [':'] + e));
    FirstPart(c, ':', d + [':'] + e);
    FirstPart(d, ':', e);
  }

  lemma ValidFields(profile: Profile, fp: Fingerprint, hex: Text, token: Text, deviceId: Text, hints: Text)
    requires GoodDeviceId(deviceId) && FromHex(hex, 32) == Some(fp) && FromBase32(token, TOKEN_GROUPS).Some?
    ensures Validated(QrScheme(profile), hex, token, deviceId, Some(hints)) == Ok((Payload(profile, fp, token, deviceId, []), hints))
  {
  }

  lemma NoColonInHexDigits(s: Text)
    requires GoodDeviceId(s)
    ensures ':' !in s
  {
  }

  lemma NoColonInScheme(profile: Profile)
    ensures ':' !in QrScheme(profile)
  {
  }

  lemma FieldsOf(profile: Profile, fp: Fingerprint, hex: Text, token: Text, deviceId: Text, hints: Text)
    requires ':' !in hex && ':' !in token && GoodDeviceId(deviceId)
    requires FromHex(hex, 32) == Some(fp) && FromBase32(token, TOKEN_GROUPS).Some?
    requires |FiveFields(QrScheme(profile), hex, token, deviceId, hints)| <= MAX_QR_PAYLOAD_LEN
    ensures Fields(FiveFields(QrScheme(profile), hex, token, deviceId, hints)) == Ok((Payload(profile, fp, token, deviceId, []), hints))
  {
    NoColonInScheme(profile);
    NoColonInHexDigits(deviceId);
    FieldsComeOff(QrScheme(profile), hex, token, deviceId, hints);
    ValidFields(profile, fp, hex, token, deviceId, hints);
  }

  lemma Base32HasNoColon(token: Bytes)
    requires |token| == TOKEN_LEN
    ensures ':' !in ToBase32(token, TOKEN_GROUPS)
  {
    NoColon(BASE32, Regroup(token, TOKEN_GROUPS, 256, 5, 32, 8));
  }

  lemma HexHasNoColon(b: Bytes)
    ensures ':' !in ToHex(b)
  {
    NoColon(HEX, Regroup(b, |b|, 256, 1, 16, 2));
  }

  /**
   Every payload the daemon emits scans back to the canonical profile and the same fields, unless its
   address hints make it longer than a scanner accepts.
   */
  lemma QrRoundTrip<A>(codec: AddressCodec<A>, fp: Fingerprint, token: Bytes, deviceId: Text, addresses: seq<A>)
    requires |token| == TOKEN_LEN && GoodDeviceId(deviceId)
    requires forall i :: 0 <= i < |addresses| ==> Readable(codec, addresses[i])
    ensures Parse(codec, Encode(codec, fp, token, deviceId, addresses))
            == if |Encode(codec, fp, token, deviceId, addresses)| <= MAX_QR_PAYLOAD_LEN
               then Ok(Payload(Pliwee, fp, ToBase32(token, TOKEN_GROUPS), deviceId, addresses))
               else Err(TooLarge)
    ensures FromBase32(ToBase32(token, TOKEN_GROUPS), TOKEN_GROUPS) == Some(token)
  {
    Base32RoundTrip(token, TOKEN_GROUPS);
    if |Encode(codec, fp, token, deviceId, addresses)| <= MAX_QR_PAYLOAD_LEN {
      Base32HasNoColon(token);
      HexHasNoColon(fp);
      HexRoundTrip(fp);
      FieldsOf(Pliwee, fp, ToHex(fp), ToBase32(token, TOKEN_GROUPS), deviceId, Join(ShowAll(codec, addresses), ','));
      HintsReadBack(codec, addresses);
    }
  }

  /** A text without a colon has no fingerprint field, so it is never accepted. */
  lemma AcceptedHasAColon(input: Text)
    ensures Fields(input).Ok? ==> IndexOf(input, ':') < |input|
  {
    if IndexOf(input, ':') == |input| {
      assert NextPart(None, ':') == ("", None);
      assert FromHex("", 32) == None;
    }
  }

  lemma SchemeIsTheFirstPart(input: Text)
    requires Fields(input).Ok?
    ensures QrScheme(Fields(input).value.0.profile) == FourParts(input).0 == input[..IndexOf(input, ':')]
  {
    assert FourParts(input).0 == NextPart(Some(input), ':').0;
  }

  lemma PrefixWithColon(input: Text, i: nat)
    requires i < |input| && input[i] == ':'
    ensures input[..i] + ":" <= input
  {
    assert input[..i + 1] == input[..i] + ":";
  }

  /** Whatever is accepted names its profile by its scheme tag. */
  lemma AcceptedNamesItsProfile(input: Text)
    requires Fields(input).Ok?
    ensures QrScheme(Fields(input).value.0.profile) + ":" <= input
  {
    AcceptedHasAColon(input);
    SchemeIsTheFirstPart(input);
    PrefixWithColon(input, IndexOf(input, ':'));
  }

  // ---- exactly what is accepted ---------------------------------------------------------------

  function FourFields(a: Text, b: Text, c: Text, d: Text): Text {
    a + ":" + b + ":" + c + ":" + d
  }

  /** The text is the four fields of this payload, with these hints after them or, if there are none, without. */
  ghost predicate Spells(input: Text, p: Payload<Text>, token: Bytes, hints: Text)
    requires |token| == TOKEN_LEN
  {
    var scheme, hex, symbols := QrScheme(p.profile), ToHex(p.fingerprint), ToBase32(token, TOKEN_GROUPS);
    && p.tokenText == symbols && GoodDeviceId(p.deviceId) && p.addresses == []
    && (input == FiveFields(scheme, hex, symbols, p.deviceId, hints)
        || (hints == "" && input == FourFields(scheme, hex, symbols, p.deviceId)))
  }

  lemma Regrouped4(a: Text, b: Text, c: Text, d: Text)
    ensures FourFields(a, b, c, d) == a + [':'] + (b + [':'] + (c + [':'] + d))
  {
  }

  lemma FourComeOff(a: Text, b: Text, c: Text, d: Text)
    requires ':' !in a && ':' !in b && ':' !in c && ':' !in d
    ensures FourParts(FourFields(a, b, c, d)) == (a, b, c, d, None)
  {
    Regrouped4(a, b, c, d);
    FirstPart(a, ':', b + [':'] + (c + [':'] + d));
    FirstPart(b, ':', c + [':'] + d);
    FirstPart(c, ':', d);
    LastPart(d, ':');
    assert d[..|d|] == d;
  }

  /** A part and what is after it make up the text again. */
  lemma PartBack(s: Text, c: char)
    ensures var (head, rest) := NextPart(Some(s), c);
            s == if rest.None? then head else head + [c] + rest.value
  {
    var i := IndexOf(s, c);
    if i < |s| {
      assert s == s[..i] + [s[i]] + s[i + 1..];
    }
  }

  /** The parts of a text that has a fourth one make it up again. */
  lemma PartsBack(input: Text)
    requires FourParts(input).3 != ""
    ensures var (a, b, c, d, rest) := FourParts(input);
            input == if rest.None? then FourFields(a, b, c, d) else FiveFields(a, b, c, d, rest.value)
  {
    var (a, r1) := NextPart(Some(input), ':');
    var (b, r2) := NextPart(r1, ':');
    var (c, r3) := NextPart(r2, ':');
    var (d, r4) := NextPart(r3, ':');
    PartBack(input, ':');
    PartBack(r1.value, ':');
    PartBack(r2.value, ':');
    PartBack(r3.value, ':');
    if r4.None? {
      Regrouped4(a, b, c, d);
    } else {
      Regrouped5(a, b, c, d, r4.value);
    }
  }

  /** What validation lets through, field by field. */
  lemma ValidatedFields(scheme: Text, hex: Text, symbols: Text, deviceId: Text, rest: Option<Text>, p: Payload<Text>, hints: Text)
    requires Validated(scheme, hex, symbols, deviceId, rest) == Ok((p, hints))
    ensures scheme == QrScheme(p.profile) && FromHex(hex, 32) == Some(p.fingerprint) && p.tokenText == symbols
    ensures FromBase32(symbols, TOKEN_GROUPS).Some? && p.deviceId == deviceId && GoodDeviceId(deviceId) && p.addresses == []
    ensures hints == if rest.None? then "" else rest.value
  {
  }

  lemma AcceptedIsSpelled(input: Text, p: Payload<Text>, hints: Text) returns (token: Bytes)
    requires Fields(input) == Ok((p, hints))
    ensures |token| == TOKEN_LEN && |input| <= 512 && Spells(input, p, token, hints)
  {
    var (scheme, hex, symbols, deviceId, rest) := FourParts(input);
    ValidatedFields(scheme, hex, symbols, deviceId, rest, p, hints);
    PartsBack(input);
    HexExactly(hex, 32, p.fingerprint);
    token := FromBase32(symbols, TOKEN_GROUPS).value;
    Base32Exactly(symbols, TOKEN_GROUPS, token);
  }

  lemma FieldsOfFour(profile: Profile, fp: Fingerprint, hex: Text, token: Text, deviceId: Text)
    requires ':' !in hex && ':' !in token && GoodDeviceId(deviceId)
    requires FromHex(hex, 32) == Some(fp) && FromBase32(token, TOKEN_GROUPS).Some?
    requires |FourFields(QrScheme(profile), hex, token, deviceId)| <= MAX_QR_PAYLOAD_LEN
    ensures Fields(FourFields(QrScheme(profile), hex, token, deviceId)) == Ok((Payload(profile, fp, token, deviceId, []), ""))
  {
    NoColonInScheme(profile);
    NoColonInHexDigits(deviceId);
    FourComeOff(QrScheme(profile), hex, token, deviceId);
  }

  lemma EncodedFields(fp: Fingerprint, token: Bytes)
    requires |token| == TOKEN_LEN
    ensures ':' !in ToHex(fp) && FromHex(ToHex(fp), 32) == Some(fp)
    ensures ':' !in ToBase32(token, TOKEN_GROUPS) && FromBase32(ToBase32(token, TOKEN_GROUPS), TOKEN_GROUPS) == Some(token)
  {
    HexHasNoColon(fp);
    HexRoundTrip(fp);
    Base32HasNoColon(token);
    Base32RoundTrip(token, TOKEN_GROUPS);
  }

  lemma SpelledIsAccepted(input: Text, p: Payload<Text>, token: Bytes, hints: Text)
    requires |token| == TOKEN_LEN && |input| <= 512 && Spells(input, p, token, hints)
    ensures Fields(input) == Ok((p, hints))
  {
    var hex, symbols := ToHex(p.fingerprint), ToBase32(token, TOKEN_GROUPS);
    EncodedFields(p.fingerprint, token);
    if input == FiveFields(QrScheme(p.profile), hex, symbols, p.deviceId, hints) {
      FieldsOf(p.profile, p.fingerprint, hex, symbols, p.deviceId, hints);
    } else {
      FieldsOfFour(p.profile, p.fingerprint, hex, symbols, p.deviceId);
    }
  }

  /**
   For every text: it is accepted, as these fields and hints, if and only if it has at most 512 bytes and is
   the tag of a profile, a fingerprint and a token in their one encoding, a device id, and hints or none.
   */
  lemma AcceptedExactly(input: Text, p: Payload<Text>, hints: Text)
    ensures Fields(input) == Ok((p, hints))
            <==> |input| <= 512 && exists token: Bytes :: |token| == TOKEN_LEN && Spells(input, p, token, hints)
  {
    if Fields(input) == Ok((p, hints)) {
      var token := AcceptedIsSpelled(input, p, hints);
    }
    forall token: Bytes | |token| == TOKEN_LEN && |input| <= 512 && Spells(input, p, token, hints)
      ensures Fields(input) == Ok((p, hints))
    {
      SpelledIsAccepted(input, p, token, hints);
    }
  }

  /** What one hint adds. */
  function HintRead<A>(codec: AddressCodec<A>, hint: Text): seq<A> {
    if hint == "" || codec.read(hint).None? then [] else [codec.read(hint).value]
  }

  lemma FirstHint<A>(codec: AddressCodec<A>, hints: seq<Text>)
    requires hints != []
    ensures ReadAddresses(codec, hints) == HintRead(codec, hints[0]) + ReadAddresses(codec, hints[1..])
  {
  }

  /** Each hint counts by itself: what cannot be read is dropped and the others are kept, in order. */
  lemma {:induction false} HintsCountAlone<A>(codec: AddressCodec<A>, before: seq<Text>, hint: Text, after: seq<Text>)
    ensures ReadAddresses(codec, before + [hint] + after)
            == ReadAddresses(codec, before) + HintRead(codec, hint) + ReadAddresses(codec, after)
  {
    var all := before + [hint] + after;
    FirstHint(codec, all);
    if before == [] {
      assert all[1..] == after;
    } else {
      HintsCountAlone(codec, before[1..], hint, after);
      FirstHint(codec, before);
      assert all[1..] == before[1..] + [hint] + after;
    }
  }
}
