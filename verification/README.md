# Pliwee (OmniBridge) desktop core in Dafny

Pliwee is a daemon that bridges a computer and a phone on a local network. This project models the
protocols of its Rust core and proves what they promise: startup that never loses an identity, a
trust store that agrees with its history, pairing, both halves of the handshake, the message loop of
a session, the approval of incoming files, the registry of sessions, two reductions of
`notifications.v1`, and the QR payload. `dafny verify dfyconfig.toml` checks all of it.

## How it is built

Code that updates fields in place is a class whose methods are proved against a step function on a
value (`View() == Step(old(View()), …)`). Code that runs concurrently is a state machine over its
steps. In both cases the theorems are about every run, and compare the state with an independent
definition over the history of events.

| modules | subject |
|---|---|
| `FileSystem`, `IdentityRules`, `Startup` | a small file system that may fail or die after every primitive; migration of the legacy directory; opening the store |
| `TrustRules`, `TrustStore` | peer records, grants and policies, against the history of commands, failed writes and restarts |
| `Encodings`, `Pairing`, `PairingRuns`, `Qr` | hex and base32, the pairing MAC input, the pairing window, the QR payload |
| `Protocol`, `Framing`, `Replay`, `Capability` | messages, frames on a byte stream, sequence stamps and the replay guard, capability negotiation |
| `Handshake`, `HandshakeRuns`, `HandshakeVerdicts`, `TwoSided`, `TwoSidedVerdicts` | each half against any peer and any host: what it never does, and exactly when it succeeds and what it says when it does not; both halves against each other |
| `SessionLoop`, `SessionProgress`, `SessionDrains`, `SessionOutput`, `ConnectionReplay`, `Liveness` | reader, dispatch loop and writer over bounded queues; no deadlock; exactly which sessions end and how; exactly what goes on the wire; one replay guard from the first frame of a connection to the last; silence |
| `ApprovalRules`, `Approval`, `ApprovalSessions`, `ApprovalAnswers` | questions about incoming files, providers with epochs, prompts on screens, and exactly which files are accepted |
| `SessionRules`, `SessionRegistry` | one session a peer, and one request to reconnect a session |
| `Notifications` | role announcements and snapshot brackets |

HMAC-SHA256, SHA-256, the protobuf codec, the JSON parser, the match of a key and a certificate, and
the text form of socket addresses are function-valued parameters; where a law about one is needed it
is a hypothesis of the lemma that needs it. Clocks, random bytes, frames from a peer, answers of a
host and the fate of a write are parameters, one for each place the code asks. Texts are sequences of
UTF-8 code units, so that a length is a length in bytes.

## What the code does that its documentation does not say

- A key is *generated* again if the process dies after generating one and before renaming it to its
  final name (`KeyMayBeMadeTwice` is such a disk). What happens at most once over all runs is the
  *installation*, and no key is generated after it (`ManyStarts`, `CreationEndsWithInstall`).
- `try_exists` follows links, so a link to nothing counts as an absent file when the store classifies
  an identity, while `holds_identity` (which does not follow links) counts it as present. Beside a
  usable legacy identity such a link is therefore taken for a canonical identity by migration and for
  none by the store, which may make a new key; it is the only way to one (`OnlyALinkShadowsLegacy`,
  `NoLinkNoKey`).
- `classify` does not compare key and certificate, although the table above it lists that case; only
  `load` does, so a mismatch is still refused, one step later.
- A pairing, a revocation, a grant or a policy whose write fails is in force in memory all the same;
  hiding is rolled back. It outlives the next restart if and only if a later command takes effect and
  is written before that restart, because every write stores the whole map (`RunEqualsSurvivors` for
  every command, `FailedRevocation` for a revocation). A revocation followed at once by a restart is
  therefore lost (`FailedRevocationReturns`).
- The comment on liveness speaks of two unanswered probes. A probe goes out at every tick from 60 s of
  silence on, so a session is closed after eight (`SilentPeerIsClosed`).
- The daemon never answers `AlreadyUsed` or `RateLimited` to a proof, because it drops a window as soon
  as it is used up (`HeldWindowIsUsable`).
- The initiator's capability list may be longer than the responder's: it is what both support, without
  the responder's grants (`EndsAgree`).
- A QR payload with so many addresses that it exceeds 512 bytes is emitted all the same, and no scanner
  accepts it (`QrRoundTrip`).
- Detaching by epoch is safe for 2^64 - 1 further attachments, because the counter wraps (`StaleDetach`).
- A session can be asked to end twice: by a grant that read it before a newer session registered and
  decides after (`LateDecisionAsksTwice`), by one that falls between the two halves of a registration
  (`EarlyClearAsksTwice`), or when a peer paired anew registers between the two halves of the end of
  its revocation (`LateClearAsksTwice`). `OnceExactly` is the exact condition for every run; with
  registration, grant change and the end of a revocation each as one step, and session ids never
  reused, the bound holds (`OneRequestPerSession`).
- Role announcements may contradict themselves in earlier epochs and still converge: what the order
  can change is exactly a contradiction at the largest epoch (`RolesDependOnOrder`).

## Model

| member | source | states |
|---|---|---|
| IdentityRules.Classify | desktop/core/src/store.rs:751-848 | a key may be created exactly when both items are positively absent, and an identity is loaded exactly when both are readable and the document is of a known schema with a software key; everything else refuses: one item without the other as lost, a read that failed as temporary, a key this build cannot use as hardware |
| IdentityRules.LegacyNeverChanges | desktop/platform-linux/src/legacy_migration.rs:279-386 | over any number of starts the legacy directory, its files and its mode stay as they were |
| IdentityRules.KeyNeverReplaced | desktop/core/src/store.rs:342-418 | a key in the canonical directory stays, byte for byte, over all later starts |
| IdentityRules.KeyInstalledOnce | desktop/core/src/store.rs:391-418 | at most one key is ever installed over all runs |
| IdentityRules.CreationEndsWithInstall | desktop/core/src/store.rs:391-418 | a start may still make a key on a disk if and only if none has been installed since |
| IdentityRules.FirstIdentity | desktop/platform-linux/src/legacy_migration.rs:279-386 | beside a usable legacy identity, the first identity the canonical directory ever holds appears in one publishing step |
| IdentityRules.LegacyIdentityIsCarriedOver | desktop/platform-linux/src/legacy_migration.rs:279-386 | with a usable legacy identity and no canonical one, no start may make a key, and the canonical directory goes in one step from no identity to copies of both legacy files, whose key never changes again |
| IdentityRules.OnlyALinkShadowsLegacy | desktop/platform-linux/src/legacy_migration.rs:390-400 | beside a usable legacy identity a key may be made if and only if the canonical directory holds no identity but a link to nothing |
| IdentityRules.NoLinkNoKey | desktop/core/src/store.rs:373-389 | without such a link at the start there never is one, and no start may make a key |
| IdentityRules.UnreadableStateIsKept | desktop/core/src/store.rs:751-848 | a state document that cannot be understood is never overwritten |
| Startup.Daemon.HoldsEither | desktop/platform-linux/src/legacy_migration.rs:390-400 | an answer is the truth about either identity file; doubt is an error |
| Startup.Daemon.ReadItem | desktop/core/src/platform/unix_fs.rs:146-186 | absence is reported only for an item that is not there, bytes only from a file, and a secret only from a private one |
| Startup.Daemon.Probe | desktop/core/src/store.rs:373-389 | an identity is called absent or loadable only if the directory says so, and where nothing fails whenever it says so; a loaded identity is read as it is stored |
| Startup.Daemon.RemoveStaleStaging | desktop/platform-linux/src/legacy_migration.rs:407-430 | on success no leftover directory is left but those the file system would not list or describe in this very call, and none at all where nothing fails; nothing without the staging prefix was touched |
| Startup.Daemon.WriteNew | desktop/platform-linux/src/legacy_migration.rs:475-485 | writes a file that did not exist, in the staging directory only |
| Startup.Daemon.Stage | desktop/platform-linux/src/legacy_migration.rs:433-472 | on success the staging directory holds private copies of both files whose digests were read back; nothing else on the disk changed |
| Startup.Daemon.PutInPlace | desktop/platform-linux/src/legacy_migration.rs:363-376 | the rename publishes the whole copy or nothing |
| Startup.Daemon.ReadLegacy | desktop/platform-linux/src/legacy_migration.rs:295-339 | nothing to migrate is reported only of a legacy directory that holds nothing to lose, and bytes only of a usable identity, which is always read where nothing fails |
| Startup.Daemon.CopyOver | desktop/platform-linux/src/legacy_migration.rs:351-385 | success means the canonical directory holds copies of both files, and the record; where nothing fails it succeeds if the name is vacant, and no staging directory stays behind either way |
| Startup.Daemon.MigrateDataDir | desktop/platform-linux/src/legacy_migration.rs:279-386 | wherever it stops, every step was safe; success means the canonical directory holds an identity or the legacy one holds nothing to lose; migrated means both files and the record are in place; where nothing fails, the answer is decided by the disk found, in all of its cases |
| Startup.Daemon.Harden | desktop/core/src/platform/unix_fs.rs:191-203 | on success the directory exists and is private, whatever the umask made of it at first, and so it is where nothing fails; no file in it is touched |
| Startup.Daemon.WriteKey | desktop/core/src/platform/unix_fs.rs:127-171 | a new key reaches its name whole or not at all, and only where creation is allowed; where nothing fails it does, and is private |
| Startup.Daemon.WriteState | desktop/core/src/platform/unix_fs.rs:187-189 | the document is replaced whole or not at all, beside a key that stays; where nothing fails it is |
| Startup.Daemon.Initialize | desktop/core/src/store.rs:391-418 | the key is written before the document, and one key is made; success means both are in place, byte for byte, on a disk that does not lie, and where nothing fails it succeeds |
| Startup.Daemon.OpenNew | desktop/core/src/store.rs:391-418 | a first run: one key is made; where nothing fails the daemon serves, with that key and the last document saved on the disk |
| Startup.Daemon.OpenOwn | desktop/core/src/store.rs:420-468 | a loaded identity is served if and only if key and certificate belong together; the key stays, and a refused document too |
| Startup.Daemon.OpenStore | desktop/core/src/store.rs:342-367 | what can be loaded is, what is blank is made, and anything else is refused and left alone, wherever the process dies |
| Startup.Daemon.Start | desktop/daemon/src/main.rs:100-152 | migrate, harden, classify, then create or load: every disk state along the way follows from the last by a safe step, wherever the process dies; serving means a key is in place; where nothing fails, whether the daemon serves, from which identity, with which files on the disk, and whether a key is made, are decided by the disk it finds |
| Startup.ServesAgain | desktop/daemon/src/main.rs:100-152 | a daemon that served once finds its key again at the next start, makes none, and serves exactly if the last document belongs to that key |
| Startup.Daemon.ManyStarts | desktop/daemon/src/main.rs:100-152 | over any number of starts, each dying anywhere and meeting any error: a key in place stays; a usable legacy identity without a canonical one is carried over in one step that brings both copies, and no key is made beside it unless a link to nothing was there; no key is made after an installation, and there is at most one installation |
| Startup.KeyMayBeMadeTwice | desktop/core/src/store.rs:391-418 | a first run that dies after filling the temporary file leaves a disk on which a key may be made again |
| Startup.InstallEndsMaking | desktop/core/src/store.rs:391-418 | in any safe trace no key is made after an installation, and there is one installation at most |
| TrustRules.StatusEqualsHistory | desktop/runtime/src/state.rs:547-563 | a key is unknown exactly when never paired, trusted exactly when a pairing stands, and otherwise revoked until it is paired again |
| TrustRules.AuthorizationEqualsHistory | desktop/runtime/src/state.rs:467-536 | a peer may use a capability exactly when its pairing stands and the last later grant was yes, or, with none, it was mutual and auto-granted at pairing |
| TrustRules.PoliciesEqualHistory | desktop/runtime/src/state.rs:486-536 | a policy answer is the last choice made for a peer the history allows, and denial for any other |
| TrustRules.TrustedAnswer | desktop/runtime/src/state.rs:547-563 | after any history the answer on a trusted key has the id and the name of its standing pairing, and grants exactly what the history allows |
| TrustRules.RecordEqualsHistory | desktop/core/src/store.rs:560-566 | its record is that of the standing pairing |
| TrustRules.HiddenEqualsHistory | desktop/core/src/store.rs:606-650 | a record is hidden if and only if its key was paired, revoked and then hidden, alone or with the others, and not paired since |
| TrustRules.HiddenForgets | desktop/core/src/store.rs:606-650 | a hidden record keeps no name, no id and no grant |
| TrustRules.RunEqualsSurvivors | desktop/core/src/store.rs:560-680 | with any writes failing and any restarts, the file is what the commands make that took hold and were saved, by their own write or a later one, before a restart; memory is what those make together with the ones since the last restart |
| TrustRules.AuthorizationWithFailures | desktop/runtime/src/state.rs:467-536 | after any run at all, authorization is what the history of exactly those commands says |
| TrustRules.FailedRevocation | desktop/core/src/store.rs:568-593 | a revocation that was not written is in force in memory, and after the next restart if and only if some command after it took effect and was written before that restart |
| TrustRules.RestartsAreInvisible | desktop/core/src/store.rs:420-468 | when every write succeeds, memory and file both are what all commands make them, whatever restarts come between |
| TrustRules.AuthorizationOverRuns | desktop/runtime/src/state.rs:467-536 | after any run with successful writes, authorization is what the history says |
| TrustRules.FailedRevocationReturns | desktop/core/src/store.rs:568-593 | hence a restart right after a failed revocation gives the peer back what it was granted |
| TrustRules.ApplyKeepsWellFormed | desktop/core/src/store.rs:560-680 | every command keeps records under their own key, and hidden only if revoked |
| TrustRules.AllowsStep | desktop/runtime/src/server.rs:553-587 | exactly what one more command does to what the history allows |
| TrustStore.DocumentRoundTrip | desktop/core/src/store.rs:420-487 | what was written comes back, in whatever order the records were listed |
| TrustStore.Store.StateDocument | desktop/core/src/store.rs:470-481 | the document lists the records of the map |
| TrustStore.Store.Commit | desktop/core/src/store.rs:658-667 | the new map is kept only if it was written |
| TrustStore.Store.StorePeer | desktop/runtime/src/state.rs:621-667 | pairing replaces the record and grants what is mutual and auto-granted |
| TrustStore.Store.RevokePeer | desktop/core/src/store.rs:568-593 | revocation empties the grants and denies both policies, or reports an unknown key |
| TrustStore.Store.HideRevokedPeer | desktop/core/src/store.rs:606-623 | only a revoked record becomes a tombstone; the four outcomes |
| TrustStore.Store.HideAllRevokedPeers | desktop/core/src/store.rs:635-650 | every revoked and listed record becomes a tombstone, or none does |
| TrustStore.Store.GrantCapability | desktop/runtime/src/server.rs:553-587 | a grant needs a registered capability and a trusted peer |
| TrustStore.Store.SetClipboardPolicy | desktop/core/src/store.rs:687-696 | the policy of a known peer is replaced |
| TrustStore.Store.SetNotificationPolicy | desktop/core/src/store.rs:702-711 | the policy of a known peer is replaced |
| TrustStore.Store.Reload | desktop/core/src/store.rs:420-468 | a restart reads back exactly what the file holds |
| Encodings.HexRoundTrip | desktop/core/src/fingerprint.rs:41-53 | lower-case hex reads back, for every sequence of bytes |
| Encodings.HexExactly | desktop/core/src/fingerprint.rs:41-53 | a text decodes to some bytes if and only if it is their one lower-case encoding |
| Encodings.HexDigits | desktop/core/src/fingerprint.rs:41-53 | each digit has the value it is written with |
| Encodings.Base32RoundTrip | desktop/core/src/pairing.rs:93-105 | unpadded base32 reads back, for every whole number of five-byte groups |
| Encodings.Base32Exactly | desktop/core/src/pairing.rs:93-105 | a text decodes to some bytes if and only if it is their one unpadded upper-case encoding |
| Encodings.Base32Digits | desktop/core/src/pairing.rs:93-105 | each symbol has the value RFC 4648 gives it |
| Pairing.DomainsArePrefixFree | desktop/core/src/profile.rs:81-94 | no two of the four domains agree on a common prefix of full length |
| Pairing.MacMessageIsUnambiguous | desktop/core/src/pairing.rs:132-185 | the MAC input determines profile, purpose, both fingerprints and the nonce, for every nonce |
| Pairing.PairingSession.VerifyAndConsume | desktop/core/src/pairing.rs:257-289 | a proof is confirmed if and only if the window is unused, its time is not over, fewer than three proofs failed, and it is right; a right one uses the window up, a wrong one counts, and a used, late or locked window stays as it is |
| Pairing.PairingDesk.BeginPairing | desktop/runtime/src/state.rs:243-253 | a new window replaces the old one |
| Pairing.PairingDesk.EndPairing | desktop/runtime/src/state.rs:256-259 | no window is left |
| Pairing.PairingDesk.VerifyPairingProof | desktop/runtime/src/state.rs:578-601 | a proof is judged by the window held, which is dropped as soon as it is of no more use |
| PairingRuns.WindowIsSingleUse | desktop/core/src/pairing.rs:204-298 | over every run, a window yields at most one stored peer and at most three comparisons |
| PairingRuns.HeldWindowIsUsable | desktop/runtime/src/state.rs:594-598 | the window the daemon holds is never consumed or exhausted by failures, so neither answer comes out of it |
| PairingRuns.RunKeepsInv | desktop/runtime/src/state.rs:243-259 | over every run, the counts of comparisons and stores tell the whole truth about each window |
| PairingRuns.HeldExactly | desktop/runtime/src/state.rs:243-259 | over every run the daemon holds a window if and only if the history has one that was opened, not closed or replaced, never found late, and met no right proof and fewer than three wrong ones in time; and it is that one |
| PairingRuns.ProofIsJudged | desktop/runtime/src/state.rs:578-601 | the first proof of a connection is compared, found late or refused exactly as that history and the clock say |
| PairingRuns.ComparedInTime | desktop/core/src/pairing.rs:235-289 | every comparison ever logged was made before the end that the opening of its window set, and tells the truth about the proof |
| PairingRuns.StoredExactly | desktop/core/src/session.rs:683-730 | a peer is stored if and only if its connection gave a right proof, in time, for the window held then, and was neither declined nor stored since |
| Qr.ProfileOfScheme | desktop/core/src/qr.rs:143-157 | each profile is selected by its own tag and by no other; another number behind either brand is an unsupported version, and anything else unknown |
| Qr.Parts.Next | desktop/core/src/qr.rs:99-118 | one part of a split into at most five; the last is all that remains |
| Qr.TakeFields | desktop/core/src/qr.rs:92-115 | the fields and the errors, in the order the code checks them |
| Qr.CollectAddresses | desktop/core/src/qr.rs:117-123 | empty and unreadable addresses are dropped, the others keep their order |
| Qr.ParsePayload | desktop/core/src/qr.rs:92-132 | the parser as a whole, as the function of the text the round trip is about |
| Qr.JoinRoundTrip | desktop/core/src/qr.rs:72-76 | a joined list of texts without the separator splits back into itself |
| Qr.QrRoundTrip | desktop/core/src/qr.rs:66-132 | every emitted payload of at most 512 bytes parses to the canonical profile and the same fields, and any longer one is refused |
| Qr.AcceptedExactly | desktop/core/src/qr.rs:92-132 | for every text: it is accepted, as these fields, if and only if it has at most 512 bytes and is the tag of a profile, a fingerprint and a token in their one encoding, a device id, and hints or none |
| Qr.HintsCountAlone | desktop/core/src/qr.rs:117-123 | an address hint that cannot be read costs no other one |
| Qr.AcceptedNamesItsProfile | desktop/core/src/qr.rs:143-157 | whatever is accepted starts with the scheme tag of the profile it yields, and a colon |
| Protocol.NegotiateVersion | desktop/core/src/session.rs:436-444 | the highest version in both ranges, or none exactly if they share none |
| Framing.ByteStream.WriteEnvelope | desktop/core/src/framing.rs:21-37 | a frame is appended whole, nothing when it is too large, and a proper prefix of it when the transport fails under way |
| Framing.ByteStream.ReadExact | desktop/core/src/framing.rs:39-45 | the next bytes, or how the stream ended |
| Framing.ByteStream.ReadEnvelope | desktop/core/src/framing.rs:39-62 | the length is checked before the body is read; each malformed frame, a close and a failing transport have their own error |
| Framing.CutReadsAsPrefix | desktop/core/src/framing.rs:21-62 | any cut of the stream reads back as exactly the frames wholly before it, then as the way the stream ended |
| Framing.StreamRoundTrip | desktop/core/src/framing.rs:21-62 | what was written reads back, in order, then the ending |
| Replay.ReplayGuard.AdmitEnvelope | desktop/core/src/session.rs:409-428 | one admission, checks in the code's order, the oldest id evicted past 1024 |
| Replay.AdmitRefines | desktop/core/src/session.rs:409-428 | the bounded guard answers as the full history does and goes on representing it |
| Replay.GuardRefinesHistory | desktop/core/src/session.rs:393-429 | for every sequence of envelopes, set and queue hold the same distinct ids, at most 1024, those of the last accepted |
| Replay.VerdictIsFreshness | desktop/core/src/session.rs:409-428 | an envelope is admitted exactly when its id has 16 bytes, its sequence exceeds all accepted ones, and its id is not among the last 1024 |
| Replay.NeverTwice | desktop/core/src/session.rs:393-429 | of two copies of one envelope on a connection, however far apart, the guard does not admit both |
| Replay.EnvelopeFactory.Build | desktop/core/src/session.rs:370-380 | sequence numbers go up by one |
| Replay.EnvelopeFactory.BuildReply | desktop/core/src/session.rs:382-386 | the same, with the correlation id set |
| Replay.StampedIsAdmitted | desktop/core/src/session.rs:357-429 | everything one factory stamps, with distinct 16-byte ids, is admitted by a fresh guard |
| Replay.WireRoundTrip | desktop/core/src/framing.rs:21-62 | from one factory through any cut of the byte stream to the guard: a prefix of what was sent, every envelope of which the guard admits |
| Capability.Mutual | desktop/core/src/capability.rs:100-109 | sorted, without repetitions, exactly what is registered and advertised |
| Capability.Negotiate | desktop/core/src/capability.rs:100-109 | filter, sort and dedup compute that list |
| Capability.NegotiationIsSymmetric | desktop/core/src/capability.rs:87-109 | both sides compute the same list |
| Capability.AdvertisingIsASet | desktop/core/src/capability.rs:100-109 | order and repetition in what is advertised do not matter |
| Handshake.ReadHello | desktop/core/src/session.rs:463-487 | what a HELLO must be before the host is asked anything |
| Handshake.OfferPairing | desktop/core/src/session.rs:588-620 | an unknown peer gets a nonce only while a window is open |
| Handshake.ActOnHello | desktop/core/src/session.rs:510-638 | the trust store's three answers and what each leads to, as `HandshakeVerdicts` states it from outside |
| Handshake.AcceptPairing | desktop/core/src/session.rs:642-748 | proof, then the human, then the store, then the answer, then the grants |
| Handshake.AcceptHandshake | desktop/core/src/session.rs:452-639 | the responder's calls and outcome, for any frames and any host answers |
| Handshake.ReadAck | desktop/core/src/session.rs:1177-1197 | what a HELLO_ACK must be before its status counts |
| Handshake.RequestPairing | desktop/core/src/session.rs:1237-1304 | the proof sent; the responder is recorded only after an acceptance with the confirmation of this token, key and nonce |
| Handshake.ConnectHandshake | desktop/core/src/session.rs:1152-1305 | the initiator as the code runs it, with one guard and one factory: its outcome, its one store and the envelopes it sent are those the lemmas on the initiator speak of |
| HandshakeRuns.ResponderIsSafe | desktop/core/src/session.rs:452-748 | against every peer and host: at most two reads, a store only after an open window, a nonce sent, its proof verified and a yes, and a session only for a trusted key or one so stored |
| HandshakeRuns.CapabilitiesAreGranted | desktop/core/src/session.rs:552-558 | a session's capabilities are exactly those registered, advertised and granted at the last lookup |
| HandshakeRuns.ClosedWindowPairsNobody | desktop/core/src/session.rs:528-545 | without trust and without a window there is no session, no second read and no nonce |
| HandshakeRuns.InitiatorIsSafe | desktop/core/src/session.rs:1152-1305 | against every responder and host: a record is made exactly when a fresh acceptance confirmed the token for the nonce of a fresh challenge by the pinned key, and a session exactly when a fresh ack of the pinned key says so or such a record was made |
| HandshakeRuns.RecordIsOfThePin | desktop/core/src/session.rs:1286-1292 | the record is of the pinned key, with the device, version and mutual capabilities of its ack |
| HandshakeRuns.SessionIsWithThePin | desktop/core/src/session.rs:1205-1221 | the session is with the pinned key, at a version this side speaks |
| HandshakeRuns.ResponseIsJudged | desktop/core/src/session.rs:1251-1304 | a response leads to a record if and only if it is fresh, accepts and confirms |
| HandshakeRuns.RequestAnswersAChallenge | desktop/core/src/session.rs:1228-1249 | at most two envelopes go out, and the proof exactly in answer to a whole nonce at a spoken version, when there is a token |
| HandshakeVerdicts.SessionExactly | desktop/core/src/session.rs:452-748 | against every peer and host: the responder has a session if and only if it read a fresh HELLO that states the key of the connection and shares a version, and either the key is trusted and the answer went out, or a window let it pair and proof, human, store and answer all succeeded |
| HandshakeVerdicts.TrustedPeerReturns | desktop/core/src/session.rs:547-584 | a trusted key that comes back has its session exactly when the answer went out, whatever window is or is not open, under the stored id and name, with the granted capabilities, and one `Trusted` ack is all it is sent |
| HandshakeVerdicts.EveryHelloIsAnswered | desktop/core/src/session.rs:452-638 | what a genuine HELLO is answered with, and what the responder reports: no shared version, trusted, revoked, no window, no randomness, or an offer; anything else is not answered |
| HandshakeVerdicts.EveryRequestIsAnswered | desktop/core/src/session.rs:642-748 | the same of a PAIR_REQUEST: each failed verdict, a human's no, a failed store, and the acceptance |
| HandshakeVerdicts.InitiatorReports | desktop/core/src/session.rs:1177-1304 | what the initiator reports for each status of a genuine ack and of a fresh response |
| TwoSided.EndsAgree | desktop/core/src/session.rs:1152-1305 | for every token, window, answer and store: the initiator is connected exactly when the responder is and a stated condition holds, the two then agree on version, profile and each other, and the responder's capabilities are among the initiator's |
| TwoSided.ReadyRunPairs | desktop/core/src/session.rs:452-748 | with the token of an open window, a yes and stores that work, both ends establish, each stores the other, and the window is spent |
| TwoSided.WrongTokenPairsNobody | desktop/core/src/session.rs:683-698 | a token whose proof differs pairs nobody, and neither side stores anything |
| TwoSided.PairingIsBothHalves | desktop/core/src/session.rs:1152-1305 | the two-sided run is the responder of `Respond` and the initiator of `Connect`, each reading what the other wrote |
| TwoSided.EndedIsBothHalves | desktop/core/src/session.rs:452-639 | and so it is when the responder ends after the HELLO |
| TwoSidedVerdicts.TrustedRunConnects | desktop/core/src/session.rs:547-584 | a paired device connects whatever the window, and the ends agree |
| TwoSidedVerdicts.RevokedRun | desktop/core/src/session.rs:520-545 | a revoked key without a window: both ends report that it is not authorized |
| TwoSidedVerdicts.ClosedRun | desktop/core/src/session.rs:588-638 | a key that must pair, without a window: both ends report that there is none, and an initiator without a token that it must pair |
| TwoSidedVerdicts.DeclinedRun | desktop/core/src/session.rs:699-716 | a human's no is what both ends report; nobody stores anything and the token is spent |
| TwoSidedVerdicts.WrongTokenRun | desktop/core/src/session.rs:683-698 | a wrong token is what both ends report; nobody stores anything and the failure is counted |
| SessionLoop.RunKeepsInv | desktop/core/src/session.rs:783-1093 | in every reachable state: queues bounded, frames stamped consecutively in wire order, each outbound queue first-in first-out with nothing lost or repeated, inbound frames in arrival order |
| SessionProgress.NoDeadlock | desktop/core/src/session.rs:794-871 | in every reachable state the tasks have a step exactly when there is work left |
| SessionProgress.StepDescends | desktop/core/src/session.rs:906-1093 | every step of the tasks shrinks a measure, whatever number of replies a handler makes |
| SessionProgress.SessionsSettle | desktop/core/src/session.rs:794-1093 | from every reachable state and under every scheduler the tasks stop, with the session over and torn down or with all queues written out in the order they were filled; which of the two, `SessionDrains.SessionEndsExactly` says, and what was in the queues, `SessionOutput.SessionDelivers` |
| SessionDrains.SessionEndsExactly | desktop/core/src/session.rs:794-1093 | for every run, scheduler and reply: the tasks end the session if and only if the peer was silent too long, the socket failed, a shutdown was asked for, or a frame arrived that is unreadable, of the wrong version or kind, fatal, too large a ping, or not admitted after all before it; when not, everything that arrived was dispatched and all queues are on the wire, in order |
| SessionDrains.EndedExactly | desktop/core/src/session.rs:906-1093 | over every run: a session is over, cleanly or with an error, if and only if an event ended it so: a shutdown, an orderly close or a writer found stopped, against silence, a broken stream, a failed writer or a frame it could not bear |
| SessionOutput.SessionDelivers | desktop/core/src/session.rs:794-1093 | for every session that nothing ended, under every scheduler: in the end the wire holds exactly the greetings and what the handlers answered to each message they were given, what capabilities sent, one pong with its payload for each ping and one error for each message not negotiated, both correlated, what each command asked for, and the probes of the ticks; each in order |
| SessionOutput.NothingUnasked | desktop/core/src/session.rs:906-1093 | in every run, ended or not, the loop has written nothing but responses to frames, in their order, what commands asked for, in theirs, and probes |
| SessionOutput.PromisedIsReplied | desktop/core/src/session.rs:960-990 | in every run the handlers' messages are the greetings and the replies to each wanted and admitted frame, in order |
| SessionOutput.AwaitedExactly | desktop/core/src/session.rs:948-958 | over every run a ping is waited for exactly from being queued until its own pong is admitted or another ping is queued |
| SessionOutput.PeerAdmitsTheWire | desktop/core/src/session.rs:840-871 | from one end to the other: if no id is given twice, the peer's guard admits every frame a session writes, after all that the handshake sent |
| SessionProgress.CleanStopWritesAll | desktop/core/src/session.rs:1103-1116 | a writer that stops by itself has written every frame the loop gave it |
| SessionProgress.DeadWriterEndsSession | desktop/core/src/session.rs:1051-1060 | a writer that failed always ends the session |
| SessionProgress.DispatchedInOrder | desktop/core/src/session.rs:960-990 | handlers get messages in arrival order, of negotiated and registered capabilities only |
| SessionProgress.DispatchedWasGranted | desktop/core/src/session.rs:960-990 | from handshake to handler: only capabilities registered, advertised and granted are ever dispatched |
| ConnectionReplay.NoFrameTwice | desktop/core/src/session.rs:906-932 | in every run of a session all frames acted on since the connection began are different, those of the handshake included, and handlers got exactly what they carry |
| ConnectionReplay.ResponderActsOnce | desktop/core/src/session.rs:452-639 | the same of a whole connection at the responder, from its handshake on |
| ConnectionReplay.InitiatorActsOnce | desktop/core/src/session.rs:1152-1305 | and at the initiator, for whatever its handshake as a whole read |
| Liveness.Watch | desktop/core/src/session.rs:893-923 | for ticks of any phase, the loop reports the silence and the probes the arrivals imply |
| Liveness.SilentPeerIsClosed | desktop/core/src/session.rs:1062-1089 | a silent peer is closed at a silence of at least 180 s and under 195 s, after exactly eight probes, whatever the phase of the ticks |
| Liveness.TalkativePeerStays | desktop/core/src/session.rs:1062-1089 | a peer whose gaps stay under 180 s is never closed for silence, whatever the phase of the ticks |
| Liveness.PromptPeerIsNeverStale | desktop/core/src/session.rs:282-294 | a peer that answers each probe within 14 s is never reported stale, at any moment between ticks |
| ApprovalRules.RunKeepsInv | desktop/runtime/src/approval.rs:164-314 | in every reachable state each waiting question is the one pending under its transfer, queued to the provider attached now |
| ApprovalRules.NoUnaskedYes | desktop/runtime/src/approval.rs:252-314 | `confirm_receive` returns true only unattended, or because exactly one accepting decision took that question's own entry |
| ApprovalRules.YesExactly | desktop/runtime/src/approval.rs:252-314 | on an attended daemon a question is answered yes if and only if a decision to accept took its own entry and it was returned before it was given up |
| ApprovalRules.DecisionIsReturned | desktop/runtime/src/approval.rs:305-314 | what was decided is what is returned, unless the question was given up first |
| ApprovalRules.AskedExactly | desktop/runtime/src/approval.rs:252-303 | a new question is queued, recorded and waits if and only if the daemon is attended and its provider listens with fewer than 32 offers queued; otherwise it is answered at once, with yes only unattended |
| ApprovalRules.WaitsExactly | desktop/runtime/src/approval.rs:164-314 | over every run a question waits exactly from being queued until something takes its entry |
| ApprovalRules.ProviderExactly | desktop/runtime/src/approval.rs:164-191 | over every run the provider is the last to have attached, unless its own epoch was detached, and it listens until it stops |
| ApprovalRules.QueueExactly | desktop/runtime/src/approval.rs:164-303 | over every run a queue holds exactly what was put to its provider and not taken, in order |
| ApprovalRules.DecidedOnce | desktop/runtime/src/approval.rs:198-214 | at most one decision ever reaches a question |
| ApprovalRules.SecondAnswerIsInert | desktop/runtime/src/approval.rs:198-214 | after any run, a second decision on a transfer changes nothing, whatever comes before it, until the transfer is asked about again |
| ApprovalRules.PendingBelongsToProvider | desktop/runtime/src/approval.rs:164-191 | nothing is pending without a provider or towards an earlier one |
| ApprovalRules.StaleDetach | desktop/runtime/src/approval.rs:184-191 | a detach changes nothing if and only if its epoch is not the current one, hence for every stale one within 2^64 attachments |
| Approval.FileApproval.AttachProvider | desktop/runtime/src/approval.rs:164-179 | a new provider declines what the old one was being asked |
| Approval.FileApproval.DetachProvider | desktop/runtime/src/approval.rs:184-191 | only the current epoch detaches |
| Approval.FileApproval.DecideOffer | desktop/runtime/src/approval.rs:198-214 | a decision takes the entry and answers it, or reports an unknown transfer |
| Approval.FileApproval.WithdrawOffer | desktop/runtime/src/approval.rs:217-219 | the entry goes and its question declines |
| Approval.FileApproval.BeginConfirm | desktop/runtime/src/approval.rs:252-303 | an immediate answer, or a question queued and recorded |
| Approval.FileApproval.EndConfirm | desktop/runtime/src/approval.rs:305-314 | the answer, which is yes exactly if the channel says so, and the guard's withdrawal on the way out |
| Approval.FileApproval.AbandonConfirm | desktop/runtime/src/approval.rs:239-249 | a dropped question withdraws itself |
| Approval.ControlSession.TakeOffer | desktop/runtime/src/server.rs:1083-1107 | a live offer goes on screen, an ended one is withdrawn |
| Approval.ControlSession.ApplyFileDecision | desktop/runtime/src/server.rs:1174-1194 | a decision counts only for a prompt this session has on screen |
| Approval.ControlSession.TransferSettled | desktop/runtime/src/server.rs:1128-1144 | a settled transfer takes its prompt down once |
| ApprovalSessions.PromptsBalance | desktop/runtime/src/server.rs:1061-1153 | a session ends a prompt at most as often as it showed it |
| ApprovalSessions.AcceptedWasShown | desktop/runtime/src/server.rs:1061-1194 | on an attended daemon a file is accepted only if its offer was on a screen |
| ApprovalSessions.OneEndingAPrompt | desktop/runtime/src/server.rs:1061-1194 | if each transfer is asked once, its prompt appears at most once, on one screen, and ends at most once, by a decision or by a withdrawal, whatever happens elsewhere while a session holds an offer it has not shown yet |
| ApprovalAnswers.AcceptedExactly | desktop/runtime/src/server.rs:1061-1194 | over every run of an attended daemon a file is accepted if and only if a person accepted it on a prompt that was on the screen of their session, while its question was the one pending, and the question then returned before it timed out |
| ApprovalAnswers.OnScreenExactly | desktop/runtime/src/server.rs:1083-1144 | over every run a prompt is on a screen exactly from being put up until it is answered or settled there |
| ApprovalAnswers.QueuedIsShown | desktop/runtime/src/server.rs:1083-1107 | the first live offer in the queue of a session at rest is what it shows next |
| ApprovalAnswers.WaitsExactly | desktop/runtime/src/server.rs:1061-1160 | over every run a question waits exactly from being put to a window until its prompt is answered, its transfer ends, the window goes or another takes over, or the transfer is asked about again or given up |
| ApprovalAnswers.AskedWindow | desktop/runtime/src/server.rs:1048-1160 | over every run files are asked of the window that connected last, and of none if that one has gone |
| SessionRules.RegisteredIsLast | desktop/runtime/src/state.rs:277-328 | the registered session is exactly the last one inserted, by a whole registration or by its second half, unless that one closed or the peer was dropped since |
| SessionRules.OnceExactly | desktop/runtime/src/renegotiate.rs:141-203 | for every run, with registrations, grants and revocations whole or in halves: each session is asked to end at most once if and only if no grant is ever decided against a session that was asked, whose record is gone, and that lacks what is granted |
| SessionRules.AskedAtMostOnce | desktop/runtime/src/renegotiate.rs:141-203 | enough for it: no record is cleared or replaced while its session is registered or being decided about |
| SessionRules.ForgettingAsksAgain | desktop/runtime/src/state.rs:359-404 | after any run, some next event would ask a session again exactly when one that can be asked was asked, is off the record and lacks a capability |
| SessionRules.LateDecisionAsksTwice | desktop/runtime/src/state.rs:359-404 | a run that asks one session twice: the session is read before a newer one registers and decided on after |
| SessionRules.EarlyClearAsksTwice | desktop/runtime/src/state.rs:281-285 | another: a grant between the clearing of the record and the insertion of the new session |
| SessionRules.LateClearAsksTwice | desktop/runtime/src/server.rs:399-403 | a third: a peer paired anew registers and is granted between the drop of its session and the clearing of the record that end its revocation |
| SessionRules.OneRequestPerSession | desktop/runtime/src/state.rs:359-404 | with fresh session ids, and registration, grant change and the end of a revocation each as one step, every session is asked at most once |
| SessionRules.NeverOnWithdrawal | desktop/runtime/src/renegotiate.rs:141-160 | over every run, each session asked to end was asked by a grant, given, of something it had not negotiated |
| SessionRules.AskedExactly | desktop/runtime/src/renegotiate.rs:141-203 | over every run a session was asked to end if and only if some grant, given, came to be decided against it that it lacked while no request to it was on record |
| SessionRules.OnRecordExactly | desktop/runtime/src/renegotiate.rs:162-203 | over every run a request is on record exactly from the grant that made it until a registration, a clearing, the end of a revocation or another request wipes it |
| SessionRules.ReadingExactly | desktop/runtime/src/state.rs:359-404 | over every run a grant decided later is decided against the session its handler read, once |
| SessionRegistry.Renegotiation.OnGrantChanged | desktop/runtime/src/renegotiate.rs:182-199 | the decision and its record |
| SessionRegistry.Registry.RegisterSession | desktop/runtime/src/state.rs:277-303 | the new session replaces the old one, which is returned |
| SessionRegistry.Registry.UnregisterSession | desktop/runtime/src/state.rs:305-318 | only the session still registered is removed |
| SessionRegistry.Registry.DropSession | desktop/runtime/src/state.rs:320-329 | whatever is registered is removed |
| SessionRegistry.Registry.ForgetPeer | desktop/runtime/src/server.rs:399-403 | the end of a revocation: the session is dropped and the record cleared |
| SessionRegistry.Registry.RenegotiateAfterGrant | desktop/runtime/src/state.rs:359-404 | a widening grant asks the current session to end, once |
| Notifications.PeerRoles.Apply | desktop/core/src/notifications.rs:291-308 | only a newer epoch replaces the roles, by those whose numbers are in the announcement |
| Notifications.RolesByNumber | desktop/core/src/notifications.rs:219-229 | 1 to 4 are source, sink, dismiss target and dismiss reporter; 0 and any other number are no role |
| Notifications.RolesAreOfFirstLargest | desktop/core/src/notifications.rs:291-308 | after any sequence the roles are those of the first announcement with the largest epoch, by their numbers on the wire |
| Notifications.RolesConverge | desktop/core/src/notifications.rs:219-308 | if the announcements of the largest epoch carry one set, reordering and duplication change nothing |
| Notifications.ConsistentAgrees | desktop/core/src/notifications.rs:219-308 | one set an epoch, which is what an honest peer sends, is enough for that |
| Notifications.RolesDependOnOrder | desktop/core/src/notifications.rs:291-308 | order and repetition make no difference if and only if the announcements of the largest epoch agree |
| Notifications.StaleIsInert | desktop/core/src/notifications.rs:291-308 | announcements that are not newer never change anything |
| Notifications.Snapshot.FeedMarker | desktop/core/src/notifications.rs:579-621 | BEGIN opens, END with the same id completes, anything else leaves the bracket alone |
| Notifications.Snapshot.FeedUpsert | desktop/core/src/notifications.rs:624-636 | an upsert is named while a bracket is open |
| Notifications.SnapshotRefinesTrace | desktop/core/src/notifications.rs:551-642 | the state after any trace is the latest BEGIN neither completed nor abandoned, with exactly the ids upserted since |
| Notifications.SnapshotCompletes | desktop/core/src/notifications.rs:579-621 | an END completes if and only if it carries the id of that BEGIN, and hands over exactly those ids |
| Notifications.OnlyEndCompletes | desktop/core/src/notifications.rs:551-642 | nothing else completes a snapshot |

## Left out

- TLS, X.509 and certificate handling: a peer's fingerprint and the profile of a connection are inputs.
- HMAC, SHA-256, random bytes, protobuf and JSON: parameters, see above.
- Power loss that reorders writes: a process may die after any primitive, and flushing is a no-op.
- Symbolic links to directories and concurrent daemons; the parent of the data directory exists.
- `--data-dir`, which bypasses migration, and the copy of the GUI configuration, a weaker form of the same rule.
- Reading a migration record back, status reports, logging and display strings.
- Capability managers for files, clipboard, notifications and battery: only the calls made to them.
- mDNS, listener sockets, the control socket, the GUI and the CLI, including the resolution of a device selector.
- SessionLoop.RunKeepsInv: models the three tasks as steps on a value and not as loops, because they interleave; order is per queue, as in the code, and not across the two queues.
- SessionDrains.SessionEndsExactly: says nothing of messages still in the capability queue when a session is over; the code drops them.
- SessionProgress.CleanStopWritesAll: a drain that times out counts as a failed writer.
- Liveness.SilentPeerIsClosed: ticks are 15 s apart from the first on, which comes before the peer has been silent for a minute; a delayed tick moves the bound by its delay.
- Liveness.PromptPeerIsNeverStale: the first tick comes within the first minute of the session.
- TwoSided.EndsAgree: the link loses nothing and both sides state their own fingerprint; what any link and any peer can do to either half alone is in HandshakeRuns.ResponderIsSafe and HandshakeRuns.InitiatorIsSafe.
- TrustStore.Store.StorePeer: does not model the sanitising of the device name, the platform and the time of pairing, which nothing here reads.
- Startup.Daemon.ManyStarts: a file system that lies about what it stored is covered only as far as the digests read back cover it.
- SessionRules.AskedAtMostOnce: sufficient and not necessary; the exact condition is SessionRules.OnceExactly.
- Startup.Daemon.Start: what happens where nothing fails is stated of disks on which no earlier start left a temporary file that is not private or not a file, and the staging name is free or a directory.
- HandshakeVerdicts.EveryHelloIsAnswered: which error an unreadable, stale or misdirected first frame gives is left to the code's order of checks.
- SessionOutput.SessionDelivers: order is per source, as the code promises it, and not across the two queues.
- Startup.Daemon.RemoveStaleStaging: a leftover that a listing skips, or that cannot be described, stays, as in the code.
- Approval.ControlSession.TakeOffer: one call from the queue to the screen; what may happen in between is in ApprovalSessions, where `Fetch` and `Prompt` are two steps. Shutdown of the control connection is a separate step, which an early return may skip.
- The version stored with a peer for display, and the times at which peers were last seen beyond the session registry.
