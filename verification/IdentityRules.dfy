/**
 What a start of the daemon may do to the identity on disk, and what follows for every run.

 `Safe` names the four kinds of step a start is allowed; the module `Startup` shows that each
 primitive of each start, wherever it dies, is one of them. The lemmas here are about any number of
 such steps, that is, about any number of starts one after the other.
 */
module IdentityRules {
  import opened Prelude
  import opened FileSystem

  const CANONICAL: Text := "pliwee"
  const LEGACY: Text := "omnibridge"
  const STAGING_PREFIX: Text := ".pliwee-migrating-"
  const KEY_FILE: Text := "identity.key"
  const STATE_FILE: Text := "state.json"
  const RECORD_FILE: Text := "MIGRATED_FROM"
  const SCHEMA_VERSION := 2

  /** What classification reads out of `state.json`. */
  datatype StateDocument = StateDocument(schemaVersion: nat, softwareKey: bool, certificateIsBase64: bool)

  /** The JSON parser, SHA-256, and whether the certificate in a document belongs to a key, as functions of the bytes. */
  datatype Environment = Environment(parse: Bytes -> Option<StateDocument>, digest: Bytes -> Text, matches: (Bytes, Bytes) -> bool)

  /** The answers of the `SecretStore` contract. `Absent` is a positive answer. */
  datatype StoreRead = Absent | Found(bytes: Bytes) | NotPrivate | PermissionDenied | IoFailure

  datatype IdentityState = NotCreated | Available | Corrupted | Lost | HardwareUnavailable | TemporarilyUnavailable

  datatype Resolution = Create | Load(stateBytes: Bytes, secret: Bytes) | Refuse(state: IdentityState)

  predicate Readable(env: Environment, stateBytes: Bytes) {
    match env.parse(stateBytes)
    case None => false
    case Some(doc) => doc.schemaVersion <= SCHEMA_VERSION && doc.softwareKey && doc.certificateIsBase64
  }

  function RefuseAccess(r: StoreRead): Resolution {
    match r
    case NotPrivate => Refuse(Corrupted)
    case PermissionDenied => Refuse(Lost)
    case _ => Refuse(TemporarilyUnavailable)
  }

  /** A key may be created from two positive absences only; any doubt about either item refuses. */
  function Classify(env: Environment, state: StoreRead, secret: StoreRead): (r: Resolution)
    ensures r.Create? <==> state.Absent? && secret.Absent?
    ensures r.Load? <==> state.Found? && secret.Found? && Readable(env, state.bytes)
    ensures r.Load? ==> r == Load(state.bytes, secret.bytes)
    ensures (state.Found? && secret.Absent?) || (state.Absent? && secret.Found?) ==> r == Refuse(Lost)
    ensures r == Refuse(TemporarilyUnavailable) <==> state.IoFailure? || (secret.IoFailure? && (state.Absent? || state.Found?))
    ensures r == Refuse(HardwareUnavailable) <==>
      && state.Found? && secret.Found? && env.parse(state.bytes).Some?
      && env.parse(state.bytes).value.schemaVersion <= SCHEMA_VERSION && !env.parse(state.bytes).value.softwareKey
    ensures r.Refuse? ==> r.state != NotCreated && r.state != Available
  {
    if !state.Absent? && !state.Found? then RefuseAccess(state)
    else if !secret.Absent? && !secret.Found? then RefuseAccess(secret)
    else match (state, secret)
      case (Absent, Absent) => Create
      case (Found(_), Absent) => Refuse(Lost)
      case (Absent, Found(_)) => Refuse(Lost)
      case (Found(bytes), Found(key)) =>
        match env.parse(bytes)
        case None => Refuse(Corrupted)
        case Some(doc) =>
          if doc.schemaVersion > SCHEMA_VERSION then Refuse(Corrupted)
          else if !doc.softwareKey then Refuse(HardwareUnavailable)
          else if !doc.certificateIsBase64 then Refuse(Corrupted)
          else Load(bytes, key)
  }

  // ---- the identity on disk -----------------------------------------------------------------

  ghost function Key(d: Disk): Option<Node> {
    FileAt(d, CANONICAL, KEY_FILE)
  }

  ghost function State(d: Disk): Option<Node> {
    FileAt(d, CANONICAL, STATE_FILE)
  }

  ghost predicate IsFile(n: Option<Node>) {
    n.Some? && n.value.Regular?
  }

  /** Nothing a read could return: no entry, or a link to nothing. */
  ghost predicate Nothing(n: Option<Node>) {
    n in {None, Some(Dangling)}
  }

  /** The canonical directory holds either identity file. */
  ghost predicate HoldsIdentity(d: Disk) {
    Key(d).Some? || State(d).Some?
  }

  ghost predicate LegacyEmpty(d: Disk) {
    && (LEGACY in d ==> d[LEGACY].Directory?)
    && Nothing(FileAt(d, LEGACY, KEY_FILE))
    && Nothing(FileAt(d, LEGACY, STATE_FILE))
  }

  /** The directory holds an identity the store would load: a private key beside a document it understands. */
  ghost predicate CanLoad(env: Environment, dir: Text, d: Disk) {
    && IsFile(FileAt(d, dir, KEY_FILE)) && !FileAt(d, dir, KEY_FILE).value.loose
    && IsFile(FileAt(d, dir, STATE_FILE)) && Readable(env, FileAt(d, dir, STATE_FILE).value.bytes)
  }

  /** The legacy directory is private and holds an identity the store would load. */
  ghost predicate LegacyUsable(env: Environment, d: Disk) {
    LEGACY in d && d[LEGACY].Directory? && !d[LEGACY].loose && CanLoad(env, LEGACY, d)
  }

  /** The only disks on which a start may make a new key. */
  ghost predicate MayCreate(d: Disk) {
    Nothing(Key(d)) && Nothing(State(d)) && (HoldsIdentity(d) || LegacyEmpty(d))
  }

  /** The canonical name is free, or an empty directory that a rename may replace. */
  ghost predicate IsVacant(d: Disk) {
    CANONICAL in d ==> d[CANONICAL].Directory? && d[CANONICAL].files == map[]
  }

  // ---- what a start does where nothing fails ------------------------------------------------

  datatype Origin = Existing | Migrated | NoLegacyState

  /** Where the identity comes from, or nothing if migration refuses. */
  ghost function OriginOf(env: Environment, d: Disk): Option<Origin> {
    if CANONICAL in d && d[CANONICAL].NotDirectory? then None
    else if HoldsIdentity(d) then Some(Existing)
    else if LEGACY !in d then Some(NoLegacyState)
    else if d[LEGACY].NotDirectory? || d[LEGACY].loose then None
    else if LegacyEmpty(d) then Some(NoLegacyState)
    else if LegacyUsable(env, d) && IsVacant(d) then Some(Migrated)
    else None
  }

  datatype Plan = UseOwn | TakeLegacy | MakeNew | GiveUp

  /** What becomes of a start, from the disk it finds. */
  ghost function PlanOf(env: Environment, d: Disk): Plan {
    match OriginOf(env, d)
    case None => GiveUp
    case Some(Migrated) => TakeLegacy
    case Some(_) =>
      if CanLoad(env, CANONICAL, d) then UseOwn
      else if Nothing(Key(d)) && Nothing(State(d)) then MakeNew
      else GiveUp
  }

  /** `copy` is what a migration may put in place of `source`. */
  ghost predicate CopyOf(env: Environment, honest: bool, copy: Option<Node>, source: Option<Node>) {
    && IsFile(copy) && IsFile(source) && !copy.value.loose
    && env.digest(copy.value.bytes) == env.digest(source.value.bytes)
    && (honest ==> copy.value.bytes == source.value.bytes)
  }

  // ---- the four kinds of step ---------------------------------------------------------------

  ghost predicate Quiet(d: Disk, d': Disk) {
    Key(d') == Key(d) && State(d') == State(d)
  }

  /** One step from no identity to a whole copy of the legacy one. */
  ghost predicate Publish(env: Environment, honest: bool, d: Disk, d': Disk) {
    && !HoldsIdentity(d) && LegacyUsable(env, d)
    && CopyOf(env, honest, Key(d'), FileAt(d, LEGACY, KEY_FILE))
    && CopyOf(env, honest, State(d'), FileAt(d, LEGACY, STATE_FILE))
  }

  /** A new key reaches its final name; the state document does not exist yet. */
  ghost predicate Install(d: Disk, d': Disk) {
    MayCreate(d) && IsFile(Key(d')) && State(d') == State(d)
  }

  /** The state document is replaced, beside a key that is there and stays. */
  ghost predicate Persist(env: Environment, honest: bool, d: Disk, d': Disk) {
    && MayPersist(env, honest, d)
    && Key(d') == Key(d) && IsFile(State(d'))
  }

  ghost predicate MayPersist(env: Environment, honest: bool, d: Disk) {
    && IsFile(Key(d))
    && (honest && IsFile(State(d)) ==> Readable(env, State(d).value.bytes))
    && (State(d).Some? ==> !State(d).value.Subdirectory?)
  }

  ghost predicate Safe(env: Environment, honest: bool, d: Disk, d': Disk) {
    && EntryAt(d', LEGACY) == EntryAt(d, LEGACY)
    && (Quiet(d, d') || Publish(env, honest, d, d') || Install(d, d') || Persist(env, honest, d, d'))
  }

  ghost predicate AllSafe(env: Environment, honest: bool, t: seq<Disk>) {
    forall i :: 0 <= i < |t| - 1 ==> Safe(env, honest, t[i], t[i + 1])
  }

  // ---- what holds of every run ---------------------------------------------------------------

  /** The legacy entry is never written: not its files, not its mode, not its existence. */
  lemma {:induction false} LegacyNeverChanges(env: Environment, honest: bool, t: seq<Disk>, i: nat, j: nat)
    requires AllSafe(env, honest, t) && i <= j < |t|
    ensures EntryAt(t[j], LEGACY) == EntryAt(t[i], LEGACY)
    decreases j - i
  {
    if i < j {
      assert Safe(env, honest, t[i], t[i + 1]);
      LegacyNeverChanges(env, honest, t, i + 1, j);
    }
  }

  /** A key, once in place, is there for good, byte for byte. */
  lemma {:induction false} KeyNeverReplaced(env: Environment, honest: bool, t: seq<Disk>, i: nat, j: nat)
    requires AllSafe(env, honest, t) && i <= j < |t|
    requires IsFile(Key(t[i]))
    ensures Key(t[j]) == Key(t[i])
    decreases j - i
  {
    if i < j {
      assert Safe(env, honest, t[i], t[i + 1]);
      KeyNeverReplaced(env, honest, t, i + 1, j);
    }
  }

  /** Over all runs at most one key is ever installed. */
  lemma {:induction false} KeyInstalledOnce(env: Environment, honest: bool, t: seq<Disk>, i: nat, j: nat)
    requires AllSafe(env, honest, t) && i < |t| - 1 && j < |t| - 1
    requires Install(t[i], t[i + 1]) && Install(t[j], t[j + 1])
    ensures i == j
  {
    if i < j {
      KeyNeverReplaced(env, honest, t, i + 1, j);
    } else if j < i {
      KeyNeverReplaced(env, honest, t, j + 1, i);
    }
  }

  /**
   A start may make a key on a disk exactly as long as none has been installed. Dying between making
   a key and giving it its final name discards it, so a later start may make another; dying after
   does not.
   */
  lemma {:induction false} CreationEndsWithInstall(env: Environment, honest: bool, t: seq<Disk>, i: nat, j: nat)
    requires AllSafe(env, honest, t) && i <= j < |t|
    requires MayCreate(t[i])
    ensures MayCreate(t[j]) <==> forall k :: i <= k < j ==> !Install(t[k], t[k + 1])
    decreases j - i
  {
    if i < j {
      assert Safe(env, honest, t[i], t[i + 1]);
      if Install(t[i], t[i + 1]) {
        KeyNeverReplaced(env, honest, t, i + 1, j);
      } else {
        CreationEndsWithInstall(env, honest, t, i + 1, j);
      }
    }
  }

  /** Until a step other than a quiet one, a disk without identity beside a usable legacy one stays so. */
  lemma {:induction false} FirstIdentity(env: Environment, honest: bool, t: seq<Disk>, from: nat) returns (k: nat)
    requires AllSafe(env, honest, t) && from < |t|
    requires LegacyUsable(env, t[from]) && !HoldsIdentity(t[from])
    ensures from < k <= |t|
    ensures forall i :: from <= i < k ==> !HoldsIdentity(t[i])
    ensures k < |t| ==> Publish(env, honest, t[k - 1], t[k])
    decreases |t| - from
  {
    if from + 1 == |t| {
      k := |t|;
    } else {
      assert Safe(env, honest, t[from], t[from + 1]);
      if HoldsIdentity(t[from + 1]) {
        k := from + 1;
      } else {
        k := FirstIdentity(env, honest, t, from + 1);
      }
    }
  }

  /**
   The upgrade guarantee. If the legacy directory holds a usable identity and the canonical one none,
   then over any number of starts the canonical directory has no identity up to one step `k`, and
   that step puts copies of both legacy files there; the key never changes again, and no disk along
   the way lets a start make a key of its own.
   */
  lemma {:induction false} LegacyIdentityIsCarriedOver(env: Environment, honest: bool, t: seq<Disk>) returns (k: nat)
    requires AllSafe(env, honest, t) && |t| > 0
    requires LegacyUsable(env, t[0]) && !HoldsIdentity(t[0])
    ensures k <= |t| && forall i :: 0 <= i < k ==> !HoldsIdentity(t[i])
    ensures k < |t| ==> CopyOf(env, honest, Key(t[k]), FileAt(t[0], LEGACY, KEY_FILE))
    ensures k < |t| ==> CopyOf(env, honest, State(t[k]), FileAt(t[0], LEGACY, STATE_FILE))
    ensures forall i :: k <= i < |t| ==> Key(t[i]) == Key(t[k])
    ensures forall i :: 0 <= i < |t| ==> EntryAt(t[i], LEGACY) == EntryAt(t[0], LEGACY) && !MayCreate(t[i])
  {
    k := FirstIdentity(env, honest, t, 0);
    forall i | 0 <= i < |t|
      ensures EntryAt(t[i], LEGACY) == EntryAt(t[0], LEGACY) && !MayCreate(t[i])
      ensures k <= i ==> Key(t[i]) == Key(t[k])
    {
      LegacyNeverChanges(env, honest, t, 0, i);
      if k <= i {
        KeyNeverReplaced(env, honest, t, k, i);
      }
    }
    if k < |t| {
      LegacyNeverChanges(env, honest, t, 0, k - 1);
    }
  }

  /** A canonical identity file is a link to nothing. */
  ghost predicate LinksToNothing(d: Disk) {
    Key(d) == Some(Dangling) || State(d) == Some(Dangling)
  }

  /**
   Beside a usable legacy identity a key may be made exactly when the canonical directory holds no
   identity but a link to nothing: migration takes the link for an identity, and the store for none.
   */
  lemma OnlyALinkShadowsLegacy(env: Environment, d: Disk)
    requires LegacyUsable(env, d)
    ensures MayCreate(d) <==> Nothing(Key(d)) && Nothing(State(d)) && LinksToNothing(d)
  {
  }

  /** Without such a link at the start there never is one, and no key is ever made. */
  lemma {:induction false} NoLinkNoKey(env: Environment, honest: bool, t: seq<Disk>, i: nat)
    requires AllSafe(env, honest, t) && i < |t|
    requires LegacyUsable(env, t[0]) && !LinksToNothing(t[0])
    ensures LegacyUsable(env, t[i]) && !LinksToNothing(t[i]) && !MayCreate(t[i])
  {
    if i > 0 {
      NoLinkNoKey(env, honest, t, i - 1);
      assert Safe(env, honest, t[i - 1], t[i]);
    }
    OnlyALinkShadowsLegacy(env, t[i]);
  }

  /** A state document is never replaced without being readable first, unless the disk lies. */
  lemma {:induction false} UnreadableStateIsKept(env: Environment, t: seq<Disk>, i: nat, j: nat)
    requires AllSafe(env, true, t) && i <= j < |t|
    requires IsFile(State(t[i])) && !Readable(env, State(t[i]).value.bytes)
    ensures State(t[j]) == State(t[i])
    decreases j - i
  {
    if i < j {
      assert Safe(env, true, t[i], t[i + 1]);
      UnreadableStateIsKept(env, t, i + 1, j);
    }
  }
}
