/**
 A start of the daemon: carry a legacy identity over, then open the store.

 The methods follow the code primitive by primitive. `Valid` says that every step any of them has
 ever taken on the disk is one of the four kinds of `IdentityRules.Safe`, so it holds wherever the
 process dies, and every lemma about safe runs applies to the recorded trace.
 */
module Startup {
  import opened Prelude
  import opened FileSystem
  import opened IdentityRules

  const KEY_TEMPORARY: Text := "identity.tmp"
  const STATE_TEMPORARY: Text := "state.tmp"

  /** What one start brings along: its staging name, the record, a key and the documents it writes. */
  datatype Inputs = Inputs(staging: Text, record: Bytes, secret: Bytes, document: Bytes, saves: seq<Bytes>)

  ghost predicate Proper(env: Environment, x: Inputs) {
    && IsStaging(x.staging) && Readable(env, x.document)
    && forall i :: 0 <= i < |x.saves| ==> Readable(env, x.saves[i])
  }

  datatype Started = Serving | Refused

  predicate IsStaging(name: Text) {
    STAGING_PREFIX <= name
  }

  lemma StagingIsElsewhere(name: Text)
    requires IsStaging(name)
    ensures name != CANONICAL && name != LEGACY
  {
    assert name[0] == '.';
  }

  /** `disk` once the staging directory is ready to take the canonical name. */
  ghost predicate Staged(env: Environment, honest: bool, d: Disk, staging: Text, identity: Bytes, state: Bytes) {
    && IsDir(d, staging) && !d[staging].loose
    && FileAt(d, staging, KEY_TEMPORARY) == None && FileAt(d, staging, STATE_TEMPORARY) == None
    && CopyOf(env, honest, FileAt(d, staging, KEY_FILE), Some(Regular(identity, false)))
    && CopyOf(env, honest, FileAt(d, staging, STATE_FILE), Some(Regular(state, false)))
  }

  /** A name a temporary file can be written to and be private. */
  ghost predicate IsTidy(n: Option<Node>) {
    n.None? || (n.value.Regular? && !n.value.loose)
  }

  /** Nothing of an earlier start is in the way of this one: the temporary names and the staging name. */
  ghost predicate Tidy(d: Disk) {
    IsTidy(FileAt(d, CANONICAL, KEY_TEMPORARY)) && IsTidy(FileAt(d, CANONICAL, STATE_TEMPORARY))
  }

  ghost predicate StagingIsFree(d: Disk, staging: Text) {
    staging in d ==> IsDir(d, staging)
  }

  function Last(document: Bytes, saves: seq<Bytes>): Bytes {
    if saves == [] then document else saves[|saves| - 1]
  }

  /** No identity that could be read, and none that must not be overwritten. */
  ghost predicate Blank(d: Disk) {
    Nothing(Key(d)) && Nothing(State(d))
  }

  /** The store was opened on an identity that could be loaded. */
  ghost predicate OpenedOwn(env: Environment, d: Disk, x: Inputs, d': Disk, r: Started)
    requires CanLoad(env, CANONICAL, d)
  {
    && Key(d') == Key(d)
    && (r == Serving <==> env.matches(State(d).value.bytes, Key(d).value.bytes))
    && (r == Refused || x.saves == [] ==> State(d') == State(d))
  }

  /** The store was opened on a new identity. */
  ghost predicate OpenedNew(x: Inputs, d': Disk, r: Started) {
    && r == Serving && Key(d') == Some(Regular(x.secret, false))
    && State(d') == Some(Regular(Last(x.document, x.saves), false))
  }

  /** A start from disk `d` to `d'`, with or without making a key, went as it should where nothing fails. */
  ghost predicate WentWell(env: Environment, d: Disk, x: Inputs, d': Disk, r: Started, making: bool) {
    match PlanOf(env, d)
    case UseOwn =>
      && !making && OpenedOwn(env, d, x, d', r)
      && (r == Serving ==> IsFile(State(d')) && State(d').value.bytes == Last(State(d).value.bytes, x.saves))
    case TakeLegacy =>
      && CopyOf(env, true, Key(d'), FileAt(d, LEGACY, KEY_FILE)) && !making
      && (r == Serving <==> env.matches(FileAt(d, LEGACY, STATE_FILE).value.bytes, FileAt(d, LEGACY, KEY_FILE).value.bytes))
      && IsFile(State(d'))
      && State(d').value.bytes == Last(FileAt(d, LEGACY, STATE_FILE).value.bytes, if r == Serving then x.saves else [])
    case MakeNew => making && OpenedNew(x, d', r)
    case GiveUp => r == Refused && !making && Quiet(d, d')
  }

  /**
   A daemon that served once serves again: where nothing fails, the next start finds the same key, makes
   none, and serves exactly if the last document saved belongs to that key.
   */
  lemma ServesAgain(env: Environment, d: Disk, x: Inputs, d': Disk, making: bool, x': Inputs, d'': Disk, r': Started, making': bool)
    requires Proper(env, x) && WentWell(env, d, x, d', Serving, making) && WentWell(env, d', x', d'', r', making')
    ensures IsFile(Key(d')) && IsFile(State(d')) && Key(d'') == Key(d') && !making'
    ensures r' == Serving <==> env.matches(State(d').value.bytes, Key(d').value.bytes)
  {
    assert CanLoad(env, CANONICAL, d');
  }

  /** A step that stays outside both identity directories is a quiet one. */
  lemma StepAside(env: Environment, honest: bool, t: seq<Disk>, t': seq<Disk>, name: Text)
    requires |t| > 0 && AllSafe(env, honest, t) && name != CANONICAL && name != LEGACY
    requires t' == t || (|t'| == |t| + 1 && t' == t + [t'[|t|]] && OnlyAt(t[|t| - 1], t'[|t|], name))
    ensures AllSafe(env, honest, t') && t <= t'
  {
    if t' != t {
      var d, d' := t[|t| - 1], t'[|t|];
      assert EntryAt(d', CANONICAL) == EntryAt(d, CANONICAL);
      assert Safe(env, honest, d, d');
      SafeExtends(env, honest, t, d');
    }
  }

  ghost predicate SameFiles(d: Disk, d': Disk) {
    forall n :: FileAt(d', CANONICAL, n) == FileAt(d, CANONICAL, n)
  }

  ghost predicate SameBeside(d: Disk, d': Disk, name: Text) {
    forall n :: n != name ==> FileAt(d', CANONICAL, n) == FileAt(d, CANONICAL, n)
  }

  /** Touching a file of the canonical directory that is neither identity file is a quiet step. */
  lemma StepBeside(env: Environment, honest: bool, t: seq<Disk>, t': seq<Disk>, name: Text)
    requires |t| > 0 && AllSafe(env, honest, t) && name != KEY_FILE && name != STATE_FILE
    requires t' == t || (|t'| == |t| + 1 && t' == t + [t'[|t|]] && OnlyAt(t[|t| - 1], t'[|t|], CANONICAL))
    requires SameBeside(t[|t| - 1], t'[|t'| - 1], name)
    ensures AllSafe(env, honest, t') && t <= t'
  {
    if t' != t {
      var d, d' := t[|t| - 1], t'[|t|];
      assert EntryAt(d', LEGACY) == EntryAt(d, LEGACY);
      assert Quiet(d, d');
      SafeExtends(env, honest, t, d');
    }
  }

  /** So is any step that leaves the legacy entry and both identity files. */
  lemma StepQuietly(env: Environment, honest: bool, t: seq<Disk>, t': seq<Disk>)
    requires |t| > 0 && AllSafe(env, honest, t) && (t' == t || (|t'| == |t| + 1 && t' == t + [t'[|t|]]))
    requires var d, d' := t[|t| - 1], t'[|t'| - 1]; Quiet(d, d') && EntryAt(d', LEGACY) == EntryAt(d, LEGACY)
    ensures AllSafe(env, honest, t') && t <= t'
  {
    if t' != t {
      SafeExtends(env, honest, t, t'[|t|]);
    }
  }

  lemma SafeExtends(env: Environment, honest: bool, t: seq<Disk>, d: Disk)
    requires |t| > 0 && AllSafe(env, honest, t) && Safe(env, honest, t[|t| - 1], d)
    ensures AllSafe(env, honest, t + [d])
  {
  }

  /** A key made from `from` on was made on some disk that allowed it. */
  lemma MadeSomewhere(t: seq<Disk>, from: nat, before: seq<nat>, after: seq<nat>)
    requires before <= after
    requires forall n :: n in after ==> n < |t| && MayCreate(t[n])
    requires forall k :: |before| <= k < |after| ==> from <= after[k]
    ensures after == before || exists i :: from <= i < |t| && MayCreate(t[i])
  {
    if |before| < |after| {
      var i := after[|before|];
      assert i in after && MayCreate(t[i]);
    }
  }

  lemma SafeSuffix(env: Environment, honest: bool, t: seq<Disk>, from: nat)
    requires AllSafe(env, honest, t) && from <= |t|
    ensures AllSafe(env, honest, t[from..])
  {
    forall i | 0 <= i < |t[from..]| - 1
      ensures Safe(env, honest, t[from..][i], t[from..][i + 1])
    {
      assert Safe(env, honest, t[from + i], t[from + i + 1]);
    }
  }

  /** Step `i` of the trace gives a new key its final name. */
  ghost predicate Installs(t: seq<Disk>, i: int) {
    0 <= i < |t| - 1 && Install(t[i], t[i + 1])
  }

  /**
   From `from` on there is no identity before `k`, and step `k`, if it comes, puts copies of both legacy
   files there at once; the key then stays.
   */
  ghost predicate CarriedOverAt(env: Environment, honest: bool, t: seq<Disk>, from: int, k: nat) {
    && 0 <= from < k <= |t|
    && (forall i :: from <= i < k ==> !HoldsIdentity(t[i]))
    && (k < |t| ==>
          && CopyOf(env, honest, Key(t[k]), FileAt(t[from], LEGACY, KEY_FILE))
          && CopyOf(env, honest, State(t[k]), FileAt(t[from], LEGACY, STATE_FILE))
          && forall i :: k <= i < |t| ==> Key(t[i]) == Key(t[k]))
  }

  ghost predicate CarriedOverSince(env: Environment, honest: bool, t: seq<Disk>, from: int) {
    exists k: nat :: CarriedOverAt(env, honest, t, from, k)
  }

  lemma CarriedOver(env: Environment, honest: bool, t: seq<Disk>, from: nat) returns (k: nat)
    requires AllSafe(env, honest, t) && from < |t| && LegacyUsable(env, t[from]) && !HoldsIdentity(t[from])
    ensures CarriedOverAt(env, honest, t, from, k)
    ensures forall i :: from <= i < |t| ==> !MayCreate(t[i])
  {
    SafeSuffix(env, honest, t, from);
    var u := t[from..];
    var m := LegacyIdentityIsCarriedOver(env, honest, u);
    assert m > 0;
    k := from + m;
    assert forall i :: from <= i < |t| ==> t[i] == u[i - from];
  }

  /** No key is made after one was installed, and only one ever is. */
  lemma InstallEndsMaking(env: Environment, honest: bool, t: seq<Disk>, made: seq<nat>)
    requires AllSafe(env, honest, t) && forall n :: n in made ==> n < |t| && MayCreate(t[n])
    ensures forall i, n :: 0 <= i < n && n in made ==> !Installs(t, i)
    ensures forall i, j :: Installs(t, i) && Installs(t, j) ==> i == j
  {
    forall i, n | 0 <= i < n && n in made
      ensures !Installs(t, i)
    {
      if Installs(t, i) {
        KeyNeverReplaced(env, honest, t, i + 1, n);
        assert false;
      }
    }
    forall i, j | Installs(t, i) && Installs(t, j)
      ensures i == j
    {
      KeyInstalledOnce(env, honest, t, i, j);
    }
  }

  /**
   That a key is made at most once is false. On a first run the process may die after filling the
   temporary file: the next start finds no identity, may make a key, and every step was safe.
   */
  lemma KeyMayBeMadeTwice(env: Environment, honest: bool, secret: Bytes)
    ensures var d := map[CANONICAL := Directory(false, map[])];
            var d' := WithFile(d, CANONICAL, KEY_TEMPORARY, Regular(secret, false));
            AllSafe(env, honest, [d, d']) && MayCreate(d) && MayCreate(d') && !Installs([d, d'], 0)
  {
    var d := map[CANONICAL := Directory(false, map[])];
    var d' := WithFile(d, CANONICAL, KEY_TEMPORARY, Regular(secret, false));
    assert KEY_TEMPORARY[9] == 't' && KEY_FILE[9] == 'k' && STATE_FILE[0] == 's';
    assert CANONICAL[0] == 'p' && LEGACY[0] == 'o';
    assert Quiet(d, d');
  }

  class Daemon {
    const machine: Machine
    const env: Environment
    /** Where in the trace a key was made. */
    ghost var made: seq<nat>

    ghost predicate Valid()
      reads this, machine
    {
      && machine.Recorded()
      && AllSafe(env, machine.honest, machine.trace)
      && (forall n :: n in made ==> n < |machine.trace| && MayCreate(machine.trace[n]))
    }

    /** What every part of a start keeps, over all the steps it takes. */
    twostate predicate Kept()
      reads this, machine
    {
      && Valid()
      && old(machine.trace) <= machine.trace
      && made == old(made)
    }

    constructor (machine: Machine, env: Environment)
      requires machine.Recorded() && |machine.trace| == 1
      ensures Valid() && this.machine == machine && this.env == env && made == []
    {
      this.machine, this.env, made := machine, env, [];
    }

    // ---- migration --------------------------------------------------------------------------

    /** Whether the canonical directory holds either identity file; doubt is an error. */
    method HoldsEither() returns (r: Result<bool, ()>)
      modifies machine`alive
      ensures r.Ok? ==> r.value == HoldsIdentity(machine.disk) && (CANONICAL in machine.disk ==> machine.disk[CANONICAL].Directory?)
      ensures old(machine.Sure()) ==> machine.Sure() && (r.Err? ==> CANONICAL in machine.disk && machine.disk[CANONICAL].NotDirectory?)
    {
      var names := [KEY_FILE, STATE_FILE];
      for i := 0 to |names|
        invariant old(machine.Sure()) ==> machine.Sure()
        invariant forall j :: 0 <= j < i ==> FileAt(machine.disk, CANONICAL, names[j]) == None
        invariant i > 0 ==> CANONICAL in machine.disk ==> machine.disk[CANONICAL].Directory?
      {
        var found := machine.LstatFile(CANONICAL, names[i]);
        match found {
          case Present =>
            assert names[i] == KEY_FILE || names[i] == STATE_FILE;
            return Ok(true);
          case Missing =>
          case Unknown => return Err(());
        }
      }
      assert names[0] == KEY_FILE && names[1] == STATE_FILE;
      r := Ok(false);
    }

    /** One item of a `SecretStore`; `private` is checked for the key and not for the document. */
    method ReadItem(dir: Text, name: Text, private: bool) returns (r: StoreRead)
      modifies machine`alive
      ensures r.Absent? ==> Nothing(FileAt(machine.disk, dir, name))
      ensures r.Found? ==> IsFile(FileAt(machine.disk, dir, name)) && FileAt(machine.disk, dir, name).value.bytes == r.bytes
      ensures r.Found? && private ==> !FileAt(machine.disk, dir, name).value.loose
      ensures old(machine.Sure()) ==> machine.Sure()
      ensures old(machine.Sure()) && IsFile(FileAt(machine.disk, dir, name))
              && (private ==> !FileAt(machine.disk, dir, name).value.loose)
              ==> r.Found?
      ensures old(machine.Sure()) && (dir in machine.disk ==> machine.disk[dir].Directory?)
              && Nothing(FileAt(machine.disk, dir, name))
              ==> r.Absent?
    {
      var presence := machine.TryExists(dir, name);
      match presence {
        case Missing => return Absent;
        case Unknown => return IoFailure;
        case Present =>
      }
      if private {
        var mode := machine.FileMode(dir, name);
        if mode.None? {
          return IoFailure;
        } else if mode.value {
          return NotPrivate;
        }
      }
      var read := machine.ReadFile(dir, name);
      match read {
        case Contents(bytes) => r := Found(bytes);
        case Vanished => r := IoFailure;
        case Denied => r := PermissionDenied;
        case ReadFailed => r := IoFailure;
      }
    }

    /** The classification of the identity in `dir`, from what could be read of it. */
    method Probe(dir: Text) returns (r: Resolution)
      modifies machine`alive
      ensures r.Create? ==> Nothing(FileAt(machine.disk, dir, KEY_FILE)) && Nothing(FileAt(machine.disk, dir, STATE_FILE))
      ensures r.Load? ==> CanLoad(env, dir, machine.disk)
      ensures r.Load? ==> r.stateBytes == FileAt(machine.disk, dir, STATE_FILE).value.bytes && r.secret == FileAt(machine.disk, dir, KEY_FILE).value.bytes
      ensures old(machine.Sure()) ==> machine.Sure() && (CanLoad(env, dir, machine.disk) ==> r.Load?)
      ensures old(machine.Sure()) && (dir in machine.disk ==> machine.disk[dir].Directory?)
              && Nothing(FileAt(machine.disk, dir, KEY_FILE)) && Nothing(FileAt(machine.disk, dir, STATE_FILE))
              ==> r.Create?
    {
      var state := ReadItem(dir, STATE_FILE, false);
      var secret := ReadItem(dir, KEY_FILE, true);
      r := Classify(env, state, secret);
    }

    /** Takes the files of a directory of ours away, one by one. */
    method RemoveFiles(name: Text) returns (ok: bool)
      requires Valid() && IsStaging(name) && IsDir(machine.disk, name)
      modifies machine
      ensures Kept() && OnlyAt(old(machine.disk), machine.disk, name) && machine.unseen == old(machine.unseen)
      ensures IsDir(machine.disk, name) && (ok ==> machine.disk[name].files == map[])
      ensures old(machine.Sure()) ==> machine.Sure() && ok
    {
      StagingIsElsewhere(name);
      ok := true;
      var todo := machine.disk[name].files.Keys;
      while todo != {}
        invariant Kept() && OnlyAt(old(machine.disk), machine.disk, name) && machine.unseen == old(machine.unseen)
        invariant IsDir(machine.disk, name) && machine.disk[name].files.Keys == todo
        invariant ok && (old(machine.Sure()) ==> machine.Sure())
        decreases |todo|
      {
        var file :| file in todo;
        todo := todo - {file};
        ghost var t := machine.trace;
        ok := machine.RemoveFile(name, file);
        StepAside(env, machine.honest, t, machine.trace, name);
        if !ok {
          return;
        }
      }
    }

    /** Removes a directory of ours. */
    method RemoveTree(name: Text) returns (ok: bool)
      requires Valid() && IsStaging(name)
      modifies machine
      ensures Kept() && OnlyAt(old(machine.disk), machine.disk, name) && machine.unseen == old(machine.unseen)
      ensures ok ==> name !in machine.disk
      ensures IsDir(old(machine.disk), name) && name in machine.disk ==> IsDir(machine.disk, name)
      ensures name !in old(machine.disk) ==> machine.disk == old(machine.disk)
      ensures old(machine.Sure()) ==> machine.Sure() && (IsDir(old(machine.disk), name) ==> ok)
    {
      StagingIsElsewhere(name);
      if name !in machine.disk || machine.disk[name].NotDirectory? {
        return false;
      }
      ok := RemoveFiles(name);
      if ok {
        ghost var t := machine.trace;
        ok := machine.RemoveDirectory(name);
        StepAside(env, machine.honest, t, machine.trace, name);
      }
    }

    /** Every leftover directory is still to be looked at, or was passed over unseen. */
    ghost predicate Cleared(todo: set<Text>)
      reads machine
    {
      forall n :: IsStaging(n) && IsDir(machine.disk, n) ==> n in todo || n in machine.unseen
    }

    /** One staging name: removed if it is seen to be a directory, left alone otherwise. */
    method RemoveLeftover(name: Text, ghost todo: set<Text>) returns (ok: bool)
      requires Valid() && IsStaging(name) && Cleared(todo + {name})
      modifies machine
      ensures Kept() && OnlyAt(old(machine.disk), machine.disk, name)
      ensures ok ==> Cleared(todo)
      ensures name in machine.disk ==> EntryAt(machine.disk, name) == EntryAt(old(machine.disk), name) || IsDir(machine.disk, name)
      ensures old(machine.Sure()) ==> machine.Sure() && ok && machine.unseen == old(machine.unseen)
    {
      ok := true;
      var stat := machine.StatEntry(name);
      if stat.IsDirectory? {
        ok := RemoveTree(name);
        assert forall n :: n != name && IsDir(machine.disk, n) ==> EntryAt(machine.disk, n) == EntryAt(old(machine.disk), n);
      }
    }

    /**
     Removes what a migration that died left beside the canonical directory; `unseen` is what this very
     call could not see.
     */
    method RemoveStaleStaging() returns (ok: bool)
      requires Valid()
      modifies machine
      ensures Kept()
      ensures forall n :: !IsStaging(n) ==> EntryAt(machine.disk, n) == EntryAt(old(machine.disk), n)
      ensures forall n :: n in machine.disk ==> EntryAt(machine.disk, n) == EntryAt(old(machine.disk), n) || IsDir(machine.disk, n)
      ensures ok ==> Cleared({})
      ensures old(machine.Sure()) ==> machine.Sure() && ok && machine.unseen == {}
    {
      machine.unseen := {};
      var listing := machine.ListEntries();
      if listing.None? {
        return false;
      }
      var todo := listing.value;
      while todo != {}
        invariant Kept() && Cleared(todo)
        invariant forall n :: !IsStaging(n) ==> EntryAt(machine.disk, n) == EntryAt(old(machine.disk), n)
        invariant forall n :: n in machine.disk ==> EntryAt(machine.disk, n) == EntryAt(old(machine.disk), n) || IsDir(machine.disk, n)
        invariant old(machine.Sure()) ==> machine.Sure() && machine.unseen == {}
        decreases |todo|
      {
        var name :| name in todo;
        todo := todo - {name};
        if IsStaging(name) {
          ok := RemoveLeftover(name, todo);
          if !ok {
            return;
          }
        }
      }
      ok := true;
    }

    /** Creates a staged file exclusively and writes it. */
    method WriteNew(staging: Text, name: Text, data: Bytes) returns (ok: bool)
      requires Valid() && IsStaging(staging)
      modifies machine
      ensures Kept() && OnlyAt(old(machine.disk), machine.disk, staging)
      ensures forall n :: n != name ==> FileAt(machine.disk, staging, n) == FileAt(old(machine.disk), staging, n)
      ensures IsDir(old(machine.disk), staging) ==> IsDir(machine.disk, staging) && machine.disk[staging].loose == old(machine.disk)[staging].loose
      ensures ok ==> IsFile(FileAt(machine.disk, staging, name)) && !FileAt(machine.disk, staging, name).value.loose
      ensures ok && machine.honest ==> FileAt(machine.disk, staging, name).value.bytes == data
      ensures old(machine.Sure()) ==> machine.Sure()
      ensures old(machine.Sure()) && IsDir(old(machine.disk), staging) && FileAt(old(machine.disk), staging, name) == None ==> ok
    {
      StagingIsElsewhere(staging);
      ghost var t := machine.trace;
      ok := machine.CreateNew(staging, name);
      StepAside(env, machine.honest, t, machine.trace, staging);
      if ok {
        t := machine.trace;
        ok := machine.WriteAll(staging, name, data);
        StepAside(env, machine.honest, t, machine.trace, staging);
      }
    }

    /** Reads a staged file back and compares digests. */
    method ReadBack(staging: Text, name: Text, expected: Text) returns (ok: bool)
      modifies machine`alive
      ensures ok ==> IsFile(FileAt(machine.disk, staging, name))
                     && env.digest(FileAt(machine.disk, staging, name).value.bytes) == expected
      ensures old(machine.Sure()) ==> machine.Sure()
      ensures old(machine.Sure()) && IsFile(FileAt(machine.disk, staging, name))
              && env.digest(FileAt(machine.disk, staging, name).value.bytes) == expected
              ==> ok
    {
      var read := machine.ReadFile(staging, name);
      ok := read.Contents? && env.digest(read.bytes) == expected;
    }

    method MakeStaging(staging: Text) returns (ok: bool)
      requires Valid() && IsStaging(staging)
      modifies machine
      ensures Kept() && OnlyAt(old(machine.disk), machine.disk, staging)
      ensures ok ==> IsDir(machine.disk, staging) && !machine.disk[staging].loose && machine.disk[staging].files == map[]
      ensures StagingIsFree(old(machine.disk), staging) ==> StagingIsFree(machine.disk, staging)
      ensures old(machine.Sure()) ==> machine.Sure() && (staging !in old(machine.disk) ==> ok)
    {
      StagingIsElsewhere(staging);
      ghost var t := machine.trace;
      ok := machine.MakeDirectory(staging);
      StepAside(env, machine.honest, t, machine.trace, staging);
      if !ok {
        return;
      }
      // The mode asked for above is already private; it is set once more all the same.
      t := machine.trace;
      ok := machine.MakePrivate(staging);
      StepAside(env, machine.honest, t, machine.trace, staging);
    }

    /** Both identity files and the record, in that order. */
    method WriteStaged(staging: Text, identity: Bytes, state: Bytes, record: Bytes) returns (ok: bool)
      requires Valid() && IsStaging(staging) && IsDir(machine.disk, staging) && !machine.disk[staging].loose
      modifies machine
      ensures Kept() && OnlyAt(old(machine.disk), machine.disk, staging)
      ensures IsDir(machine.disk, staging) && !machine.disk[staging].loose
      ensures ok && machine.honest ==> FileAt(machine.disk, staging, KEY_FILE) == Some(Regular(identity, false))
      ensures ok && machine.honest ==> FileAt(machine.disk, staging, STATE_FILE) == Some(Regular(state, false))
      ensures ok && machine.honest ==> FileAt(machine.disk, staging, RECORD_FILE) == Some(Regular(record, false))
      ensures ok ==> IsFile(FileAt(machine.disk, staging, KEY_FILE)) && !FileAt(machine.disk, staging, KEY_FILE).value.loose
      ensures ok ==> IsFile(FileAt(machine.disk, staging, STATE_FILE)) && !FileAt(machine.disk, staging, STATE_FILE).value.loose
      ensures forall n :: n !in {KEY_FILE, STATE_FILE, RECORD_FILE} ==> FileAt(machine.disk, staging, n) == FileAt(old(machine.disk), staging, n)
      ensures old(machine.Sure()) ==> machine.Sure() && (old(machine.disk)[staging].files == map[] ==> ok)
    {
      ok := WriteNew(staging, KEY_FILE, identity);
      if !ok {
        return;
      }
      ok := WriteNew(staging, STATE_FILE, state);
      if !ok {
        return;
      }
      ok := WriteNew(staging, RECORD_FILE, record);
    }

    /** Builds the complete future canonical directory under the staging name. */
    method Stage(staging: Text, identity: Bytes, state: Bytes, record: Bytes) returns (ok: bool)
      requires Valid() && IsStaging(staging)
      modifies machine
      ensures Kept() && OnlyAt(old(machine.disk), machine.disk, staging)
      ensures ok ==> Staged(env, machine.honest, machine.disk, staging, identity, state)
      ensures StagingIsFree(old(machine.disk), staging) ==> StagingIsFree(machine.disk, staging)
      ensures ok && machine.honest ==> FileAt(machine.disk, staging, RECORD_FILE) == Some(Regular(record, false))
      ensures old(machine.Sure()) ==> machine.Sure() && (machine.honest && staging !in old(machine.disk) ==> ok)
    {
      ok := MakeStaging(staging);
      if !ok {
        return;
      }
      assert KEY_TEMPORARY !in {KEY_FILE, STATE_FILE, RECORD_FILE} && STATE_TEMPORARY !in {KEY_FILE, STATE_FILE, RECORD_FILE} by {
        assert KEY_TEMPORARY[9] == 't' && KEY_FILE[9] == 'k' && STATE_TEMPORARY[6] == 't' && STATE_FILE[6] == 'j';
        assert RECORD_FILE[0] == 'M' && KEY_TEMPORARY[0] == 'i' && STATE_TEMPORARY[0] == 's' && KEY_FILE[0] == 'i' && STATE_FILE[0] == 's';
      }
      ok := WriteStaged(staging, identity, state, record);
      if !ok {
        return;
      }
      ok := ReadBack(staging, KEY_FILE, env.digest(identity));
      if !ok {
        return;
      }
      ok := ReadBack(staging, STATE_FILE, env.digest(state));
    }

    /** The rename that makes a staged copy the identity. */
    method PutInPlace(staging: Text, identity: Bytes, state: Bytes) returns (ok: bool)
      requires Valid() && IsStaging(staging)
      requires Staged(env, machine.honest, machine.disk, staging, identity, state)
      requires !HoldsIdentity(machine.disk) && LegacyUsable(env, machine.disk)
      requires FileAt(machine.disk, LEGACY, KEY_FILE).value.bytes == identity
      requires FileAt(machine.disk, LEGACY, STATE_FILE).value.bytes == state
      modifies machine
      ensures Kept()
      ensures ok ==> HoldsIdentity(machine.disk)
      ensures ok ==> CopyOf(env, machine.honest, Key(machine.disk), FileAt(old(machine.disk), LEGACY, KEY_FILE))
                     && CopyOf(env, machine.honest, State(machine.disk), FileAt(old(machine.disk), LEGACY, STATE_FILE))
      ensures ok ==> IsVacant(old(machine.disk)) && Tidy(machine.disk)
      ensures ok ==> FileAt(machine.disk, CANONICAL, RECORD_FILE) == FileAt(old(machine.disk), staging, RECORD_FILE)
      ensures ok ==> staging !in machine.disk
      ensures !ok ==> machine.disk == old(machine.disk)
      ensures old(machine.Sure()) ==> machine.Sure() && (IsVacant(old(machine.disk)) ==> ok)
    {
      StagingIsElsewhere(staging);
      ghost var t, d := machine.trace, machine.disk;
      ok := machine.RenameDirectory(staging, CANONICAL);
      if ok {
        assert machine.disk[CANONICAL] == d[staging];
        assert Publish(env, machine.honest, d, machine.disk);
        assert Safe(env, machine.honest, d, machine.disk);
        SafeExtends(env, machine.honest, t, machine.disk);
      }
    }

    /** Both identity files of the legacy directory, or nothing if it holds nothing to lose. */
    method ReadLegacy() returns (r: Result<Option<(Bytes, Bytes)>, ()>)
      modifies machine`alive, machine`unseen
      ensures r == Ok(None) ==> LegacyEmpty(machine.disk)
      ensures r.Ok? && r.value.Some? ==>
        && LegacyUsable(env, machine.disk)
        && FileAt(machine.disk, LEGACY, KEY_FILE).value.bytes == r.value.value.0
        && FileAt(machine.disk, LEGACY, STATE_FILE).value.bytes == r.value.value.1
      ensures old(machine.Sure()) ==> machine.Sure() && (LegacyUsable(env, machine.disk) ==> r.Ok? && r.value.Some?)
      ensures old(machine.Sure()) && LEGACY in machine.disk && (machine.disk[LEGACY].NotDirectory? || machine.disk[LEGACY].loose) ==> r.Err?
      ensures old(machine.Sure()) && LegacyEmpty(machine.disk) && (LEGACY in machine.disk ==> !machine.disk[LEGACY].loose) ==> r == Ok(None)
    {
      var there := machine.LstatEntry(LEGACY);
      match there {
        case Missing => return Ok(None);
        case Unknown => return Err(());
        case Present =>
      }
      var stat := machine.StatEntry(LEGACY);
      if !stat.IsDirectory? || stat.loose {
        return Err(());
      }
      var probed := Probe(LEGACY);
      if probed.Create? {
        return Ok(None);
      }
      if probed.Refuse? {
        return Err(());
      }
      var identity := machine.ReadFile(LEGACY, KEY_FILE);
      if !identity.Contents? {
        return Err(());
      }
      var state := machine.ReadFile(LEGACY, STATE_FILE);
      if !state.Contents? {
        return Err(());
      }
      r := Ok(Some((identity.bytes, state.bytes)));
    }

    /** Builds the copy beside the canonical name and renames it there; a copy that stays behind is removed. */
    method CopyBeside(staging: Text, identity: Bytes, state: Bytes, record: Bytes) returns (ok: bool)
      requires Valid() && IsStaging(staging)
      requires !HoldsIdentity(machine.disk) && LegacyUsable(env, machine.disk)
      requires FileAt(machine.disk, LEGACY, KEY_FILE).value.bytes == identity
      requires FileAt(machine.disk, LEGACY, STATE_FILE).value.bytes == state
      modifies machine
      ensures Kept()
      ensures ok ==> HoldsIdentity(machine.disk) && Tidy(machine.disk) && IsVacant(old(machine.disk))
      ensures ok && machine.honest ==> FileAt(machine.disk, CANONICAL, RECORD_FILE) == Some(Regular(record, false))
      ensures ok ==> CopyOf(env, machine.honest, Key(machine.disk), FileAt(old(machine.disk), LEGACY, KEY_FILE))
                     && CopyOf(env, machine.honest, State(machine.disk), FileAt(old(machine.disk), LEGACY, STATE_FILE))
      ensures !ok ==> EntryAt(machine.disk, CANONICAL) == EntryAt(old(machine.disk), CANONICAL)
      ensures old(machine.Sure()) ==> machine.Sure() && (StagingIsFree(old(machine.disk), staging) ==> staging !in machine.disk)
      ensures old(machine.Sure()) && machine.honest && IsVacant(old(machine.disk)) && staging !in old(machine.disk) ==> ok
    {
      StagingIsElsewhere(staging);
      ok := Stage(staging, identity, state, record);
      assert EntryAt(machine.disk, LEGACY) == EntryAt(old(machine.disk), LEGACY);
      assert EntryAt(machine.disk, CANONICAL) == EntryAt(old(machine.disk), CANONICAL);
      if ok {
        ok := PutInPlace(staging, identity, state);
      }
      if !ok {
        var _ := RemoveTree(staging);
      }
    }

    /** Clears leftovers first. */
    method CopyOver(staging: Text, identity: Bytes, state: Bytes, record: Bytes) returns (ok: bool)
      requires Valid() && IsStaging(staging)
      requires !HoldsIdentity(machine.disk) && LegacyUsable(env, machine.disk)
      requires FileAt(machine.disk, LEGACY, KEY_FILE).value.bytes == identity
      requires FileAt(machine.disk, LEGACY, STATE_FILE).value.bytes == state
      modifies machine
      ensures Kept()
      ensures ok ==> HoldsIdentity(machine.disk) && Tidy(machine.disk) && IsVacant(old(machine.disk))
      ensures ok && machine.honest ==> FileAt(machine.disk, CANONICAL, RECORD_FILE) == Some(Regular(record, false))
      ensures ok ==> CopyOf(env, machine.honest, Key(machine.disk), FileAt(old(machine.disk), LEGACY, KEY_FILE))
                     && CopyOf(env, machine.honest, State(machine.disk), FileAt(old(machine.disk), LEGACY, STATE_FILE))
      ensures !ok ==> EntryAt(machine.disk, CANONICAL) == EntryAt(old(machine.disk), CANONICAL)
      ensures old(machine.Sure()) ==> machine.Sure() && (StagingIsFree(old(machine.disk), staging) ==> staging !in machine.disk)
      ensures old(machine.Sure()) && machine.honest && IsVacant(old(machine.disk)) && StagingIsFree(old(machine.disk), staging) ==> ok
    {
      ok := RemoveStaleStaging();
      if !ok {
        return;
      }
      assert !IsStaging(CANONICAL) && !IsStaging(LEGACY) by {
        if IsStaging(CANONICAL) { StagingIsElsewhere(CANONICAL); }
        if IsStaging(LEGACY) { StagingIsElsewhere(LEGACY); }
      }
      assert EntryAt(machine.disk, LEGACY) == EntryAt(old(machine.disk), LEGACY);
      assert EntryAt(machine.disk, CANONICAL) == EntryAt(old(machine.disk), CANONICAL);
      ok := CopyBeside(staging, identity, state, record);
    }

    /**
     Decides where the identity comes from, before the store is opened. Success means that the
     canonical directory holds an identity, or that the legacy one holds nothing to lose; on a good day
     a usable legacy identity is carried over.
     */
    method MigrateDataDir(staging: Text, record: Bytes) returns (r: Result<Origin, ()>)
      requires Valid() && IsStaging(staging)
      modifies machine
      ensures Kept()
      ensures r.Ok? ==> HoldsIdentity(machine.disk) || LegacyEmpty(machine.disk)
      ensures r == Ok(NoLegacyState) ==> machine.disk == old(machine.disk)
      ensures r == Ok(Migrated) ==> CopyOf(env, machine.honest, Key(machine.disk), FileAt(old(machine.disk), LEGACY, KEY_FILE))
                                    && CopyOf(env, machine.honest, State(machine.disk), FileAt(old(machine.disk), LEGACY, STATE_FILE))
      ensures r == Ok(Migrated) ==> Tidy(machine.disk)
      ensures r == Ok(Migrated) && machine.honest ==> FileAt(machine.disk, CANONICAL, RECORD_FILE) == Some(Regular(record, false))
      ensures r != Ok(Migrated) ==> EntryAt(machine.disk, CANONICAL) == EntryAt(old(machine.disk), CANONICAL)
      ensures old(machine.Sure()) ==> machine.Sure()
      ensures old(machine.Sure()) && machine.honest && StagingIsFree(old(machine.disk), staging)
              ==> r == match OriginOf(env, old(machine.disk)) case None => Err(()) case Some(origin) => Ok(origin)
    {
      var held := HoldsEither();
      if held.Err? {
        return Err(());
      }
      if held.value {
        return Ok(Existing);
      }
      var legacy := ReadLegacy();
      if legacy.Err? {
        return Err(());
      }
      if legacy.value.None? {
        return Ok(NoLegacyState);
      }
      var ok := CopyOver(staging, legacy.value.value.0, legacy.value.value.1, record);
      r := if ok then Ok(Migrated) else Err(());
    }

    // ---- opening the store ------------------------------------------------------------------

    method MakeCanonical() returns (ok: bool)
      requires Valid()
      modifies machine
      ensures Kept() && Quiet(old(machine.disk), machine.disk)
      ensures EntryAt(machine.disk, LEGACY) == EntryAt(old(machine.disk), LEGACY)
      ensures SameFiles(old(machine.disk), machine.disk)
      ensures ok ==> IsDir(machine.disk, CANONICAL)
      ensures old(machine.Sure()) ==> machine.Sure() && (CANONICAL !in old(machine.disk) || IsDir(old(machine.disk), CANONICAL) ==> ok)
    {
      ghost var t := machine.trace;
      ok := machine.CreateDirAll(CANONICAL);
      StepQuietly(env, machine.honest, t, machine.trace);
    }

    method MakeCanonicalPrivate() returns (ok: bool)
      requires Valid()
      modifies machine
      ensures Kept() && Quiet(old(machine.disk), machine.disk)
      ensures EntryAt(machine.disk, LEGACY) == EntryAt(old(machine.disk), LEGACY)
      ensures SameFiles(old(machine.disk), machine.disk)
      ensures ok ==> IsDir(machine.disk, CANONICAL) && !machine.disk[CANONICAL].loose
      ensures old(machine.Sure()) ==> machine.Sure() && (IsDir(old(machine.disk), CANONICAL) ==> ok)
    {
      ghost var t := machine.trace;
      ok := machine.MakePrivate(CANONICAL);
      StepQuietly(env, machine.honest, t, machine.trace);
    }

    /** The canonical directory exists and is private; its identity files are not touched. */
    method Harden() returns (ok: bool)
      requires Valid()
      modifies machine
      ensures Kept() && Quiet(old(machine.disk), machine.disk)
      ensures EntryAt(machine.disk, LEGACY) == EntryAt(old(machine.disk), LEGACY)
      ensures SameFiles(old(machine.disk), machine.disk)
      ensures ok ==> IsDir(machine.disk, CANONICAL) && !machine.disk[CANONICAL].loose
      ensures old(machine.Sure()) ==> machine.Sure() && (CANONICAL !in old(machine.disk) || IsDir(old(machine.disk), CANONICAL) ==> ok)
    {
      ok := MakeCanonical();
      if !ok {
        return;
      }
      var stat := machine.StatEntry(CANONICAL);
      if !stat.IsDirectory? {
        return false;
      }
      if stat.loose {
        ok := MakeCanonicalPrivate();
      }
    }

    /** The temporary file of an atomic write: created or truncated, filled, synced. */
    method WriteTemporary(name: Text, data: Bytes) returns (ok: bool)
      requires Valid() && name != KEY_FILE && name != STATE_FILE
      modifies machine
      ensures Kept() && OnlyAt(old(machine.disk), machine.disk, CANONICAL)
      ensures SameBeside(old(machine.disk), machine.disk, name)
      ensures ok ==> IsFile(FileAt(machine.disk, CANONICAL, name))
      ensures ok && machine.honest ==> FileAt(machine.disk, CANONICAL, name).value.bytes == data
      ensures ok && IsTidy(FileAt(old(machine.disk), CANONICAL, name)) ==> !FileAt(machine.disk, CANONICAL, name).value.loose
      ensures old(machine.Sure()) ==> machine.Sure()
      ensures old(machine.Sure()) && IsDir(old(machine.disk), CANONICAL) && IsTidy(FileAt(old(machine.disk), CANONICAL, name)) ==> ok
    {
      ghost var t := machine.trace;
      ok := machine.CreateOrTruncate(CANONICAL, name);
      StepBeside(env, machine.honest, t, machine.trace, name);
      if ok {
        t := machine.trace;
        ok := machine.WriteAll(CANONICAL, name, data);
        StepBeside(env, machine.honest, t, machine.trace, name);
      }
    }

    /** `write_secret`: a new key reaches its name whole or not at all. */
    method WriteKey(secret: Bytes) returns (ok: bool)
      requires Valid() && MayCreate(machine.disk)
      modifies machine
      ensures Kept() && State(machine.disk) == State(old(machine.disk))
      ensures ok ==> IsFile(Key(machine.disk)) && (machine.honest ==> Key(machine.disk).value.bytes == secret)
      ensures !ok ==> MayCreate(machine.disk)
      ensures old(machine.Sure()) ==> machine.Sure()
      ensures old(machine.Sure()) && machine.honest && IsDir(old(machine.disk), CANONICAL) && Tidy(old(machine.disk))
              ==> ok && Key(machine.disk) == Some(Regular(secret, false)) && Tidy(machine.disk)
    {
      ok := WriteTemporary(KEY_TEMPORARY, secret);
      assert EntryAt(machine.disk, LEGACY) == EntryAt(old(machine.disk), LEGACY);
      if ok {
        ghost var t, d := machine.trace, machine.disk;
        assert MayCreate(d);
        ok := machine.RenameFile(CANONICAL, KEY_TEMPORARY, KEY_FILE);
        if ok {
          assert Install(d, machine.disk);
          assert EntryAt(machine.disk, LEGACY) == EntryAt(d, LEGACY);
          SafeExtends(env, machine.honest, t, machine.disk);
        }
      }
    }

    /** `write_state`: the document is replaced whole or not at all. */
    method WriteState(document: Bytes) returns (ok: bool)
      requires Valid() && MayPersist(env, machine.honest, machine.disk)
      requires Readable(env, document)
      modifies machine
      ensures Kept() && Key(machine.disk) == Key(old(machine.disk))
      ensures MayPersist(env, machine.honest, machine.disk)
      ensures ok && machine.honest ==> IsFile(State(machine.disk)) && State(machine.disk).value.bytes == document
      ensures old(machine.Sure()) ==> machine.Sure()
      ensures old(machine.Sure()) && machine.honest && Tidy(old(machine.disk))
              ==> ok && State(machine.disk) == Some(Regular(document, false)) && Tidy(machine.disk)
    {
      ok := WriteTemporary(STATE_TEMPORARY, document);
      if ok {
        ghost var t, d := machine.trace, machine.disk;
        assert MayPersist(env, machine.honest, d);
        ok := machine.RenameFile(CANONICAL, STATE_TEMPORARY, STATE_FILE);
        if ok {
          assert Persist(env, machine.honest, d, machine.disk);
          assert EntryAt(machine.disk, LEGACY) == EntryAt(d, LEGACY);
          SafeExtends(env, machine.honest, t, machine.disk);
        }
      }
    }

    /** First run: a key is made and written, and only then a state document. */
    method Initialize(secret: Bytes, document: Bytes) returns (ok: bool)
      requires Valid() && MayCreate(machine.disk) && Readable(env, document)
      modifies this, machine
      ensures Valid() && old(machine.trace) <= machine.trace
      ensures made == old(made) + [|old(machine.trace)| - 1]
      ensures ok ==> MayPersist(env, machine.honest, machine.disk)
      ensures ok && machine.honest ==> Key(machine.disk).value.bytes == secret
      ensures ok && machine.honest ==> IsFile(State(machine.disk)) && State(machine.disk).value.bytes == document
      ensures old(machine.Sure()) ==> machine.Sure()
      ensures old(machine.Sure()) && machine.honest && IsDir(old(machine.disk), CANONICAL) && Tidy(old(machine.disk))
              ==> && ok && Tidy(machine.disk) && Key(machine.disk) == Some(Regular(secret, false))
                  && State(machine.disk) == Some(Regular(document, false))
    {
      made := made + [|machine.trace| - 1];
      ok := WriteKey(secret);
      if ok {
        ok := WriteState(document);
      }
    }

    /** The store saves itself any number of times while the daemon serves; where nothing fails the last save is on the disk. */
    method Serve(documents: seq<Bytes>)
      requires Valid() && MayPersist(env, machine.honest, machine.disk)
      requires forall i :: 0 <= i < |documents| ==> Readable(env, documents[i])
      modifies machine
      ensures Kept() && Key(machine.disk) == Key(old(machine.disk))
      ensures documents == [] ==> machine.disk == old(machine.disk)
      ensures old(machine.Sure()) && machine.honest && Tidy(old(machine.disk)) && documents != []
              ==> State(machine.disk) == Some(Regular(documents[|documents| - 1], false))
    {
      for i := 0 to |documents|
        invariant Kept() && Key(machine.disk) == Key(old(machine.disk))
        invariant MayPersist(env, machine.honest, machine.disk)
        invariant i == 0 ==> machine.disk == old(machine.disk)
        invariant old(machine.Sure()) ==> machine.Sure()
        invariant old(machine.Sure()) && machine.honest && Tidy(old(machine.disk)) ==> Tidy(machine.disk)
        invariant old(machine.Sure()) && machine.honest && Tidy(old(machine.disk)) && i > 0
                  ==> State(machine.disk) == Some(Regular(documents[i - 1], false))
      {
        var _ := WriteState(documents[i]);
      }
    }

    /** First run: a key and a document are made, and the store serves. */
    method OpenNew(x: Inputs) returns (r: Started)
      requires Valid() && Proper(env, x) && MayCreate(machine.disk)
      modifies this, machine
      ensures Valid() && old(machine.trace) <= machine.trace && made == old(made) + [|old(machine.trace)| - 1]
      ensures r == Serving ==> IsFile(Key(machine.disk)) && (machine.honest ==> Key(machine.disk).value.bytes == x.secret)
      ensures old(machine.Sure()) && machine.honest && IsDir(old(machine.disk), CANONICAL) && Tidy(old(machine.disk))
              ==> && r == Serving && Key(machine.disk) == Some(Regular(x.secret, false))
                  && State(machine.disk) == Some(Regular(Last(x.document, x.saves), false))
    {
      var ok := Initialize(x.secret, x.document);
      r := Refused;
      if ok {
        r := Serving;
        Serve(x.saves);
      }
    }

    /** An identity was read: the store serves it if key and certificate belong together. */
    method OpenOwn(x: Inputs, stateBytes: Bytes, secret: Bytes) returns (r: Started)
      requires Valid() && Proper(env, x) && CanLoad(env, CANONICAL, machine.disk)
      requires stateBytes == State(machine.disk).value.bytes && secret == Key(machine.disk).value.bytes
      modifies machine
      ensures Kept() && Key(machine.disk) == Key(old(machine.disk))
      ensures r == Serving <==> env.matches(stateBytes, secret)
      ensures r == Refused || x.saves == [] ==> machine.disk == old(machine.disk)
      ensures old(machine.Sure()) && machine.honest && Tidy(old(machine.disk)) && r == Serving
              ==> IsFile(State(machine.disk)) && State(machine.disk).value.bytes == Last(stateBytes, x.saves)
    {
      r := Refused;
      if env.matches(stateBytes, secret) {
        r := Serving;
        Serve(x.saves);
      }
    }

    /** Opens the store on what migration left: create, load or refuse, and then serve. */
    method OpenStore(x: Inputs) returns (r: Started)
      requires Valid() && Proper(env, x) && (HoldsIdentity(machine.disk) || LegacyEmpty(machine.disk))
      modifies this, machine
      ensures Valid() && old(machine.trace) <= machine.trace && old(made) <= made
      ensures forall k :: |old(made)| <= k < |made| ==> |old(machine.trace)| - 1 <= made[k]
      ensures IsFile(Key(old(machine.disk))) ==> made == old(made) && Key(machine.disk) == Key(old(machine.disk))
      ensures r == Serving ==> IsFile(Key(machine.disk))
      ensures !CanLoad(env, CANONICAL, old(machine.disk)) && !Blank(old(machine.disk))
              ==> r == Refused && Quiet(old(machine.disk), machine.disk) && made == old(made)
      ensures old(machine.Sure()) && CanLoad(env, CANONICAL, old(machine.disk))
              ==> OpenedOwn(env, old(machine.disk), x, machine.disk, r)
      ensures old(machine.Sure()) && machine.honest && Tidy(old(machine.disk)) && CanLoad(env, CANONICAL, old(machine.disk)) && r == Serving
              ==> IsFile(State(machine.disk)) && State(machine.disk).value.bytes == Last(State(old(machine.disk)).value.bytes, x.saves)
      ensures old(machine.Sure()) && machine.honest && Tidy(old(machine.disk)) && Blank(old(machine.disk))
              && (CANONICAL in old(machine.disk) ==> IsDir(old(machine.disk), CANONICAL))
              ==> made != old(made) && OpenedNew(x, machine.disk, r)
    {
      r := Refused;
      var hardened := Harden();
      if !hardened {
        return;
      }
      var resolution := Probe(CANONICAL);
      match resolution {
        case Refuse(_) =>
        case Create => r := OpenNew(x);
        case Load(stateBytes, secret) => r := OpenOwn(x, stateBytes, secret);
      }
    }

    /**
     One start, from an empty process to its death or its end. Whether the daemon serves, from which
     identity, and whether it makes one, is on a good day decided by the disk it finds.
     */
    method Start(x: Inputs) returns (r: Started)
      requires Valid() && Proper(env, x)
      modifies this, machine
      ensures Valid() && old(machine.trace) <= machine.trace && old(made) <= made
      ensures forall k :: |old(made)| <= k < |made| ==> |old(machine.trace)| - 1 <= made[k]
      ensures r == Serving ==> IsFile(Key(machine.disk))
      ensures machine.reliable && machine.honest && Tidy(old(machine.disk)) && StagingIsFree(old(machine.disk), x.staging)
              ==> WentWell(env, old(machine.disk), x, machine.disk, r, made != old(made))
    {
      machine.Boot();
      var origin := MigrateDataDir(x.staging, x.record);
      if origin.Err? {
        return Refused;
      }
      r := OpenStore(x);
    }

    /**
     Any number of starts, each dying wherever it likes and meeting whatever errors it likes. A usable
     legacy identity is carried over in one step and never shadowed by a key of our own, a key that is
     in place stays, and no key is made once one has been installed, which happens at most once.
     */
    method ManyStarts(starts: seq<Inputs>)
      requires Valid() && forall i :: 0 <= i < |starts| ==> Proper(env, starts[i])
      modifies this, machine
      ensures Valid() && old(machine.trace) <= machine.trace
      ensures EntryAt(machine.disk, LEGACY) == EntryAt(old(machine.disk), LEGACY)
      ensures IsFile(Key(old(machine.disk))) ==> Key(machine.disk) == Key(old(machine.disk)) && made == old(made)
      ensures LegacyUsable(env, old(machine.disk)) && !HoldsIdentity(old(machine.disk))
              ==> CarriedOverSince(env, machine.honest, machine.trace, |old(machine.trace)| - 1)
      ensures LegacyUsable(env, old(machine.disk)) && !LinksToNothing(old(machine.disk)) ==> made == old(made)
      ensures forall i, n :: 0 <= i < n && n in made ==> !Installs(machine.trace, i)
      ensures forall i, j :: Installs(machine.trace, i) && Installs(machine.trace, j) ==> i == j
    {
      for i := 0 to |starts|
        invariant Valid() && old(machine.trace) <= machine.trace && old(made) <= made
        invariant forall k :: |old(made)| <= k < |made| ==> |old(machine.trace)| - 1 <= made[k]
      {
        var _ := Start(starts[i]);
      }
      ghost var t, from := machine.trace, |old(machine.trace)| - 1;
      LegacyNeverChanges(env, machine.honest, t, from, |t| - 1);
      if IsFile(Key(old(machine.disk))) {
        forall i | from <= i < |t|
          ensures Key(t[i]) == Key(t[from])
        {
          KeyNeverReplaced(env, machine.honest, t, from, i);
        }
        MadeSomewhere(t, from, old(made), made);
      }
      if LegacyUsable(env, old(machine.disk)) && !HoldsIdentity(old(machine.disk)) {
        ghost var k := CarriedOver(env, machine.honest, t, from);
      }
      if LegacyUsable(env, old(machine.disk)) && !LinksToNothing(old(machine.disk)) {
        forall i | from <= i < |t|
          ensures !MayCreate(t[i])
        {
          SafeSuffix(env, machine.honest, t, from);
          NoLinkNoKey(env, machine.honest, t[from..], i - from);
        }
        MadeSomewhere(t, from, old(made), made);
      }
      InstallEndsMaking(env, machine.honest, t, made);
    }
  }
}
