/**
 The part of a Unix file system that startup touches: the entries of `$XDG_DATA_HOME`, each a
 directory holding files, and a process that may die in any primitive.

 Every primitive may also fail with an I/O error. A dead process changes nothing: whatever the code
 does after its death has no effect, which is the same as stopping there.
 */
module FileSystem {
  import opened Prelude

  /** What a name inside a directory stands for. `loose` is "group- or world-accessible". */
  datatype Node = Regular(bytes: Bytes, loose: bool) | Dangling | Subdirectory

  /** What a name directly under `$XDG_DATA_HOME` stands for. */
  datatype Entry = Directory(loose: bool, files: map<Text, Node>) | NotDirectory

  type Disk = map<Text, Entry>

  datatype Lookup = Present | Missing | Unknown

  datatype Stat = IsDirectory(loose: bool) | IsOther | StatFailed

  datatype FileRead = Contents(bytes: Bytes) | Vanished | Denied | ReadFailed

  ghost function FileAt(d: Disk, dir: Text, name: Text): Option<Node> {
    if dir in d && d[dir].Directory? && name in d[dir].files then Some(d[dir].files[name]) else None
  }

  ghost function EntryAt(d: Disk, name: Text): Option<Entry> {
    if name in d then Some(d[name]) else None
  }

  predicate IsDir(d: Disk, name: Text) {
    name in d && d[name].Directory?
  }

  /** `d'` differs from `d` at the entry `name` at most. */
  ghost predicate OnlyAt(d: Disk, d': Disk, name: Text) {
    forall n :: n != name ==> EntryAt(d', n) == EntryAt(d, n)
  }

  function WithFile(d: Disk, dir: Text, name: Text, node: Node): Disk
    requires IsDir(d, dir)
  {
    d[dir := d[dir].(files := d[dir].files[name := node])]
  }

  /**
   `honest` says that a write which reports success stored the bytes it was given. With it off, a
   successful write may have stored anything: the file system that lies.
   */
  class Machine {
    var disk: Disk
    var alive: bool
    const honest: bool
    /** No error occurs and no process dies: a machine on a good day. */
    const reliable: bool
    /** Every state the disk has been in, oldest first. */
    ghost var trace: seq<Disk>
    /** Entries that a listing left out or whose metadata could not be had. */
    ghost var unseen: set<Text>

    ghost predicate Recorded()
      reads this
    {
      |trace| > 0 && trace[|trace| - 1] == disk
    }

    ghost predicate Sure()
      reads this
    {
      reliable && alive
    }

    constructor (initial: Disk, honest: bool, reliable: bool)
      ensures Recorded() && disk == initial && trace == [initial] && this.honest == honest && this.reliable == reliable
    {
      disk, alive, trace, unseen := initial, true, [initial], {};
      this.honest, this.reliable := honest, reliable;
    }

    /** A new process: what the previous one left on the disk is all there is. */
    method Boot()
      modifies this`alive
      ensures alive
    {
      alive := true;
    }

    /** Death, an I/O error, or neither. `ok` only if the process is still there to act. */
    method Proceed() returns (ok: bool)
      modifies this`alive
      ensures ok ==> alive && old(alive)
      ensures old(Sure()) ==> ok && Sure()
    {
      var dies: bool := *;
      if dies && !reliable {
        alive := false;
      }
      var fails: bool := *;
      ok := alive && (reliable || !fails);
    }

    method Store(next: Disk)
      requires Recorded() && alive
      modifies this`disk, this`trace
      ensures Recorded() && disk == next && trace == old(trace) + [next]
    {
      disk := next;
      trace := trace + [next];
    }

    // ---- reads ------------------------------------------------------------------------------

    /** `lstat(2)` of an entry. */
    method LstatEntry(name: Text) returns (r: Lookup)
      modifies this`alive
      ensures r == Present ==> name in disk
      ensures r == Missing ==> name !in disk
      ensures old(Sure()) ==> Sure() && r != Unknown
    {
      var ok := Proceed();
      r := if !ok then Unknown else if name in disk then Present else Missing;
    }

    /** `stat(2)` of an entry. */
    method StatEntry(name: Text) returns (r: Stat)
      modifies this`alive, this`unseen
      ensures r.IsDirectory? ==> name in disk && disk[name].Directory? && disk[name].loose == r.loose
      ensures r.IsOther? ==> name in disk && disk[name].NotDirectory?
      ensures r.StatFailed? ==> name !in disk || name in unseen
      ensures old(unseen) <= unseen
      ensures old(Sure()) ==> Sure() && unseen == old(unseen) && (r.StatFailed? ==> name !in disk)
    {
      var ok := Proceed();
      if !ok {
        unseen := unseen + {name};
        r := StatFailed;
      } else if name !in disk {
        r := StatFailed;
      } else {
        match disk[name] {
          case Directory(loose, _) => r := IsDirectory(loose);
          case NotDirectory => r := IsOther;
        }
      }
    }

    /** `lstat(2)` of a file: a dangling link is present. */
    method LstatFile(dir: Text, name: Text) returns (r: Lookup)
      modifies this`alive
      ensures r == Present ==> FileAt(disk, dir, name).Some?
      ensures r == Missing ==> dir !in disk || (disk[dir].Directory? && name !in disk[dir].files)
      ensures old(Sure()) ==> Sure() && (r == Unknown ==> dir in disk && disk[dir].NotDirectory?)
    {
      var ok := Proceed();
      r := if !ok then Unknown
           else if dir !in disk then Missing
           else if disk[dir].NotDirectory? then Unknown
           else if name in disk[dir].files then Present else Missing;
    }

    /** `try_exists`: follows links, so a dangling link does not exist. */
    method TryExists(dir: Text, name: Text) returns (r: Lookup)
      modifies this`alive
      ensures r == Present ==> FileAt(disk, dir, name).Some? && !FileAt(disk, dir, name).value.Dangling?
      ensures r == Missing ==> FileAt(disk, dir, name) in {None, Some(Dangling)}
      ensures old(Sure()) ==> Sure() && (r == Unknown ==> dir in disk && disk[dir].NotDirectory?)
    {
      var ok := Proceed();
      r := if !ok then Unknown
           else if dir !in disk then Missing
           else if disk[dir].NotDirectory? then Unknown
           else if name in disk[dir].files && disk[dir].files[name] != Dangling then Present else Missing;
    }

    /** The permission bits of a file, and nothing if they could not be had. */
    method FileMode(dir: Text, name: Text) returns (r: Option<bool>)
      modifies this`alive
      ensures r.Some? ==> FileAt(disk, dir, name).Some?
      ensures r.Some? && FileAt(disk, dir, name).value.Regular? ==> FileAt(disk, dir, name).value.loose == r.value
      ensures old(Sure()) ==> Sure() && (FileAt(disk, dir, name).Some? && FileAt(disk, dir, name).value.Regular? ==> r.Some?)
    {
      var ok := Proceed();
      if !ok || dir !in disk || disk[dir].NotDirectory? || name !in disk[dir].files {
        return None;
      }
      match disk[dir].files[name] {
        case Regular(_, loose) => r := Some(loose);
        case Dangling => r := None;
        case Subdirectory => r := Some(false);
      }
    }

    method ReadFile(dir: Text, name: Text) returns (r: FileRead)
      modifies this`alive
      ensures r.Contents? ==> FileAt(disk, dir, name).Some? && FileAt(disk, dir, name).value.Regular?
                              && FileAt(disk, dir, name).value.bytes == r.bytes
      ensures r.Vanished? ==> FileAt(disk, dir, name) in {None, Some(Dangling)}
      ensures old(Sure()) ==> Sure() && (FileAt(disk, dir, name).Some? && FileAt(disk, dir, name).value.Regular? ==> r.Contents?)
    {
      var ok := Proceed();
      if !ok {
        var denied: bool := *;
        return if denied then Denied else ReadFailed;
      }
      if dir !in disk || disk[dir].NotDirectory? || name !in disk[dir].files {
        return Vanished;
      }
      match disk[dir].files[name] {
        case Regular(bytes, _) => r := Contents(bytes);
        case Dangling => r := Vanished;
        case Subdirectory => r := ReadFailed;
      }
    }

    /** `read_dir(..).flatten()`: entries that cannot be read are skipped silently. */
    method ListEntries() returns (r: Option<set<Text>>)
      modifies this`alive, this`unseen
      ensures r.Some? ==> forall n :: n in disk ==> n in r.value || n in unseen
      ensures old(unseen) <= unseen
      ensures old(Sure()) ==> Sure() && r.Some? && unseen == old(unseen)
    {
      var ok := Proceed();
      if !ok {
        return None;
      }
      var skipped: set<Text> := *;
      skipped := if reliable then {} else skipped;
      unseen := unseen + skipped;
      r := Some(disk.Keys - skipped);
    }

    // ---- writes -----------------------------------------------------------------------------

    /** A write happened and is on record, or the disk is as it was. */
    twostate predicate Stepped()
      reads this
    {
      && Recorded() && unseen == old(unseen)
      && (trace == old(trace) + [disk] || (disk == old(disk) && trace == old(trace)))
    }

    /** `Stepped`, with one file of one directory affected at most. */
    twostate predicate Touched(dir: Text, name: Text)
      reads this
    {
      && Stepped()
      && (disk == old(disk)
          || (&& IsDir(old(disk), dir)
              && IsDir(disk, dir)
              && disk == old(disk)[dir := disk[dir]]
              && disk[dir].loose == old(disk)[dir].loose
              && (forall n :: n != name ==> FileAt(disk, dir, n) == FileAt(old(disk), dir, n))))
    }

    /** `mkdir(2)`: refuses a name that is taken. */
    method MakeDirectory(name: Text) returns (ok: bool)
      requires Recorded()
      modifies this
      ensures Stepped()
      ensures disk == old(disk) || (name !in old(disk) && disk == old(disk)[name := Directory(false, map[])])
      ensures ok ==> IsDir(disk, name) && disk[name] == Directory(false, map[])
      ensures old(Sure()) ==> Sure() && (name !in old(disk) ==> ok)
    {
      ok := Proceed();
      ok := ok && name !in disk;
      if ok {
        Store(disk[name := Directory(false, map[])]);
      }
    }

    /** `create_dir_all`: content with a directory that is there; a new one gets whatever mode the umask leaves. */
    method CreateDirAll(name: Text) returns (ok: bool)
      requires Recorded()
      modifies this
      ensures Stepped()
      ensures disk == old(disk)
              || (name !in old(disk) && IsDir(disk, name) && disk[name].files == map[] && disk == old(disk)[name := disk[name]])
      ensures ok ==> IsDir(disk, name)
      ensures old(Sure()) ==> Sure() && (name !in old(disk) || IsDir(old(disk), name) ==> ok)
    {
      ok := Proceed();
      if !ok {
        return;
      }
      if name !in disk {
        var loose: bool := *;
        Store(disk[name := Directory(loose, map[])]);
      }
      ok := disk[name].Directory?;
    }

    /** `chmod 0700`. */
    method MakePrivate(name: Text) returns (ok: bool)
      requires Recorded()
      modifies this
      ensures Stepped()
      ensures disk == old(disk) || (IsDir(old(disk), name) && disk == old(disk)[name := old(disk)[name].(loose := false)])
      ensures ok ==> IsDir(disk, name) && !disk[name].loose
      ensures old(Sure()) ==> Sure() && (IsDir(old(disk), name) ==> ok)
    {
      ok := Proceed();
      ok := ok && name in disk && disk[name].Directory?;
      if ok {
        Store(disk[name := disk[name].(loose := false)]);
      }
    }

    /** `open(O_CREAT | O_EXCL, 0600)`. */
    method CreateNew(dir: Text, name: Text) returns (ok: bool)
      requires Recorded()
      modifies this
      ensures Touched(dir, name)
      ensures ok ==> FileAt(disk, dir, name) == Some(Regular([], false))
      ensures old(Sure()) ==> Sure() && (IsDir(old(disk), dir) && name !in old(disk)[dir].files ==> ok)
    {
      ok := Proceed();
      ok := ok && dir in disk && disk[dir].Directory? && name !in disk[dir].files;
      if ok {
        Store(WithFile(disk, dir, name, Regular([], false)));
      }
    }

    /** `open(O_CREAT | O_TRUNC, 0600)`: a file that is there already keeps its mode. */
    method CreateOrTruncate(dir: Text, name: Text) returns (ok: bool)
      requires Recorded()
      modifies this
      ensures Touched(dir, name)
      ensures ok ==> FileAt(disk, dir, name).Some? && FileAt(disk, dir, name).value.Regular?
      ensures ok && FileAt(old(disk), dir, name) == None ==> !FileAt(disk, dir, name).value.loose
      ensures ok && FileAt(old(disk), dir, name).Some? && FileAt(old(disk), dir, name).value.Regular?
              ==> FileAt(disk, dir, name).value.loose == FileAt(old(disk), dir, name).value.loose
      ensures old(Sure()) ==> Sure()
      ensures old(Sure()) && IsDir(old(disk), dir)
              && (FileAt(old(disk), dir, name).Some? ==> FileAt(old(disk), dir, name).value.Regular?)
              ==> ok
    {
      ok := Proceed();
      ok := ok && dir in disk && disk[dir].Directory?
        && (name in disk[dir].files ==> disk[dir].files[name].Regular?);
      if ok {
        var loose := name in disk[dir].files && disk[dir].files[name].loose;
        Store(WithFile(disk, dir, name, Regular([], loose)));
      }
    }

    /** `write_all` and `fsync` on an open file. Death or an error leaves some prefix behind. */
    method WriteAll(dir: Text, name: Text, data: Bytes) returns (ok: bool)
      requires Recorded()
      requires FileAt(disk, dir, name).Some? && FileAt(disk, dir, name).value.Regular?
      modifies this
      ensures Touched(dir, name)
      ensures FileAt(disk, dir, name).Some? && FileAt(disk, dir, name).value.Regular?
      ensures FileAt(disk, dir, name).value.loose == FileAt(old(disk), dir, name).value.loose
      ensures ok && honest ==> FileAt(disk, dir, name).value.bytes == data
      ensures old(Sure()) ==> Sure() && ok
    {
      var loose := disk[dir].files[name].loose;
      if !alive {
        return false;
      }
      var written: int := *;
      var stored: Bytes := *;
      ok := reliable || !(0 <= written < |data|);
      var content := if !ok then data[..written] else if honest then data else stored;
      Store(WithFile(disk, dir, name, Regular(content, loose)));
      var survives := Proceed();
      ok := ok && survives;
    }

    /** `rename(2)` of a file within one directory: replaces what is there, but not a directory. */
    method RenameFile(dir: Text, from: Text, to: Text) returns (ok: bool)
      requires Recorded() && from != to
      modifies this
      ensures Stepped()
      ensures !ok ==> disk == old(disk)
      ensures ok ==> FileAt(old(disk), dir, from).Some? && IsDir(disk, dir)
      ensures ok ==> disk == old(disk)[dir := old(disk)[dir].(files := (old(disk)[dir].files - {from})[to := old(disk)[dir].files[from]])]
      ensures old(Sure()) ==> Sure()
      ensures old(Sure()) && FileAt(old(disk), dir, from).Some? && FileAt(old(disk), dir, to) != Some(Subdirectory) ==> ok
    {
      ok := Proceed();
      ok := ok && dir in disk && disk[dir].Directory? && from in disk[dir].files
        && (to in disk[dir].files ==> !disk[dir].files[to].Subdirectory?);
      if ok {
        var files := disk[dir].files;
        Store(disk[dir := disk[dir].(files := (files - {from})[to := files[from]])]);
      }
    }

    /** `rename(2)` of a directory: the target must be absent or an empty directory. */
    method RenameDirectory(from: Text, to: Text) returns (ok: bool)
      requires Recorded() && from != to
      modifies this
      ensures Stepped()
      ensures !ok ==> disk == old(disk)
      ensures ok ==> IsDir(old(disk), from) && disk == (old(disk) - {from})[to := old(disk)[from]]
      ensures ok ==> to !in old(disk) || (old(disk)[to].Directory? && old(disk)[to].files == map[])
      ensures old(Sure()) ==> Sure()
      ensures old(Sure()) && IsDir(old(disk), from) && (to in old(disk) ==> old(disk)[to].Directory? && old(disk)[to].files == map[]) ==> ok
    {
      ok := Proceed();
      ok := ok && from in disk && disk[from].Directory?
        && (to in disk ==> disk[to].Directory? && disk[to].files == map[]);
      if ok {
        Store((disk - {from})[to := disk[from]]);
      }
    }

    /** `unlink(2)`. */
    method RemoveFile(dir: Text, name: Text) returns (ok: bool)
      requires Recorded()
      modifies this
      ensures Touched(dir, name)
      ensures ok ==> IsDir(disk, dir) && IsDir(old(disk), dir) && disk[dir].files == old(disk)[dir].files - {name}
      ensures old(Sure()) ==> Sure() && (IsDir(old(disk), dir) && name in old(disk)[dir].files ==> ok)
    {
      ok := Proceed();
      ok := ok && dir in disk && disk[dir].Directory? && name in disk[dir].files;
      if ok {
        Store(disk[dir := disk[dir].(files := disk[dir].files - {name})]);
      }
    }

    /** `rmdir(2)`: only an empty directory. */
    method RemoveDirectory(name: Text) returns (ok: bool)
      requires Recorded()
      modifies this
      ensures Stepped()
      ensures disk == old(disk) || disk == old(disk) - {name}
      ensures ok ==> name !in disk
      ensures old(Sure()) ==> Sure() && (IsDir(old(disk), name) && old(disk)[name].files == map[] ==> ok)
    {
      ok := Proceed();
      ok := ok && name in disk && disk[name].Directory? && disk[name].files == map[];
      if ok {
        Store(disk - {name});
      }
    }
  }
}
