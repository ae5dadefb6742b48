/**
 * Rotating the key of the configuration storage, and recovering from a crash in the middle of it.
 *
 * A configuration base has up to three sub-directories. Every file-system call is one atomic step,
 * and the disk after each step is recorded in `trace`: a crash leaves one of those disks behind.
 */
module KeyRotation {
  import opened Wrappers

  type Key = nat
  type Path = seq<string>

  /** The contents of a file: what matters here is the version the main configuration starts with. */
  datatype Data = Data(version: nat, body: nat)

  /** A file that was created but not written completely does not decrypt under any key. */
  datatype File = Torn | Sealed(data: Data, key: Key)

  datatype Slot = Current | New | Old

  type Dir = map<Path, File>
  type Disk = map<Slot, Dir>
  type Config = map<Path, Data>

  const MAIN: Path := ["meshlink.conf"]
  const CONFIG_VERSION := 2

  /** Directory entries starting with a dot are not copied. */
  predicate Visible(p: Path) {
    forall i :: 0 <= i < |p| ==> |p[i]| > 0 && p[i][0] != '.'
  }

  ghost predicate Configuration(c: Config) {
    MAIN in c && c[MAIN].version == CONFIG_VERSION && forall p :: p in c ==> Visible(p)
  }

  // ----- the disk

  predicate Exists(d: Disk, s: Slot) { s in d && MAIN in d[s] }

  predicate Readable(f: File, k: Key) { f.Sealed? && f.key == k }

  predicate Decrypts(d: Disk, s: Slot, k: Key) {
    Exists(d, s) && Readable(d[s][MAIN], k) && d[s][MAIN].data.version == CONFIG_VERSION
  }

  ghost predicate Complete(d: Disk, s: Slot, c: Config, k: Key) {
    s in d && d[s].Keys == c.Keys && forall p :: p in c ==> d[s][p] == Sealed(c[p], k)
  }

  /** Absent, or left behind without its main configuration file. */
  ghost predicate Gone(d: Disk, s: Slot) { !Exists(d, s) }

  /** What an unfinished copy under k may have left in a directory. */
  ghost predicate Partial(d: Disk, s: Slot, k: Key) {
    s in d && forall p :: p in d[s] && d[s][p].Sealed? ==> d[s][p].key == k
  }

  /** The copy that copytree makes. */
  function Recrypted(dir: Dir, k: Key): Dir {
    map p | p in dir && dir[p].Sealed? && Visible(p) :: Sealed(dir[p].data, k)
  }

  /** A copy holds exactly the files that are not hidden, and that no hidden directory holds. */
  lemma HiddenNotCopied(dir: Dir, k: Key, p: Path)
    requires p in dir && dir[p].Sealed? && forall i :: 0 <= i < |p| ==> p[i] != ""
    ensures p in Recrypted(dir, k) <==> !exists i :: 0 <= i < |p| && "." <= p[i]
    ensures p in Recrypted(dir, k) ==> Recrypted(dir, k)[p] == Sealed(dir[p].data, k)
  {
  }

  /** The outcome of opening the storage with key k. */
  function Recovered(d: Disk, k: Key): Disk {
    if Decrypts(d, Current, k) then map[Current := d[Current]]
    else if Decrypts(d, New, k) then map[Current := d[New]]
    else if Decrypts(d, Old, k) then map[Current := d[Old]]
    else d
  }

  predicate Opens(d: Disk, k: Key) { Decrypts(d, Current, k) || Decrypts(d, New, k) || Decrypts(d, Old, k) }

  predicate Reported(d: Disk) { Exists(d, Current) || Exists(d, New) || Exists(d, Old) }

  // ----- what each step keeps

  ghost predicate Others(d: Disk, e: Disk, s: Slot) { d - {s} == e - {s} }

  /** e is d with some of the files in slot s deleted, or the whole slot. */
  ghost predicate Shrunk(d: Disk, e: Disk, s: Slot) {
    Others(d, e, s) && (s in e ==> s in d && e[s].Keys <= d[s].Keys && forall p :: p in e[s] ==> e[s][p] == d[s][p])
  }

  /** e is d with slot s being destroyed: intact, or without its main file. */
  ghost predicate Shed(d: Disk, e: Disk, s: Slot) {
    Others(d, e, s) && (s in e ==> s in d && (e[s] == d[s] || MAIN !in e[s]))
  }

  /** e is d with a copy under k going on in slot s. */
  ghost predicate Copying(d: Disk, e: Disk, s: Slot, k: Key) {
    Others(d, e, s) && (s in e ==> Partial(e, s, k))
  }

  /** The steps from trace t to trace u all led to disks in `good`. */
  ghost predicate Along(t: seq<Disk>, u: seq<Disk>, good: iset<Disk>) {
    t <= u && forall i :: |t| <= i < |u| ==> u[i] in good
  }

  lemma AlongTrans(t: seq<Disk>, u: seq<Disk>, v: seq<Disk>, good: iset<Disk>)
    requires Along(t, u, good) && Along(u, v, good)
    ensures Along(t, v, good)
  {
  }

  lemma AlongWider(t: seq<Disk>, u: seq<Disk>, a: iset<Disk>, b: iset<Disk>)
    requires Along(t, u, a) && a <= b
    ensures Along(t, u, b)
  {
  }

  lemma AlongStep(t: seq<Disk>, u: seq<Disk>, e: Disk, good: iset<Disk>)
    requires Along(t, u, good) && e in good
    ensures Along(t, u + [e], good)
  {
  }

  ghost function ShrunkFrom(d: Disk, s: Slot): iset<Disk> { iset e | Shrunk(d, e, s) }

  ghost function ShedFrom(d: Disk, s: Slot): iset<Disk> { iset e | Shed(d, e, s) }

  ghost predicate Same(d: Disk, e: Disk, s: Slot) { s in d <==> s in e && (s in d ==> e[s] == d[s]) }

  ghost predicate Slimmed(d: Disk, e: Disk, s: Slot) { s in e ==> s in d && (e[s] == d[s] || MAIN !in e[s]) }

  /** e is d on the way from its directory `from` to the current one. */
  ghost predicate Adopting(d: Disk, e: Disk, from: Slot) {
    || (Slimmed(d, e, Current) && Same(d, e, New) && Same(d, e, Old))
    || (from in d && e == Adopted(d, from))
  }

  ghost function AdoptingFrom(d: Disk, from: Slot): iset<Disk> { iset e | Adopting(d, e, from) }

  /** e is d while its directories besides the current one are removed. */
  ghost predicate Cleaning(d: Disk, e: Disk) { Same(d, e, Current) && Slimmed(d, e, Old) && Slimmed(d, e, New) }

  ghost function CleaningFrom(d: Disk): iset<Disk> { iset e | Cleaning(d, e) }

  lemma UnlinkShrinks(d: Disk, e: Disk, s: Slot, p: Path)
    requires Shrunk(d, e, s) && s in e
    ensures Shrunk(d, e[s := e[s] - {p}], s)
  {
    var f := e[s := e[s] - {p}];
    assert f - {s} == e - {s};
  }

  class Storage {
    var dirs: Disk
    var trace: seq<Disk>

    constructor (d: Disk)
      ensures dirs == d && trace == [d]
    {
      dirs := d;
      trace := [d];
    }

    ghost predicate Synced()
      reads this
    {
      |trace| > 0 && trace[|trace| - 1] == dirs
    }

    // The atomic steps.

    method Unlink(s: Slot, p: Path)
      requires s in dirs
      modifies this
      ensures dirs == old(dirs)[s := old(dirs)[s] - {p}] && trace == old(trace) + [dirs]
    {
      dirs := dirs[s := dirs[s] - {p}];
      trace := trace + [dirs];
    }

    method Rmdir(s: Slot)
      requires s in dirs && dirs[s] == map[]
      modifies this
      ensures dirs == old(dirs) - {s} && trace == old(trace) + [dirs]
    {
      dirs := dirs - {s};
      trace := trace + [dirs];
    }

    method Mkdir(s: Slot)
      requires s !in dirs
      modifies this
      ensures dirs == old(dirs)[s := map[]] && trace == old(trace) + [dirs]
    {
      dirs := dirs[s := map[]];
      trace := trace + [dirs];
    }

    method Put(s: Slot, p: Path, f: File)
      requires s in dirs
      modifies this
      ensures dirs == old(dirs)[s := old(dirs)[s][p := f]] && trace == old(trace) + [dirs]
    {
      dirs := dirs[s := dirs[s][p := f]];
      trace := trace + [dirs];
    }

    /** rename(2): fails without a source, or onto a directory that is not empty. */
    method ConfigRename(from: Slot, to: Slot) returns (ok: bool)
      requires from != to
      modifies this
      ensures ok == (from in old(dirs) && (to in old(dirs) ==> old(dirs)[to] == map[]))
      ensures if ok then dirs == (old(dirs) - {from})[to := old(dirs)[from]] && trace == old(trace) + [dirs]
              else dirs == old(dirs) && trace == old(trace)
    {
      ok := from in dirs && (to in dirs ==> dirs[to] == map[]);
      if ok {
        dirs := (dirs - {from})[to := dirs[from]];
        trace := trace + [dirs];
      }
    }

    /** Delete one file of a directory that is being deleted. */
    method DeleteSome(s: Slot, ghost d: Disk, ghost t: seq<Disk>)
      requires s in dirs && dirs[s] != map[] && Shrunk(d, dirs, s) && Along(t, trace, ShrunkFrom(d, s))
      requires Synced()
      modifies this
      ensures Synced()
      ensures s in dirs && Shrunk(d, dirs, s) && Along(t, trace, ShrunkFrom(d, s)) && |dirs[s]| < |old(dirs[s])|
    {
      var p :| p in dirs[s];
      UnlinkShrinks(d, dirs, s, p);
      AlongStep(t, trace, dirs[s := dirs[s] - {p}], ShrunkFrom(d, s));
      Smaller(dirs[s], p);
      Unlink(s, p);
    }

    /** Delete a directory: its files in any order, then the directory itself. */
    method Deltree(s: Slot)
      requires Synced()
      modifies this
      ensures Synced()
      ensures dirs == old(dirs) - {s} && Along(old(trace), trace, ShrunkFrom(old(dirs), s))
    {
      if s !in dirs {
        assert dirs - {s} == dirs;
        return;
      }
      while dirs[s] != map[]
        invariant Synced() && s in dirs && Shrunk(old(dirs), dirs, s)
                  && Along(old(trace), trace, ShrunkFrom(old(dirs), s))
        decreases |dirs[s]|
      {
        DeleteSome(s, old(dirs), old(trace));
      }
      RmdirShrinks(old(dirs), dirs, s);
      AlongStep(old(trace), trace, dirs - {s}, ShrunkFrom(old(dirs), s));
      Rmdir(s);
    }

    /** config_destroy: the main configuration file goes first. */
    method ConfigDestroy(s: Slot) returns (ok: bool)
      requires Synced()
      modifies this
      ensures Synced()
      ensures ok && dirs == old(dirs) - {s} && Along(old(trace), trace, ShedFrom(old(dirs), s))
    {
      if s !in dirs {
        assert dirs - {s} == dirs;
        return true;
      }
      ghost var d, t := dirs, trace;
      if MAIN in dirs[s] {
        UnlinkSheds(d, s);
        AlongStep(t, trace, d[s := d[s] - {MAIN}], ShedFrom(d, s));
        Unlink(s, MAIN);
      }
      ghost var e, u := dirs, trace;
      assert Others(d, e, s);
      Deltree(s);
      forall f | f in ShrunkFrom(e, s) ensures f in ShedFrom(d, s) { ShrunkSheds(d, e, f, s); }
      AlongWider(u, trace, ShrunkFrom(e, s), ShedFrom(d, s));
      AlongTrans(t, u, trace, ShedFrom(d, s));
      return true;
    }

    /** Make the directory `from` the current one. */
    method Adopt(from: Slot) returns (ok: bool)
      requires from != Current && from in dirs
      requires Synced()
      modifies this
      ensures Synced()
      ensures ok && dirs == Adopted(old(dirs), from)
      ensures Along(old(trace), trace, AdoptingFrom(old(dirs), from))
    {
      ghost var d, t := dirs, trace;
      ok := ConfigDestroy(Current);
      forall e | e in ShedFrom(d, Current) ensures e in AdoptingFrom(d, from) { ShedKeeps(d, e, Current); }
      AlongWider(t, trace, ShedFrom(d, Current), AdoptingFrom(d, from));
      ghost var e := (d - {from})[Current := d[from]];
      assert (dirs - {from})[Current := dirs[from]] == e;
      AlongStep(t, trace, e, AdoptingFrom(d, from));
      ok := ConfigRename(from, Current);
    }

    /** Remove what is left besides the current directory. */
    method Cleanup() returns (ok: bool)
      requires Synced()
      modifies this
      ensures Synced()
      ensures ok && dirs == old(dirs) - {Old, New} && Along(old(trace), trace, CleaningFrom(old(dirs)))
    {
      ghost var d, t := dirs, trace;
      ok := ConfigDestroy(Old);
      forall e | e in ShedFrom(d, Old) ensures e in CleaningFrom(d) {
        ShedKeeps(d, e, Old);
        assert Same(d, e, New) && Same(d, e, Current);
      }
      AlongWider(t, trace, ShedFrom(d, Old), CleaningFrom(d));
      ghost var f, u := dirs, trace;
      ok := ConfigDestroy(New);
      forall e | e in ShedFrom(f, New) ensures e in CleaningFrom(d) {
        ShedKeeps(f, e, New);
        assert Same(f, e, Old) && Same(f, e, Current);
      }
      AlongWider(u, trace, ShedFrom(f, New), CleaningFrom(d));
      AlongTrans(t, u, trace, CleaningFrom(d));
      assert d - {Old} - {New} == d - {Old, New};
    }

    /** Write one file of a copy: it is torn until it is complete. */
    method CopyFile(dst: Slot, p: Path, data: Data, k: Key, ghost d: Disk, ghost t: seq<Disk>)
      requires dst in dirs && Copying(d, dirs, dst, k) && Along(t, trace, CopyingFrom(d, dst, k))
      requires Synced()
      modifies this
      ensures Synced()
      ensures dirs == old(dirs)[dst := old(dirs)[dst][p := Sealed(data, k)]]
      ensures Copying(d, dirs, dst, k) && Along(t, trace, CopyingFrom(d, dst, k))
    {
      PutCopies(d, dirs, dst, k, p, Torn);
      AlongStep(t, trace, dirs[dst := dirs[dst][p := Torn]], CopyingFrom(d, dst, k));
      Put(dst, p, Torn);
      PutCopies(d, dirs, dst, k, p, Sealed(data, k));
      AlongStep(t, trace, dirs[dst := dirs[dst][p := Sealed(data, k)]], CopyingFrom(d, dst, k));
      Put(dst, p, Sealed(data, k));
      assert dirs[dst] == old(dirs)[dst][p := Sealed(data, k)];
      assert dirs == old(dirs)[dst := old(dirs)[dst][p := Sealed(data, k)]];
    }

    /** The copy from d to slot dst is done but for the files in `todo`. */
    ghost predicate Halfway(d: Disk, t: seq<Disk>, src: Slot, dst: Slot, l: Key, todo: set<Path>)
      reads this
    {
      && Synced() && src in d && src != dst && todo <= VisibleIn(d[src]) && dirs == d[dst := Copied(d[src], todo, l)]
      && Copying(d, dirs, dst, l) && Along(t, trace, CopyingFrom(d, dst, l))
    }

    /** One file of a copy. */
    method CopyNext(src: Slot, dst: Slot, l: Key, p: Path, ghost d: Disk, ghost t: seq<Disk>, ghost todo: set<Path>)
      requires Halfway(d, t, src, dst, l, todo) && p in todo && src in dirs && p in dirs[src] && dirs[src][p].Sealed?
      modifies this
      ensures Halfway(d, t, src, dst, l, todo - {p})
    {
      CopiedMore(d[src], todo, p, l);
      CopyFile(dst, p, dirs[src][p].data, l, d, t);
    }

    /** copytree into a new directory, the files in any order. */
    method CopyFiles(src: Slot, k: Key, dst: Slot, l: Key) returns (ok: bool)
      requires src != dst && src in dirs && dst in dirs && dirs[dst] == map[]
      requires Synced()
      modifies this
      ensures Synced()
      ensures ok == AllReadable(old(dirs)[src], k)
      ensures ok ==> dirs == old(dirs)[dst := Recrypted(old(dirs)[src], l)]
      ensures Copying(old(dirs), dirs, dst, l) && Along(old(trace), trace, CopyingFrom(old(dirs), dst, l))
    {
      ghost var d, t := dirs, trace;
      var todo := VisibleIn(dirs[src]);
      while todo != {}
        invariant Halfway(d, t, src, dst, l, todo)
        invariant forall p :: p in VisibleIn(d[src]) - todo ==> Readable(d[src][p], k)
        decreases |todo|
      {
        var p :| p in todo;
        assert dirs[src] == d[src];
        if !Readable(dirs[src][p], k) { return false; }
        CopyNext(src, dst, l, p, d, t, todo);
        todo := todo - {p};
      }
      ok := true;
      assert Copied(d[src], {}, l) == Recrypted(d[src], l);
    }

    /** The destination of a copy with key l is deleted and made anew. */
    method Renew(dst: Slot, ghost l: Key)
      requires Synced()
      modifies this
      ensures Synced()
      ensures dirs == old(dirs)[dst := map[]] && Along(old(trace), trace, ReplacingFrom(old(dirs), dst, l))
    {
      ghost var d, t, good := dirs, trace, ReplacingFrom(dirs, dst, l);
      Deltree(dst);
      AlongWider(t, trace, ShrunkFrom(d, dst), good);
      ghost var e := dirs;
      assert Others(d, e[dst := map[]], dst);
      AlongStep(t, trace, e[dst := map[]], good);
      Mkdir(dst);
      assert e[dst := map[]] == d[dst := map[]];
    }

    /** config_copy: delete the destination, then copy into a new directory. */
    method ConfigCopy(src: Slot, k: Key, dst: Slot, l: Key) returns (ok: bool)
      requires src != dst
      requires Synced()
      modifies this
      ensures Synced()
      ensures ok == (src in old(dirs) && AllReadable(old(dirs)[src], k))
      ensures ok ==> dirs == old(dirs)[dst := Recrypted(old(dirs)[src], l)]
      ensures Along(old(trace), trace, ReplacingFrom(old(dirs), dst, l))
    {
      if src !in dirs { return false; }
      ghost var d, t, good := dirs, trace, ReplacingFrom(dirs, dst, l);
      Renew(dst, l);
      ghost var f, u := dirs, trace;
      ok := CopyFiles(src, k, dst, l);
      CopyReplaces(d, f, dst, l);
      AlongWider(u, trace, CopyingFrom(f, dst, l), good);
      AlongTrans(t, u, trace, good);
    }

    /** meshlink_confbase_exists with a key: find a directory the key opens and make it the current one. */
    method ConfbaseExists(k: Key) returns (found: bool, unlocked: bool)
      requires Synced()
      modifies this
      ensures Synced()
      ensures found == Reported(old(dirs)) && unlocked == Opens(old(dirs), k) && dirs == Recovered(old(dirs), k)
      ensures Along(old(trace), trace, RecoveringFrom(old(dirs), k))
    {
      ghost var d, t := dirs, trace;
      found, unlocked := false, false;
      var ok := true;
      if Exists(dirs, Current) {
        found := true;
        unlocked := Decrypts(dirs, Current, k);
      }
      if !unlocked && Exists(dirs, New) {
        found := true;
        if Decrypts(dirs, New, k) {
          ok := Adopt(New);
          unlocked := true;
          AlongWider(t, trace, AdoptingFrom(d, New), RecoveringFrom(d, k));
        }
      }
      if !unlocked && Exists(dirs, Old) {
        found := true;
        if Decrypts(dirs, Old, k) {
          ok := Adopt(Old);
          unlocked := true;
          AlongWider(t, trace, AdoptingFrom(d, Old), RecoveringFrom(d, k));
        }
      }
      if found && unlocked {
        ghost var e, u := dirs, trace;
        ok := Cleanup();
        AlongWider(u, trace, CleaningFrom(e), RecoveringFrom(d, k));
        AlongTrans(t, u, trace, RecoveringFrom(d, k));
        OnlyCurrent(d, e, k);
      }
    }

    /** meshlink_encrypted_key_rotate on an open mesh: only its current directory exists. */
    method KeyRotate(k: Key, l: Key) returns (ok: bool)
      requires dirs.Keys == {Current} && AllReadable(dirs[Current], k)
      requires Synced()
      modifies this
      ensures Synced()
      ensures ok && dirs == map[Current := Recrypted(old(dirs)[Current], l)]
      ensures Along(old(trace), trace, RotatingFrom(old(dirs), l))
    {
      ghost var d, t, good := dirs, trace, RotatingFrom(dirs, l);
      ok := ConfigCopy(Current, k, New, l);
      forall e | e in ReplacingFrom(d, New, l) ensures e in good { CopyRotates(d, e, l); }
      AlongWider(t, trace, ReplacingFrom(d, New, l), good);
      ghost var r := Recrypted(d[Current], l);
      assert (dirs - {Current})[Old := dirs[Current]] == map[Old := d[Current], New := r];
      AlongStep(t, trace, map[Old := d[Current], New := r], good);
      ok := ConfigRename(Current, Old);
      assert (dirs - {New})[Current := dirs[New]] == map[Old := d[Current], Current := r];
      AlongStep(t, trace, map[Old := d[Current], Current := r], good);
      ok := ConfigRename(New, Current);
      ghost var f, u := dirs, trace;
      ok := ConfigDestroy(Old);
      forall e | e in ShedFrom(f, Old) ensures e in good {
        ShedKeeps(f, e, Old);
        assert Same(f, e, New) && Same(f, e, Current);
      }
      AlongWider(u, trace, ShedFrom(f, Old), good);
      AlongTrans(t, u, trace, good);
    }

    /** The machine stops: what an earlier step left on the disk is what remains. */
    method Crash(n: nat)
      requires n < |trace|
      modifies this
      ensures dirs == old(trace)[n] && trace == old(trace)[..n + 1]
    {
      dirs := trace[n];
      trace := trace[..n + 1];
    }
  }

  // ----- whole runs

  /** Something the owner of the storage does; with a crash it gets only so many steps. */
  datatype Event = Open(key: Key, crash: Option<nat>) | Rotate(key: Key, crash: Option<nat>) | Close

  /** What an opening that was not interrupted found and reported, and the disk it left. */
  datatype Outcome = Outcome(key: Key, before: Disk, found: bool, unlocked: bool, disk: Disk)

  /**
   * A mesh over the storage: the key of the open handle, and the key of a rotation that was interrupted
   * before its copy was complete. Keys a and b are the old and the new one of the last rotation since an opening.
   */
  class Mesh {
    const storage: Storage
    var handle: Option<Key>
    var pending: Option<Key>
    ghost var a: Key
    ghost var b: Key

    ghost predicate Valid(c: Config)
      reads this, storage
    {
      && Configuration(c) && Kept(storage.trace, storage.dirs, c)
      && Between(storage.dirs, c, a, b, pending)
      && (handle.Some? ==> Clean(storage.dirs, c, handle.value))
    }

    /** An encrypted mesh that is not open. */
    constructor (d: Disk, ghost c: Config, ghost k: Key)
      requires Configuration(c) && Clean(d, c, k)
      ensures Valid(c) && fresh(storage) && storage.dirs == d && handle.None? && a == b == k
    {
      storage := new Storage(d);
      handle, pending := None, None;
      a, b := k, k;
      new;
      assert Safe(d, c, k, k);
      SafeHeld(d, c, k, k);
    }

    /** Only the first n of the steps since the trace had length t are taken. */
    method Interrupt(t: nat, n: nat)
      requires 0 < t <= |storage.trace|
      modifies this`handle, storage
      ensures handle.None? && 0 < t <= |storage.trace| && storage.trace <= old(storage.trace) && storage.Synced()
    {
      var i := if t - 1 + n < |storage.trace| then t - 1 + n else |storage.trace| - 1;
      storage.Crash(i);
      handle := None;
    }

    /** The steps of an opening, and what holds along them. */
    method Unlock(k: Key, ghost c: Config) returns (found: bool, unlocked: bool)
      requires Valid(c) && pending != Some(k)
      modifies storage
      ensures found && unlocked == Opens(old(storage.dirs), k) && storage.Synced()
              && old(storage.trace) <= storage.trace
      ensures if unlocked then Clean(storage.dirs, c, k) else storage.dirs == old(storage.dirs)
      ensures HeldAlong(storage.trace, c) && BetweenAlong(storage.trace, |old(storage.trace)|, c, a, b, pending)
    {
      ghost var d, t := storage.dirs, storage.trace;
      OpeningCompletes(d, c, a, b, k);
      found, unlocked := storage.ConfbaseExists(k);
      RecoveryKept(d, t, storage.trace, c, a, b, k, pending);
    }

    /** Open the mesh with a key, up to a crash; a key of an unfinished copy must not be used. */
    method OpenInterrupted(k: Key, n: nat, ghost c: Config)
      requires Valid(c) && handle.None? && pending != Some(k)
      modifies this, storage
      ensures Valid(c) && handle.None? && a == old(a) && b == old(b)
    {
      var steps := |storage.trace|;
      var found, unlocked := Unlock(k, c);
      ghost var full := storage.trace;
      Interrupt(steps, n);
      CutBetween(full, storage.trace, steps, c, a, b, pending);
    }

    /** Open the mesh with a key; a key of an unfinished copy must not be used. */
    method Open(k: Key, ghost c: Config) returns (outcome: Outcome)
      requires Valid(c) && handle.None? && pending != Some(k)
      modifies this, storage
      ensures Valid(c) && outcome == Outcome(k, old(storage.dirs), true, Opens(old(storage.dirs), k), storage.dirs)
      ensures if outcome.unlocked then handle == Some(k) && a == b == k
              else handle.None? && storage.dirs == old(storage.dirs) && a == old(a) && b == old(b)
    {
      var before := storage.dirs;
      var found, unlocked := Unlock(k, c);
      if unlocked {
        handle, pending := Some(k), None;
        a, b := k, k;
        CleanBetween(storage.dirs, c, k, k);
      }
      outcome := Outcome(k, before, found, unlocked, storage.dirs);
    }

    /** The steps of a rotation, and what holds along them. */
    method Reseal(l: Key, ghost c: Config)
      requires Valid(c) && handle.Some?
      modifies storage
      ensures storage.Synced() && old(storage.trace) <= storage.trace && Clean(storage.dirs, c, l)
      ensures HeldAlong(storage.trace, c) && SafeAlong(storage.trace, |old(storage.trace)|, c, handle.value, l)
    {
      ghost var d, t, k := storage.dirs, storage.trace, handle.value;
      RecryptedComplete(d, c, k, l);
      var ok := storage.KeyRotate(handle.value, l);
      RotationKept(d, t, storage.trace, c, k, l);
    }

    /** Rotate the key of an open mesh, up to a crash. */
    method RotateInterrupted(l: Key, n: nat, ghost c: Config)
      requires Valid(c) && handle.Some?
      modifies this, storage
      ensures Valid(c) && handle.None? && a == old(handle.value) && b == l
    {
      var steps := |storage.trace|;
      var k := handle.value;
      Reseal(l, c);
      a, b := k, l;
      ghost var full := storage.trace;
      Interrupt(steps, n);
      CutSafe(full, storage.trace, steps, c, a, b);
      pending := Waiting(storage.dirs, k, l);
    }

    /** Rotate the key of an open mesh. */
    method Rotate(l: Key, ghost c: Config)
      requires Valid(c) && handle.Some?
      modifies this, storage
      ensures Valid(c) && handle == Some(l) && a == old(handle.value) && b == l
    {
      Reseal(l, c);
      a, b := handle.value, l;
      CleanBetween(storage.dirs, c, a, l);
      handle, pending := Some(l), None;
    }
  }

  /**
   * The key of a copy that is not complete: both directories exist, and the new one, under a key of its own, is not a
   * copy of the current one.
   */
  function Waiting(d: Disk, k: Key, l: Key): Option<Key> {
    if k != l && Current in d && New in d && d[New] != Recrypted(d[Current], l) then Some(l) else None
  }

  ghost predicate HeldAlong(trace: seq<Disk>, c: Config) { forall i :: 0 <= i < |trace| ==> Held(trace[i], c) }

  ghost predicate SafeAlong(trace: seq<Disk>, t: nat, c: Config, a: Key, b: Key) {
    forall i {:trigger trace[i]} :: t - 1 <= i < |trace| && 0 <= i ==> Safe(trace[i], c, a, b)
  }

  ghost predicate BetweenAlong(trace: seq<Disk>, t: nat, c: Config, a: Key, b: Key, pending: Option<Key>) {
    forall i {:trigger trace[i]} :: t - 1 <= i < |trace| && 0 <= i ==> Between(trace[i], c, a, b, pending)
  }

  /** Every disk of the trace holds the configuration, and the last one is the current disk. */
  ghost predicate Kept(trace: seq<Disk>, d: Disk, c: Config) {
    |trace| > 0 && trace[|trace| - 1] == d && HeldAlong(trace, c)
  }

  ghost predicate Between(d: Disk, c: Config, a: Key, b: Key, pending: Option<Key>) {
    Safe(d, c, a, b) && (Unfinished(d, c, b) && a != b ==> pending == Some(b))
  }

  /** Nothing is pending on a disk with one directory. */
  lemma CleanBetween(d: Disk, c: Config, a: Key, b: Key)
    requires Clean(d, c, b)
    ensures Between(d, c, a, b, None)
  {
  }

  /** What holds along all the steps holds for the disk after some of them. */
  lemma CutSafe(full: seq<Disk>, cut: seq<Disk>, t: nat, c: Config, a: Key, b: Key)
    requires HeldAlong(full, c) && SafeAlong(full, t, c, a, b) && cut <= full && 0 < t <= |cut|
    requires Configuration(c)
    ensures Kept(cut, cut[|cut| - 1], c) && Between(cut[|cut| - 1], c, a, b, Waiting(cut[|cut| - 1], a, b))
  {
    var d := cut[|cut| - 1];
    assert d == full[|cut| - 1];
    if Complete(d, Current, c, a) { RecryptedComplete(d, c, a, b); }
  }

  lemma CutBetween(full: seq<Disk>, cut: seq<Disk>, t: nat, c: Config, a: Key, b: Key, pending: Option<Key>)
    requires HeldAlong(full, c) && BetweenAlong(full, t, c, a, b, pending) && cut <= full && 0 < t <= |cut|
    ensures Kept(cut, cut[|cut| - 1], c) && Between(cut[|cut| - 1], c, a, b, pending)
  {
    assert cut[|cut| - 1] == full[|cut| - 1];
  }

  lemma RecoveryKept(d: Disk, t: seq<Disk>, u: seq<Disk>, c: Config, a: Key, b: Key, k: Key, pending: Option<Key>)
    requires Configuration(c) && Between(d, c, a, b, pending) && pending != Some(k)
    requires Kept(t, d, c) && Along(t, u, RecoveringFrom(d, k))
    ensures HeldAlong(u, c) && BetweenAlong(u, |t|, c, a, b, pending)
  {
    forall i | |t| <= i < |u| ensures Between(u[i], c, a, b, pending) && Held(u[i], c) {
      RecoverySafe(d, u[i], c, a, b, k);
      SafeHeld(u[i], c, a, b);
    }
  }

  lemma RotationKept(d: Disk, t: seq<Disk>, u: seq<Disk>, c: Config, a: Key, b: Key)
    requires Configuration(c) && Clean(d, c, a) && Kept(t, d, c) && Along(t, u, RotatingFrom(d, b))
    ensures HeldAlong(u, c) && SafeAlong(u, |t|, c, a, b)
  {
    forall i | |t| <= i < |u| ensures Safe(u[i], c, a, b) && Held(u[i], c) {
      RotationSafe(d, u[i], c, a, b);
      SafeHeld(u[i], c, a, b);
    }
  }

  /** The keys that the owner used. */
  function Used(events: seq<Event>): set<Key> {
    set i | 0 <= i < |events| && !events[i].Close? :: events[i].key
  }

  ghost predicate Reports(o: Outcome, c: Config) {
    && o.found && o.unlocked == Opens(o.before, o.key)
    && if o.unlocked then Clean(o.disk, c, o.key) else o.disk == o.before
  }

  /** One event; an opening with the key of an unfinished copy does not happen. */
  method Happen(mesh: Mesh, e: Event, ghost c: Config, ghost keys: set<Key>) returns (outcomes: seq<Outcome>)
    requires mesh.Valid(c) && {mesh.a, mesh.b} <= keys && (mesh.handle.Some? ==> mesh.handle.value in keys)
    requires !e.Close? ==> e.key in keys
    modifies mesh, mesh.storage
    ensures mesh.Valid(c) && {mesh.a, mesh.b} <= keys && (mesh.handle.Some? ==> mesh.handle.value in keys)
    ensures forall o :: o in outcomes ==> Reports(o, c)
  {
    outcomes := [];
    match e
    case Open(key, crash) =>
      if mesh.handle.None? && mesh.pending != Some(key) {
        match crash
        case Some(n) => mesh.OpenInterrupted(key, n, c);
        case None =>
          var outcome := mesh.Open(key, c);
          outcomes := [outcome];
      }
    case Rotate(key, crash) =>
      if mesh.handle.Some? {
        match crash
        case Some(n) => mesh.RotateInterrupted(key, n, c);
        case None => mesh.Rotate(key, c);
      }
    case Close =>
      mesh.handle := None;
  }

  /**
   * Any run of openings, rotations and crashes: every disk along the way holds the configuration, no
   * opening reports it absent, every successful one leaves it complete and alone, and in the end a key that the
   * owner used opens it: the old or the new one of the last rotation.
   */
  method Run(events: seq<Event>, d: Disk, ghost c: Config, ghost k: Key) returns (outcomes: seq<Outcome>, mesh: Mesh)
    requires Configuration(c) && Clean(d, c, k)
    ensures mesh.Valid(c) && {mesh.a, mesh.b} <= Used(events) + {k}
    ensures forall o :: o in outcomes ==> Reports(o, c)
    ensures var e := mesh.storage.dirs; Opens(e, mesh.a) || (Opens(e, mesh.b) && !Unfinished(e, c, mesh.b))
  {
    mesh := new Mesh(d, c, k);
    outcomes := [];
    ghost var keys := Used(events) + {k};
    for n := 0 to |events|
      invariant mesh.Valid(c) && fresh(mesh) && fresh(mesh.storage)
      invariant {mesh.a, mesh.b} <= keys && (mesh.handle.Some? ==> mesh.handle.value in keys)
      invariant forall o :: o in outcomes ==> Reports(o, c)
    {
      var more := Happen(mesh, events[n], c, keys);
      outcomes := outcomes + more;
    }
    SomeKeyOpens(mesh.storage.dirs, c, mesh.a, mesh.b);
  }

  /** e is d, which has only a current directory, in the middle of a rotation to key l. */
  ghost predicate Rotating(d: Disk, e: Disk, l: Key)
    requires Current in d
  {
    var r := Recrypted(d[Current], l);
    || (Same(d, e, Current) && Old !in e && (New in e ==> Partial(e, New, l)))
    || e == map[Old := d[Current], New := r]
    || (Current in e && e[Current] == r && New !in e && (Old in e ==> e[Old] == d[Current] || MAIN !in e[Old]))
  }

  ghost function RotatingFrom(d: Disk, l: Key): iset<Disk>
    requires Current in d
  {
    iset e | Rotating(d, e, l)
  }

  lemma CopyRotates(d: Disk, e: Disk, l: Key)
    requires d.Keys == {Current} && (Shrunk(d, e, New) || Copying(d, e, New, l))
    ensures Rotating(d, e, l)
  {
    assert d - {New} == d;
    assert Current in e - {New} && Old !in e - {New};
  }

  // ----- safety

  /** Between two keys a and b every disk looks like this. */
  ghost predicate Safe(d: Disk, c: Config, a: Key, b: Key) {
    && (Gone(d, Current) || Complete(d, Current, c, a) || Complete(d, Current, c, b))
    && (Gone(d, Old) || Complete(d, Old, c, a))
    && (Gone(d, New) || Complete(d, New, c, b) || (Complete(d, Current, c, a) && Partial(d, New, b)))
    && (Complete(d, Current, c, a) || Complete(d, Current, c, b) || Complete(d, Old, c, a) || Complete(d, New, c, b))
  }

  /** The new directory holds a main file but not the whole configuration. */
  ghost predicate Unfinished(d: Disk, c: Config, b: Key) { Exists(d, New) && !Complete(d, New, c, b) }

  ghost predicate Clean(d: Disk, c: Config, k: Key) { d.Keys == {Current} && Complete(d, Current, c, k) }

  lemma RecryptedComplete(d: Disk, c: Config, a: Key, b: Key)
    requires Configuration(c) && Complete(d, Current, c, a)
    ensures AllReadable(d[Current], a) && Recrypted(d[Current], b) == map p | p in c :: Sealed(c[p], b)
  {
  }

  /** Every step of a rotation leaves a safe disk. */
  lemma RotationSafe(d: Disk, e: Disk, c: Config, a: Key, b: Key)
    requires Configuration(c) && Clean(d, c, a) && Rotating(d, e, b)
    ensures Safe(e, c, a, b)
  {
    RecryptedComplete(d, c, a, b);
  }

  /** Every step of an opening with a key that is not of an unfinished copy leaves a safe disk. */
  lemma RecoverySafe(d: Disk, e: Disk, c: Config, a: Key, b: Key, k: Key)
    requires Configuration(c) && Safe(d, c, a, b) && (k == b != a ==> !Unfinished(d, c, b)) && Recovering(d, e, k)
    ensures Safe(e, c, a, b) && (Unfinished(e, c, b) ==> Unfinished(d, c, b))
  {
  }

  /** An opening with such a key yields the whole configuration, alone, or changes nothing. */
  lemma OpeningCompletes(d: Disk, c: Config, a: Key, b: Key, k: Key)
    requires Configuration(c) && Safe(d, c, a, b) && (k == b != a ==> !Unfinished(d, c, b))
    ensures Reported(d)
    ensures if Opens(d, k) then Clean(Recovered(d, k), c, k) && (k == a || k == b) else Recovered(d, k) == d
  {
  }

  /** Some directory holds the whole configuration, with its main file, under one key. */
  ghost predicate Held(d: Disk, c: Config) { exists s, k :: Complete(d, s, c, k) && Exists(d, s) }

  lemma SafeHeld(d: Disk, c: Config, a: Key, b: Key)
    requires Configuration(c) && Safe(d, c, a, b)
    ensures Held(d, c)
  {
  }

  /** One of the two keys opens a safe disk: the new one if it is not the old one. */
  lemma SomeKeyOpens(d: Disk, c: Config, a: Key, b: Key)
    requires Configuration(c) && Safe(d, c, a, b)
    ensures Opens(d, a) || (Opens(d, b) && !Unfinished(d, c, b))
  {
  }

  /** Exactly when an opening of a safe disk loses part of the configuration. */
  lemma OpeningCompletesExactly(d: Disk, c: Config, a: Key, b: Key, k: Key)
    requires Configuration(c) && Safe(d, c, a, b) && Opens(d, k)
    ensures Complete(Recovered(d, k), Current, c, k) <==> !(k == b && Unfinished(d, c, b) && !Decrypts(d, Current, b))
  {
  }

  /** A copy interrupted after the main file, opened with the new key, replaces the configuration by a part of it. */
  lemma InterruptedCopyOpened()
    ensures exists d: Disk, c: Config ::
              Configuration(c) && Safe(d, c, 1, 2) && Opens(d, 2) && !Complete(Recovered(d, 2), Current, c, 2)
  {
    var host: Path := ["hosts", "foo"];
    var c: Config := map[MAIN := Data(2, 0), host := Data(0, 7)];
    assert host[0] != MAIN[0] || |host| != |MAIN|;
    var d: Disk := map[Current := map[MAIN := Sealed(Data(2, 0), 1), host := Sealed(Data(0, 7), 1)],
                       New := map[MAIN := Sealed(Data(2, 0), 2)]];
    assert Complete(d, Current, c, 1);
    assert Recovered(d, 2)[Current] == d[New];
    assert host in c && host !in d[New];
    assert Configuration(c) && Safe(d, c, 1, 2) && Opens(d, 2) && !Complete(Recovered(d, 2), Current, c, 2);
  }

  ghost function ReplacingFrom(d: Disk, s: Slot, k: Key): iset<Disk> { iset e | Shrunk(d, e, s) || Copying(d, e, s, k) }

  function Adopted(d: Disk, from: Slot): Disk
    requires from in d
  {
    (d - {from})[Current := d[from]]
  }

  /** e is d in the middle of being unlocked with key k. */
  ghost predicate Recovering(d: Disk, e: Disk, k: Key) {
    if Decrypts(d, Current, k) then Cleaning(d, e)
    else if Decrypts(d, New, k) then Adopting(d, e, New) || Cleaning(Adopted(d, New), e)
    else if Decrypts(d, Old, k) then Adopting(d, e, Old) || Cleaning(Adopted(d, Old), e)
    else false
  }

  ghost function RecoveringFrom(d: Disk, k: Key): iset<Disk> { iset e | Recovering(d, e, k) }

  lemma OnlyCurrent(d: Disk, e: Disk, k: Key)
    requires Opens(d, k)
    requires e == if Decrypts(d, Current, k) then d
                  else if Decrypts(d, New, k) then Adopted(d, New) else Adopted(d, Old)
    ensures e - {Old, New} == Recovered(d, k)
  {
    forall s | s in e - {Old, New} ensures s == Current { assert s.Current? || s.New? || s.Old?; }
    assert (e - {Old, New}).Keys == {Current};
  }

  function VisibleIn(dir: Dir): set<Path> { set p | p in dir && Visible(p) }

  ghost predicate AllReadable(dir: Dir, k: Key) { forall p :: p in dir && Visible(p) ==> Readable(dir[p], k) }

  ghost function CopyingFrom(d: Disk, s: Slot, k: Key): iset<Disk> { iset e | Copying(d, e, s, k) }

  lemma CopyReplaces(d: Disk, f: Disk, s: Slot, k: Key)
    requires f == d[s := map[]]
    ensures CopyingFrom(f, s, k) <= ReplacingFrom(d, s, k)
  {
    forall e | e in CopyingFrom(f, s, k) ensures e in ReplacingFrom(d, s, k) {
      assert Others(d, f, s);
    }
  }

  /** The copy of a directory while some files are still to be done. */
  ghost function Copied(dir: Dir, todo: set<Path>, k: Key): Dir {
    map p | p in dir && dir[p].Sealed? && Visible(p) && p !in todo :: Sealed(dir[p].data, k)
  }

  lemma CopiedMore(dir: Dir, todo: set<Path>, p: Path, k: Key)
    requires p in dir && dir[p].Sealed? && Visible(p) && p in todo
    ensures Copied(dir, todo - {p}, k) == Copied(dir, todo, k)[p := Sealed(dir[p].data, k)]
  {
  }

  lemma PutCopies(d: Disk, e: Disk, s: Slot, k: Key, p: Path, f: File)
    requires Copying(d, e, s, k) && s in e && (f.Sealed? ==> f.key == k)
    ensures Copying(d, e[s := e[s][p := f]], s, k)
  {
    assert e[s := e[s][p := f]] - {s} == e - {s};
  }

  lemma UnlinkSheds(d: Disk, s: Slot)
    requires s in d
    ensures Shed(d, d[s := d[s] - {MAIN}], s)
  {
    assert d[s := d[s] - {MAIN}] - {s} == d - {s};
  }

  lemma ShrunkSheds(d: Disk, e: Disk, f: Disk, s: Slot)
    requires s in d && Others(d, e, s) && (s in e ==> MAIN !in e[s]) && Shrunk(e, f, s)
    ensures Shed(d, f, s)
  {
  }

  lemma ShedKeeps(d: Disk, e: Disk, s: Slot)
    requires Shed(d, e, s)
    ensures Slimmed(d, e, s) && forall r :: r != s ==> Same(d, e, r)
  {
    forall r | r != s ensures Same(d, e, r) {
      assert r in d <==> r in d - {s};
      assert r in e <==> r in e - {s};
      if r in d { assert d[r] == (d - {s})[r] == (e - {s})[r] == e[r]; }
    }
  }

  lemma RmdirShrinks(d: Disk, e: Disk, s: Slot)
    requires Shrunk(d, e, s)
    ensures e - {s} == d - {s} && Shrunk(d, e - {s}, s)
  {
    assert (e - {s}) - {s} == e - {s};
  }

  lemma Smaller(dir: Dir, p: Path)
    requires p in dir
    ensures |dir - {p}| < |dir|
  {
    assert (dir - {p}).Keys == dir.Keys - {p};
    assert |dir.Keys - {p}| == |dir.Keys| - 1;
  }
}
