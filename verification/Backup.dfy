/** Restoring a snapshot over the live database (internal/backup/backup.go). */
module Backup {
  import opened Machine

  /** A state on the way through a restore: every file but the database's own is as it was, and the bytes the
      database held are still under its name or under `aside`, a name nothing else had. */
  ghost predicate Keeps(paths: Paths, before: Files, t: Files, aside: Path) {
    && (forall p | p in before && p != paths.db && p != paths.wal && p != paths.shm :: Holds(t, p, before[p]))
    && (paths.db in before ==>
          Holds(t, paths.db, before[paths.db]) || (aside !in before && Holds(t, aside, before[paths.db])))
  }

  /** The database's bytes were moved away from its name. */
  ghost predicate MovedAside(paths: Paths, before: Files, t: Files, aside: Path) {
    && (forall p | p in before && p != paths.db && p != paths.wal && p != paths.shm :: Holds(t, p, before[p]))
    && (paths.db in before ==>
          && aside !in before && aside != paths.db && aside != paths.wal && aside != paths.shm
          && Holds(t, aside, before[paths.db]))
  }

  /** Every state recorded from `since` on. */
  ghost predicate KeptSince(paths: Paths, before: Files, trace: seq<Files>, since: nat, aside: Path) {
    forall k | since <= k < |trace| :: Keeps(paths, before, trace[k], aside)
  }

  datatype Pick = Picked(path: Path) | NoName

  ghost predicate AllTaken(files: Files, names: seq<Path>) {
    forall n | n in names :: n in files
  }

  ghost predicate FirstFree(files: Files, names: seq<Path>, path: Path) {
    exists i | 0 <= i < |names| :: names[i] == path && path !in files && forall j | 0 <= j < i :: names[j] in files
  }

  /**
   The first of the sixty names that no file has. `stats` are the answers to the checks made, in order: none is picked
   only if every name is taken or one could not be checked.
   */
  method ReplacedPath(host: Host, names: seq<Path>) returns (r: Pick, ghost stats: seq<Stat>)
    modifies host`failures
    ensures host.failures >= old(host.failures)
    ensures r.NoName? ==> host.failures > old(host.failures) || AllTaken(host.files, names)
    ensures r.Picked? ==> r.path in names && FirstFree(host.files, names, r.path)
    ensures |stats| <= |names| && forall j | 0 <= j < |stats| :: stats[j] == Found ==> names[j] in host.files
    ensures forall j | 0 <= j < |stats| - 1 :: stats[j] == Found
    ensures r.Picked? <==> stats != [] && stats[|stats| - 1] == Missing
    ensures r.NoName? ==> (stats != [] && stats[|stats| - 1] == Unknown) || forall n | n in names :: n in host.files
  {
    stats := [];
    for i := 0 to |names|
      invariant host.failures >= old(host.failures)
      invariant |stats| == i && forall j | 0 <= j < i :: stats[j] == Found && names[j] in host.files
    {
      var stat := host.StatPath(names[i]);
      stats := stats + [stat];
      if stat == Missing {
        return Picked(names[i]), stats;
      }
      if stat == Unknown {
        return NoName, stats;
      }
    }
    r := NoName;
  }

  datatype Parting = Moved | NothingThere | Stuck

  /** The existing database is renamed aside rather than deleted. */
  method MoveAside(host: Host, names: seq<Path>) returns (r: Parting, ghost aside: Path)
    requires host.paths.Distinct() && forall n | n in names :: n !in host.paths.All()
    modifies host`failures, host`files, host`trace, host`cares
    ensures r == Stuck ==> host.files == old(host.files)
    ensures host.failures >= old(host.failures)
    ensures r == Stuck ==> host.failures > old(host.failures) || AllTaken(old(host.files), names)
    ensures r == Moved ==> host.paths.db in old(host.files)
    ensures host.CaresOf(host.paths.snapshot) == old(host.CaresOf(host.paths.snapshot))
    ensures r != Stuck ==> MovedAside(host.paths, old(host.files), host.files, aside)
    ensures r == Moved <==> aside != host.paths.db
    ensures r == NothingThere ==> host.paths.db !in old(host.files)
    ensures old(host.trace) <= host.trace
            && KeptSince(host.paths, old(host.files), host.trace, |old(host.trace)|, aside)
    ensures Keeps(host.paths, old(host.files), host.files, aside)
  {
    aside := host.paths.db;
    var stat := host.StatPath(host.paths.db);
    if stat == Missing {
      return NothingThere, aside;
    }
    if stat == Unknown {
      return Stuck, aside;
    }
    var pick, stats := ReplacedPath(host, names);
    if pick.NoName? {
      return Stuck, aside;
    }
    var ok := host.Rename(host.paths.db, pick.path);
    if ok {
      r, aside := Moved, pick.path;
    } else {
      r := Stuck;
    }
  }

  /** What makes a copy last: its bytes, and its name in the directory. */
  const COPIED: seq<Care> := [Synced, Closed, Listed]

  method WriteOver(host: Host, data: Bytes, ghost before: Files, ghost aside: Path) returns (ok: bool)
    requires host.paths.Distinct() && MovedAside(host.paths, before, host.files, aside)
    modifies host`failures, host`files, host`trace, host`cares
    ensures old(host.trace) <= host.trace && KeptSince(host.paths, before, host.trace, |old(host.trace)|, aside)
    ensures MovedAside(host.paths, before, host.files, aside)
    ensures ok ==> Holds(host.files, host.paths.db, data) && host.CaresOf(host.paths.db) == []
    ensures host.failures >= old(host.failures) && (!ok ==> host.failures > old(host.failures))
    ensures forall p | p != host.paths.db :: host.CaresOf(p) == old(host.CaresOf(p))
  {
    ok := host.Truncate(host.paths.db);
    if ok {
      ok := host.Fill(host.paths.db, data);
    }
  }

  /** Copies the snapshot over `dst`: open, empty or create, write, fsync, close, fsync the directory. */
  method CopyFileFsync(host: Host, ghost before: Files, ghost aside: Path) returns (ok: bool)
    requires host.paths.Distinct() && MovedAside(host.paths, before, host.files, aside)
    modifies host`failures, host`files, host`trace, host`cares
    ensures old(host.trace) <= host.trace && KeptSince(host.paths, before, host.trace, |old(host.trace)|, aside)
    ensures MovedAside(host.paths, before, host.files, aside)
    ensures ok ==>
              && host.paths.snapshot in old(host.files)
              && Holds(host.files, host.paths.db, old(host.files)[host.paths.snapshot])
              && host.CaresOf(host.paths.db) == COPIED
    ensures host.failures >= old(host.failures)
    ensures !ok ==> host.failures > old(host.failures) || host.paths.snapshot !in old(host.files)
    ensures Intact in old(host.CaresOf(host.paths.snapshot)) ==> Intact in host.CaresOf(host.paths.snapshot)
  {
    var readable := host.Attend(host.paths.snapshot, Readable);
    if !readable || host.paths.snapshot !in host.files {
      return false;
    }
    ok := WriteOver(host, host.files[host.paths.snapshot], before, aside);
    if ok {
      ok := host.AttendAll(host.paths.db, [Synced, Closed, Listed]);
    }
  }

  /** The journal of the database that was moved away must not be replayed into its successor. */
  method DropStaleJournal(host: Host, ghost before: Files, ghost aside: Path) returns (ok: bool)
    requires host.paths.Distinct() && MovedAside(host.paths, before, host.files, aside)
    modifies host`failures, host`files, host`trace, host`cares
    ensures old(host.trace) <= host.trace && KeptSince(host.paths, before, host.trace, |old(host.trace)|, aside)
    ensures MovedAside(host.paths, before, host.files, aside)
    ensures forall p | p != host.paths.wal && p != host.paths.shm && p in old(host.files) ::
            Holds(host.files, p, old(host.files)[p])
    ensures ok ==> host.paths.wal !in host.files && host.paths.shm !in host.files
    ensures host.failures >= old(host.failures) && (!ok ==> host.failures > old(host.failures))
    ensures forall p | p != host.paths.wal && p != host.paths.shm :: host.CaresOf(p) == old(host.CaresOf(p))
  {
    ok := host.Delete(host.paths.wal);
    if ok {
      ok := host.Delete(host.paths.shm);
    }
  }

  /** Any failure ends the restore where it stands; `aside` is where the old database went, once it has moved. */
  method Restore(host: Host, names: seq<Path>) returns (ok: bool, ghost aside: Path)
    requires host.paths.Distinct() && forall n | n in names :: n !in host.paths.All()
    modifies host`failures, host`files, host`trace, host`cares
    ensures old(host.trace) <= host.trace
            && KeptSince(host.paths, old(host.files), host.trace, |old(host.trace)|, aside)
    ensures Keeps(host.paths, old(host.files), host.files, aside)
    ensures ok ==>
              && host.paths.snapshot in old(host.files)
              && Holds(host.files, host.paths.db, old(host.files)[host.paths.snapshot])
              && host.paths.wal !in host.files && host.paths.shm !in host.files
    // Nothing is touched before the snapshot is known to be intact; the copy lasts, and takes over owner and then mode.
    ensures host.files != old(host.files) || ok ==> Intact in host.CaresOf(host.paths.snapshot)
    ensures ok ==> host.CaresOf(host.paths.db)
                   == if host.paths.db in old(host.files) then COPIED + [Owned, Moded] else COPIED
    // It fails only where an operation did, without a snapshot, or when every name is taken.
    ensures host.failures >= old(host.failures)
    ensures !ok ==> || host.failures > old(host.failures) || host.paths.snapshot !in old(host.files)
                    || AllTaken(old(host.files), names)
    // Once moved, the old database is still where it went; and a restore that succeeds has moved it.
    ensures aside != host.paths.db ==> MovedAside(host.paths, old(host.files), host.files, aside)
    ensures ok && host.paths.db in old(host.files) ==> aside != host.paths.db
  {
    ghost var before := host.files;
    aside := host.paths.db;
    // verifySnapshot, then the database's own directory.
    var intact := host.Attend(host.paths.snapshot, Intact);
    var housed := host.Attend(host.paths.db, Housed);
    if host.paths.snapshot !in host.files || !intact || !housed {
      return false, aside;
    }
    var parting;
    parting, aside := MoveAside(host, names);
    if parting == Stuck {
      return false, aside;
    }
    ok := CopyFileFsync(host, before, aside);
    if !ok {
      return;
    }
    if parting == Moved {
      ok := host.AttendAll(host.paths.db, [Owned, Moded]);
      if !ok {
        return;
      }
    }
    ok := DropStaleJournal(host, before, aside);
  }
}
