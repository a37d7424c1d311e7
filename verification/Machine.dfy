/**
 The machine an update runs on: files under path names, and the service with its database. Every operation
 may fail; each filesystem state passed through is recorded, so that a halt between any two steps is one of
 the recorded states.
 */
module Machine {

  type Path = nat

  type Bytes = seq<char>

  type Files = map<Path, Bytes>

  datatype Stat = Found | Missing | Unknown

  /** What may be done to a file besides writing its bytes. */
  datatype Care = Intact | Housed | Readable | Moded | Synced | Closed | Listed | Owned

  datatype Service = Stopping | Migrating | Starting | Checking

  /** A call to the service: the disk it found, and whether it reported success. */
  datatype Call = Call(service: Service, found: Files, ok: bool)

  /** The six names an update works with, all different. */
  datatype Paths = Paths(binary: Path, previous: Path, db: Path, wal: Path, shm: Path, snapshot: Path)
  {
    function All(): set<Path> {
      {binary, previous, db, wal, shm, snapshot}
    }

    predicate Distinct() {
      && binary != previous && binary != db && binary != wal && binary != shm && binary != snapshot
      && previous != db && previous != wal && previous != shm && previous != snapshot
      && db != wal && db != shm && db != snapshot
      && wal != shm && wal != snapshot
      && shm != snapshot
    }
  }

  predicate Holds(files: Files, path: Path, content: Bytes) {
    path in files && files[path] == content
  }

  /** The two states differ at `path` alone. */
  ghost predicate OnlyAt(before: Files, after: Files, path: Path) {
    forall p | p != path :: (p in before <==> p in after) && (p in after ==> after[p] == before[p])
  }

  /** Nothing but the database files may have changed. */
  ghost predicate OnlyDb(paths: Paths, before: Files, after: Files) {
    forall p | p != paths.db && p != paths.wal && p != paths.shm ::
        (p in before <==> p in after) && (p in after ==> after[p] == before[p])
  }

  class Host {
    const paths: Paths
    var files: Files
    /** Whether the last health check was answered. */
    var healthy: bool
    /** Whether a service process may be running; only then does it write. */
    var running: bool
    /** Every filesystem state so far, the current one last. */
    ghost var trace: seq<Files>
    /** Every call to the service so far. */
    ghost var calls: seq<Call>
    /** What was done to the file at a path, in order, since its bytes were last written. */
    ghost var cares: map<Path, seq<Care>>

    /** How many operations have failed so far. */
    ghost var failures: nat

    ghost function CaresOf(path: Path): seq<Care>
      reads this
    {
      if path in cares then cares[path] else []
    }

    constructor (paths: Paths, files: Files)
      ensures this.paths == paths && this.files == files && running && trace == [files] && calls == [] && cares == map[]
      ensures failures == 0
    {
      this.paths, this.files, this.healthy, this.running := paths, files, true, true;
      this.trace, this.calls, this.cares, this.failures := [files], [], map[], 0;
    }

    method Rename(src: Path, dst: Path) returns (ok: bool)
      requires src != dst
      modifies this`failures, this`files, this`trace, this`cares
      ensures ok ==> src in old(files) && files == (old(files) - {src})[dst := old(files)[src]]
      ensures cares == if ok then (old(cares) - {src})[dst := old(CaresOf(src))] else old(cares)
      ensures !ok ==> files == old(files)
      ensures trace == old(trace) + [files]
      ensures failures == old(failures) + if ok then 0 else 1
    {
      ok := *;
      ok := ok && src in files;
      if ok {
        files := (files - {src})[dst := files[src]];
        cares := (cares - {src})[dst := CaresOf(src)];
      }
      trace := trace + [files];
      failures := failures + if ok then 0 else 1;
    }

    method StatPath(path: Path) returns (r: Stat)
      modifies this`failures
      ensures r == Found ==> path in files
      ensures r == Missing ==> path !in files
      ensures failures == old(failures) + if r == Unknown then 1 else 0
    {
      var answers: bool := *;
      r := if !answers then Unknown else if path in files then Found else Missing;
      failures := failures + if r == Unknown then 1 else 0;
    }

    /** Deleting a file that is not there counts as done. */
    method Delete(path: Path) returns (ok: bool)
      modifies this`failures, this`files, this`trace, this`cares
      ensures cares == if ok then old(cares) - {path} else old(cares)
      ensures files == if ok then old(files) - {path} else old(files)
      ensures trace == old(trace) + [files]
      ensures failures == old(failures) + if ok then 0 else 1
    {
      ok := *;
      if ok {
        files, cares := files - {path}, cares - {path};
      }
      trace := trace + [files];
      failures := failures + if ok then 0 else 1;
    }

    /** A new empty file under a name no other file has, and none of `taken`. */
    method CreateTemp(taken: set<Path>) returns (ok: bool, path: Path)
      modifies this`failures, this`files, this`trace, this`cares
      ensures cares == if ok then old(cares) - {path} else old(cares)
      ensures ok ==> path !in old(files) && path !in taken && files == old(files)[path := []]
      ensures !ok ==> files == old(files)
      ensures trace == old(trace) + [files]
      ensures failures == old(failures) + if ok then 0 else 1
    {
      ok, path := *, *;
      ok := ok && path !in files && path !in taken;
      if ok {
        files, cares := files[path := []], cares - {path};
      }
      trace := trace + [files];
      failures := failures + if ok then 0 else 1;
    }

    /** Creates the file, or empties the one that is there. */
    method Truncate(path: Path) returns (ok: bool)
      modifies this`failures, this`files, this`trace, this`cares
      ensures cares == if ok then old(cares) - {path} else old(cares)
      ensures files == if ok then old(files)[path := []] else old(files)
      ensures trace == old(trace) + [files]
      ensures failures == old(failures) + if ok then 0 else 1
    {
      ok := *;
      if ok {
        files, cares := files[path := []], cares - {path};
      }
      trace := trace + [files];
      failures := failures + if ok then 0 else 1;
    }

    /** Writes `data` out; a failure, or a halt on the way, leaves any part of it. */
    method Fill(path: Path, data: Bytes) returns (ok: bool)
      modifies this`failures, this`files, this`trace, this`cares
      ensures cares == old(cares) - {path}
      ensures OnlyAt(old(files), files, path)
      ensures ok ==> Holds(files, path, data)
      ensures |trace| == |old(trace)| + 2 && trace[..|old(trace)|] == old(trace) && trace[|trace| - 1] == files
      ensures OnlyAt(old(files), trace[|old(trace)|], path)
      ensures failures == old(failures) + if ok then 0 else 1
    {
      cares := cares - {path};
      var part: int := *;
      if 0 <= part <= |data| {
        files := files[path := data[..part]];
      }
      trace := trace + [files];
      ok := *;
      if ok {
        files := files[path := data];
      }
      trace := trace + [files];
      failures := failures + if ok then 0 else 1;
    }

    /** chmod, fsync, close, chown and the like: they fail or not, and leave every byte alone. */
    method Attend(path: Path, ghost care: Care) returns (ok: bool)
      modifies this`failures, this`cares
      ensures cares == if ok then old(cares)[path := old(CaresOf(path)) + [care]] else old(cares)
      ensures failures == old(failures) + if ok then 0 else 1
    {
      ok := *;
      if ok {
        cares := cares[path := CaresOf(path) + [care]];
      }
      failures := failures + if ok then 0 else 1;
    }

    /** Several of them in turn, each attempted. */
    method AttendAll(path: Path, wanted: seq<Care>) returns (ok: bool)
      decreases |wanted|
      modifies this`failures, this`cares
      ensures failures >= old(failures) && (!ok ==> failures > old(failures))
      ensures ok ==> CaresOf(path) == old(CaresOf(path)) + wanted
      ensures forall p | p != path :: CaresOf(p) == old(CaresOf(p))
      ensures old(CaresOf(path)) <= CaresOf(path)
    {
      ok := true;
      if wanted != [] {
        var done := Attend(path, wanted[0]);
        var rest := AttendAll(path, wanted[1..]);
        ok := done && rest;
        assert wanted == [wanted[0]] + wanted[1..];
      }
    }

    /** A process of the service writes its own database files, or not. */
    method ProcessWrites()
      modifies this`files, this`trace, this`cares
      ensures OnlyDb(paths, old(files), files) && cares == old(cares) - {paths.db, paths.wal, paths.shm}
      ensures trace == old(trace) + [files]
    {
      cares := cares - {paths.db, paths.wal, paths.shm};
      var content: Bytes, wal: Bytes, shm: Bytes := *, *, *;
      var touchesDb: bool, touchesWal: bool, touchesShm: bool := *, *, *;
      if touchesDb {
        files := files[paths.db := content];
      }
      if touchesWal {
        files := files[paths.wal := wal];
      }
      if touchesShm {
        files := files[paths.shm := shm];
      }
      trace := trace + [files];
    }

    /** A stop that reports success has ended the process; one that fails leaves that open. */
    method Stop() returns (ok: bool)
      modifies this`failures, this`files, this`running, this`trace, this`calls, this`cares
      ensures OnlyDb(paths, old(files), files)
      ensures !old(running) ==> files == old(files)
      ensures !old(running) || ok ==> !running
      ensures trace == old(trace) + [files]
      ensures calls == old(calls) + [Call(Stopping, old(files), ok)]
      ensures failures == old(failures) + if ok then 0 else 1
    {
      ghost var found := files;
      if running {
        ProcessWrites();
      } else {
        trace := trace + [files];
      }
      ok := *;
      if ok {
        running := false;
      }
      calls := calls + [Call(Stopping, found, ok)];
      failures := failures + if ok then 0 else 1;
    }

    /** Starting may migrate the database and leave the service up whether or not it reports success. */
    method Start() returns (ok: bool)
      modifies this`failures, this`files, this`running, this`trace, this`calls, this`cares
      ensures OnlyDb(paths, old(files), files) && running
      ensures trace == old(trace) + [files]
      ensures calls == old(calls) + [Call(Starting, old(files), ok)]
      ensures cares == old(cares) - {paths.db, paths.wal, paths.shm}
      ensures failures == old(failures) + if ok then 0 else 1
    {
      ghost var found := files;
      running := true;
      ProcessWrites();
      ok := *;
      calls := calls + [Call(Starting, found, ok)];
      failures := failures + if ok then 0 else 1;
    }

    method Migrate() returns (ok: bool)
      modifies this`failures, this`files, this`trace, this`calls, this`cares
      ensures OnlyDb(paths, old(files), files)
      ensures trace == old(trace) + [files]
      ensures calls == old(calls) + [Call(Migrating, old(files), ok)]
      ensures cares == old(cares) - {paths.db, paths.wal, paths.shm}
      ensures failures == old(failures) + if ok then 0 else 1
    {
      ghost var found := files;
      ProcessWrites();
      ok := *;
      calls := calls + [Call(Migrating, found, ok)];
      failures := failures + if ok then 0 else 1;
    }

    /** Only a service that may be running answers. */
    method WaitHealthy() returns (ok: bool)
      modifies this`failures, this`files, this`healthy, this`trace, this`calls, this`cares
      ensures healthy == ok && (ok ==> running)
      ensures OnlyDb(paths, old(files), files)
      ensures trace == old(trace) + [files]
      ensures calls == old(calls) + [Call(Checking, old(files), ok)]
      ensures cares == old(cares) - {paths.db, paths.wal, paths.shm}
      ensures failures == old(failures) + if ok then 0 else 1
    {
      ghost var found := files;
      ProcessWrites();
      ok := *;
      ok := ok && running;
      healthy := ok;
      calls := calls + [Call(Checking, found, ok)];
      failures := failures + if ok then 0 else 1;
    }
  }
}
