/**
 Self-update with automatic rollback, from the service stop on (internal/release/install.go). `names` are the
 sixty moved-aside names a restore may try; every operation may fail, in every combination.
 */
module Update {
  import opened Machine
  import Backup

  datatype Step = MoveBinaryBack | RestoreSnapshot | StartService

  datatype Outcome = Installed | RolledBack | StopFailed(restarted: bool) | Broken(byHand: seq<Step>)

  datatype InstallState = InstallState(parked: bool, migrated: bool)

  datatype RollbackResult = RollbackResult(clean: bool, binaryNotRestored: bool, dbNotRestored: bool,
      serviceNotServing: bool)

  /** The old binary's bytes are where an operator or a rollback can find them. */
  ghost predicate BinaryKept(paths: Paths, was: Bytes, t: Files) {
    Holds(t, paths.binary, was) || Holds(t, paths.previous, was)
  }

  ghost predicate KeptSince(paths: Paths, was: Bytes, trace: seq<Files>, since: nat) {
    forall k | since <= k < |trace| :: BinaryKept(paths, was, trace[k])
  }

  /** Files other than the binary, and temporary ones, are untouched. */
  ghost predicate OnlyBinary(paths: Paths, before: Files, after: Files) {
    forall p | p in paths.All() && p != paths.binary ::
        (p in before <==> p in after) && (p in after ==> after[p] == before[p])
  }

  /** A restore within an update: it began after `since` recorded states, on `before`, and the service was restarted
      after `until` of them; `aside` is where the database went, or its own path while it has not moved. */
  datatype Restoring = NoRestore | Restoring(since: nat, until: nat, before: Files, aside: Path)

  /** The database's bytes from just before the restore are under its own name or a name nothing had at every state up
      to the restart; and once moved they stay there, through the restart and after. */
  ghost predicate DbKept(paths: Paths, trace: seq<Files>, r: Restoring)
    requires r.Restoring?
  {
    && 0 < r.since <= r.until <= |trace| && r.before == trace[r.since - 1]
    && (forall k | r.since <= k < r.until :: Backup.Keeps(paths, r.before, trace[k], r.aside))
    && (r.aside != paths.db && paths.db in r.before ==>
          && r.aside !in r.before
          && forall k | r.until <= k < |trace| :: Holds(trace[k], r.aside, r.before[paths.db]))
  }

  predicate SameDb(paths: Paths, a: Files, b: Files) {
    (paths.db in a <==> paths.db in b) && (paths.db in a ==> a[paths.db] == b[paths.db])
  }

  // ----- what was asked of the service

  /** What an installation asks of the service once the new bytes are in place. */
  function Wanted(hasMigrate: bool): (calls: seq<Service>)
    ensures 1 <= |calls| <= 2
  {
    if hasMigrate then [Migrating, Starting] else [Starting]
  }

  /** Calls of an attempt to install: the ones wanted, in order, each on the new bytes, up to the first that failed. */
  ghost predicate Attempted(calls: seq<Call>, hasMigrate: bool, binary: Path, data: Bytes, ok: bool) {
    && |calls| <= |Wanted(hasMigrate)|
    && (forall k | 0 <= k < |calls| ::
          && calls[k].service == Wanted(hasMigrate)[k] && Holds(calls[k].found, binary, data)
          && (calls[k].ok <==> k < |calls| - 1 || ok))
    && (ok ==> |calls| == |Wanted(hasMigrate)|)
  }

  /** An attempt that went well, and then asked on the new bytes whether the service is healthy. */
  ghost predicate CameUp(calls: seq<Call>, hasMigrate: bool, binary: Path, data: Bytes, healthy: bool) {
    && calls != [] && calls[|calls| - 1].service == Checking && calls[|calls| - 1].ok == healthy
    && Holds(calls[|calls| - 1].found, binary, data)
    && Attempted(calls[..|calls| - 1], hasMigrate, binary, data, true)
  }

  /** An installation that was not to stay: an attempt that failed, or one that went well and was not healthy. */
  ghost predicate GaveUp(calls: seq<Call>, hasMigrate: bool, binary: Path, data: Bytes) {
    Attempted(calls, hasMigrate, binary, data, false) || CameUp(calls, hasMigrate, binary, data, false)
  }

  /** Stop, start on the disk put back, and ask for health, each whatever came of the others. */
  ghost predicate Reverted(calls: seq<Call>, handed: Files) {
    && |calls| == 3
    && calls[0].service == Stopping && calls[1].service == Starting && calls[2].service == Checking
    && calls[1].found == handed
  }

  // ----- the steps

  /** Where the old binary is while a rollback runs. */
  function Seat(paths: Paths, atBinary: bool): Path {
    if atBinary then paths.binary else paths.previous
  }

  /** What was done to the new binary before it took its name: made executable, and its bytes made to last. */
  const WRITTEN: seq<Care> := [Moded, Synced, Closed]

  method WriteBinaryAtomically(host: Host, data: Bytes, ghost was: Bytes) returns (ok: bool)
    requires host.paths.Distinct() && Holds(host.files, host.paths.previous, was)
    modifies host`failures, host`files, host`trace, host`cares
    ensures old(host.trace) <= host.trace && KeptSince(host.paths, was, host.trace, |old(host.trace)|)
    ensures OnlyBinary(host.paths, old(host.files), host.files)
    ensures ok ==> Holds(host.files, host.paths.binary, data) && host.CaresOf(host.paths.binary) == WRITTEN
    ensures host.failures >= old(host.failures) && (!ok ==> host.failures > old(host.failures))
  {
    var tmp;
    ok, tmp := host.CreateTemp(host.paths.All());
    if !ok {
      return;
    }
    ok := FillAndRename(host, tmp, data, was);
    if !ok {
      var removed := host.Delete(tmp);
    }
  }

  method FillAndRename(host: Host, tmp: Path, data: Bytes, ghost was: Bytes) returns (ok: bool)
    requires host.paths.Distinct() && Holds(host.files, host.paths.previous, was) && tmp !in host.paths.All()
    modifies host`failures, host`files, host`trace, host`cares
    ensures old(host.trace) <= host.trace && KeptSince(host.paths, was, host.trace, |old(host.trace)|)
    ensures OnlyBinary(host.paths, old(host.files), host.files)
    ensures ok ==> Holds(host.files, host.paths.binary, data) && host.CaresOf(host.paths.binary) == WRITTEN
    ensures host.failures >= old(host.failures) && (!ok ==> host.failures > old(host.failures))
  {
    ok := host.Fill(tmp, data);
    if !ok {
      return;
    }
    ok := host.AttendAll(tmp, [Moded, Synced, Closed]);
    if ok {
      ok := host.Rename(tmp, host.paths.binary);
    }
  }

  method InstallAndStart(host: Host, data: Bytes, hasMigrate: bool, ghost was: Bytes)
    returns (ok: bool, state: InstallState)
    requires host.paths.Distinct() && Holds(host.files, host.paths.binary, was) && !host.running
    modifies host`failures, host`files, host`running, host`trace, host`calls, host`cares
    ensures old(host.trace) <= host.trace && KeptSince(host.paths, was, host.trace, |old(host.trace)|)
    ensures ok ==> state == InstallState(true, true) && Holds(host.files, host.paths.binary, data) && host.running
    ensures host.failures >= old(host.failures) && (!ok ==> host.failures > old(host.failures))
    ensures ok ==> host.CaresOf(host.paths.binary) == WRITTEN
    ensures old(host.calls) <= host.calls && (state.migrated <==> host.calls != old(host.calls))
    ensures Attempted(host.calls[|old(host.calls)|..], hasMigrate, host.paths.binary, data, ok)
    ensures Holds(host.files, Seat(host.paths, !state.parked), was) && (state.migrated ==> state.parked)
    ensures !state.migrated ==> SameDb(host.paths, old(host.files), host.files) && !host.running
    ensures host.paths.snapshot in old(host.files)
            ==> Holds(host.files, host.paths.snapshot, old(host.files)[host.paths.snapshot])
  {
    state := InstallState(false, false);
    ok := host.Rename(host.paths.binary, host.paths.previous);
    if !ok {
      return;
    }
    state := state.(parked := true);
    ok := WriteBinaryAtomically(host, data, was);
    if !ok {
      return;
    }
    state := state.(migrated := true);
    ok := MigrateAndStart(host, data, hasMigrate, was);
  }

  /** The two that write the database, in that order. */
  method MigrateAndStart(host: Host, data: Bytes, hasMigrate: bool, ghost was: Bytes) returns (ok: bool)
    requires host.paths.Distinct() && Holds(host.files, host.paths.previous, was)
    requires Holds(host.files, host.paths.binary, data)
    modifies host`failures, host`files, host`running, host`trace, host`calls, host`cares
    ensures old(host.trace) <= host.trace && KeptSince(host.paths, was, host.trace, |old(host.trace)|)
    ensures OnlyDb(host.paths, old(host.files), host.files) && (ok ==> host.running)
    ensures host.failures >= old(host.failures) && (!ok ==> host.failures > old(host.failures))
    ensures host.CaresOf(host.paths.binary) == old(host.CaresOf(host.paths.binary))
    ensures old(host.calls) < host.calls
    ensures Attempted(host.calls[|old(host.calls)|..], hasMigrate, host.paths.binary, data, ok)
  {
    if hasMigrate {
      ok := host.Migrate();
      if !ok {
        return;
      }
    }
    ok := host.Start();
  }

  /** The installation and the wait for health. */
  method InstallAndCheck(host: Host, data: Bytes, hasMigrate: bool, ghost was: Bytes)
    returns (ok: bool, state: InstallState)
    requires host.paths.Distinct() && Holds(host.files, host.paths.binary, was) && !host.running
    modifies host`failures, host`files, host`running, host`healthy, host`trace, host`calls, host`cares
    ensures old(host.trace) <= host.trace && KeptSince(host.paths, was, host.trace, |old(host.trace)|)
    ensures ok ==> state.migrated && Holds(host.files, host.paths.binary, data) && host.running && host.healthy
    ensures host.failures >= old(host.failures) && (!ok ==> host.failures > old(host.failures))
    ensures ok ==> host.CaresOf(host.paths.binary) == WRITTEN
    ensures old(host.calls) <= host.calls
    ensures ok ==> CameUp(host.calls[|old(host.calls)|..], hasMigrate, host.paths.binary, data, true)
    ensures !ok ==> GaveUp(host.calls[|old(host.calls)|..], hasMigrate, host.paths.binary, data)
    ensures Holds(host.files, Seat(host.paths, !state.parked), was) && (state.migrated ==> state.parked)
    ensures !state.migrated ==> SameDb(host.paths, old(host.files), host.files) && !host.running
    ensures host.paths.snapshot in old(host.files)
            ==> Holds(host.files, host.paths.snapshot, old(host.files)[host.paths.snapshot])
  {
    ghost var since := |host.calls|;
    ok, state := InstallAndStart(host, data, hasMigrate, was);
    if ok {
      ghost var attempt := host.calls;
      ok := host.WaitHealthy();
      assert host.calls[since..][..|attempt| - since] == attempt[since..];
    }
  }

  method RestoreBinary(host: Host, ghost was: Bytes) returns (ok: bool)
    requires host.paths.Distinct() && Holds(host.files, host.paths.previous, was)
    modifies host`failures, host`files, host`trace, host`cares
    ensures old(host.trace) <= host.trace && KeptSince(host.paths, was, host.trace, |old(host.trace)|)
    ensures ok ==> Holds(host.files, host.paths.binary, was)
    ensures host.failures >= old(host.failures) && (!ok ==> host.failures > old(host.failures))
    ensures !ok ==> host.files == old(host.files)
    ensures host.trace == old(host.trace) || host.trace == old(host.trace) + [host.files]
    ensures host.trace == old(host.trace) ==> host.files == old(host.files)
    ensures SameDb(host.paths, old(host.files), host.files)
    ensures host.paths.snapshot in old(host.files)
            ==> Holds(host.files, host.paths.snapshot, old(host.files)[host.paths.snapshot])
  {
    var stat := host.StatPath(host.paths.previous);
    if stat != Found {
      return false;
    }
    ok := host.Rename(host.paths.previous, host.paths.binary);
  }

  /** Backup.Restore, seen from the rollback: neither binary moves. */
  method RestoreDatabase(host: Host, names: seq<Path>, ghost was: Bytes, ghost atBinary: bool)
    returns (ok: bool, ghost aside: Path)
    requires host.paths.Distinct() && forall n | n in names :: n !in host.paths.All()
    requires Holds(host.files, Seat(host.paths, atBinary), was) && host.paths.snapshot in host.files
    modifies host`failures, host`files, host`trace, host`cares
    ensures old(host.trace) <= host.trace && KeptSince(host.paths, was, host.trace, |old(host.trace)|)
    ensures Holds(host.files, Seat(host.paths, atBinary), was)
    ensures Holds(host.files, host.paths.snapshot, old(host.files)[host.paths.snapshot])
    ensures ok ==> Holds(host.files, host.paths.db, old(host.files)[host.paths.snapshot])
    ensures Backup.KeptSince(host.paths, old(host.files), host.trace, |old(host.trace)|, aside)
    ensures aside != host.paths.db ==> Backup.MovedAside(host.paths, old(host.files), host.files, aside)
    ensures ok && host.paths.db in old(host.files) ==> aside != host.paths.db
    ensures host.failures >= old(host.failures)
    ensures !ok ==> host.failures > old(host.failures) || Backup.AllTaken(old(host.files), names)
    ensures ok ==> host.CaresOf(host.paths.db)
                   == Backup.COPIED + if host.paths.db in old(host.files) then [Owned, Moded] else []
  {
    ghost var since, before := |host.trace|, host.files;
    ok, aside := Backup.Restore(host, names);
    forall k | since <= k < |host.trace|
      ensures BinaryKept(host.paths, was, host.trace[k])
    {
      assert Backup.Keeps(host.paths, before, host.trace[k], aside);
      assert Holds(host.trace[k], Seat(host.paths, atBinary), before[Seat(host.paths, atBinary)]);
    }
  }

  /** What the files say of a restore just over: the database moved, unless the restore stopped before that. */
  ghost predicate RestoreOver(
    paths: Paths, files: Files, trace: seq<Files>, state: InstallState, res: RollbackResult, r: Restoring) {
    && (r.Restoring? <==> state.migrated)
    && (r.Restoring? ==>
          && DbKept(paths, trace, r) && r.until == |trace|
          && (r.aside != paths.db ==> Backup.MovedAside(paths, r.before, files, r.aside))
          && (!res.dbNotRestored && paths.db in r.before ==> r.aside != paths.db))
  }

  /** Stop and move the binary back: each attempted whatever the other did. */
  method StopAndMoveBack(host: Host, state: InstallState, ghost was: Bytes) returns (res: RollbackResult)
    requires host.paths.Distinct()
    requires Holds(host.files, Seat(host.paths, !state.parked), was) && host.paths.snapshot in host.files
    requires !state.migrated ==> !host.running
    modifies host`failures, host`files, host`running, host`trace, host`calls, host`cares
    ensures old(host.trace) <= host.trace && KeptSince(host.paths, was, host.trace, |old(host.trace)|)
    ensures |host.calls| == |old(host.calls)| + 1 && old(host.calls) <= host.calls
    ensures host.calls[|old(host.calls)|].service == Stopping && (res.clean ==> host.calls[|old(host.calls)|].ok)
    ensures |host.trace| > |old(host.trace)| && host.trace[|host.trace| - 1] == host.files
    ensures Holds(host.files, Seat(host.paths, !res.binaryNotRestored), was)
    ensures Holds(host.files, host.paths.snapshot, old(host.files)[host.paths.snapshot])
    ensures !state.migrated ==> SameDb(host.paths, old(host.files), host.files)
    ensures !res.serviceNotServing && !res.dbNotRestored && (res.clean ==> !res.binaryNotRestored)
    ensures host.failures >= old(host.failures) && (!res.clean ==> host.failures > old(host.failures))
  {
    res := RollbackResult(true, false, false, false);
    var ok := host.Stop();
    if !ok {
      res := res.(clean := false);
    }
    if state.parked {
      ok := RestoreBinary(host, was);
      if !ok {
        res := res.(clean := false, binaryNotRestored := true);
      }
    }
  }

  /** Then restore the snapshot, if a migration may have run, whatever came of the rest. */
  method PutBack(host: Host, state: InstallState, names: seq<Path>, ghost was: Bytes)
    returns (res: RollbackResult, ghost restoring: Restoring)
    requires host.paths.Distinct() && forall n | n in names :: n !in host.paths.All()
    requires Holds(host.files, Seat(host.paths, !state.parked), was) && host.paths.snapshot in host.files
    requires !state.migrated ==> !host.running
    modifies host`failures, host`files, host`running, host`trace, host`calls, host`cares
    ensures old(host.trace) <= host.trace && KeptSince(host.paths, was, host.trace, |old(host.trace)|)
    ensures |host.calls| == |old(host.calls)| + 1 && old(host.calls) <= host.calls
    ensures host.calls[|old(host.calls)|].service == Stopping && (res.clean ==> host.calls[|old(host.calls)|].ok)
    ensures Holds(host.files, Seat(host.paths, !res.binaryNotRestored), was)
    ensures Holds(host.files, host.paths.snapshot, old(host.files)[host.paths.snapshot])
    ensures state.migrated && !res.dbNotRestored
            ==> Holds(host.files, host.paths.db, old(host.files)[host.paths.snapshot])
    ensures state.migrated && !res.dbNotRestored ==> Backup.COPIED <= host.CaresOf(host.paths.db)
    ensures !state.migrated ==> SameDb(host.paths, old(host.files), host.files) && !res.dbNotRestored
    ensures !res.serviceNotServing && (res.clean ==> !res.binaryNotRestored && !res.dbNotRestored)
    ensures host.failures >= old(host.failures)
    ensures !res.clean ==>
      host.failures > old(host.failures) || (restoring.Restoring? && Backup.AllTaken(restoring.before, names))
    ensures RestoreOver(host.paths, host.files, host.trace, state, res, restoring)
    ensures restoring.Restoring? ==> restoring.since >= |old(host.trace)|
  {
    res := StopAndMoveBack(host, state, was);
    restoring := NoRestore;
    if state.migrated {
      ghost var since, before := |host.trace|, host.files;
      var ok, aside := RestoreDatabase(host, names, was, !res.binaryNotRestored);
      if !ok {
        res := res.(clean := false, dbNotRestored := true);
      }
      restoring := Restoring(since, |host.trace|, before, aside);
    }
  }

  /** Start the service and wait; only the database's own files may change. */
  method Restart(host: Host) returns (started: bool)
    modifies host`failures, host`files, host`running, host`healthy, host`trace, host`calls, host`cares
    ensures old(host.trace) <= host.trace && host.running
    ensures |host.calls| == |old(host.calls)| + 2 && old(host.calls) <= host.calls
    ensures host.failures >= old(host.failures)
    ensures !started || !host.healthy ==> host.failures > old(host.failures)
    ensures var n := |old(host.calls)|;
            && host.calls[n] == Call(Starting, old(host.files), started)
            && host.calls[n + 1].service == Checking && host.calls[n + 1].ok == host.healthy
    ensures OnlyDb(host.paths, old(host.files), host.files)
    ensures forall k | |old(host.trace)| <= k < |host.trace| :: OnlyDb(host.paths, old(host.files), host.trace[k])
  {
    started := host.Start();
    var _ := host.WaitHealthy();
  }

  /** A database moved aside stays there through a restart. */
  lemma {:induction false} DbKeptThrough(paths: Paths, files: Files, was: seq<Files>, trace: seq<Files>, r: Restoring)
    requires paths.Distinct() && r.Restoring? && DbKept(paths, was, r) && r.until == |was| && was <= trace
    requires r.aside != paths.db ==> Backup.MovedAside(paths, r.before, files, r.aside)
    requires forall k | |was| <= k < |trace| :: OnlyDb(paths, files, trace[k])
    ensures DbKept(paths, trace, r)
  {
    forall k | r.since <= k < r.until
      ensures Backup.Keeps(paths, r.before, trace[k], r.aside)
    {
      assert trace[k] == was[k];
    }
    if r.aside != paths.db && paths.db in r.before {
      forall k | r.until <= k < |trace|
        ensures Holds(trace[k], r.aside, r.before[paths.db])
      {
        assert OnlyDb(paths, files, trace[k]);
      }
    }
  }

  /** So does the old binary, and so does the snapshot. */
  lemma {:induction false} BinaryKeptThrough(
    paths: Paths, files: Files, was: Bytes, trace: seq<Files>, since: nat, atBinary: bool)
    requires paths.Distinct() && Holds(files, Seat(paths, atBinary), was)
    requires forall k | since <= k < |trace| :: OnlyDb(paths, files, trace[k])
    ensures KeptSince(paths, was, trace, since)
  {
    forall k | since <= k < |trace|
      ensures BinaryKept(paths, was, trace[k])
    {
      assert OnlyDb(paths, files, trace[k]);
    }
  }

  /** `handed` is the disk the restart found; health, not Start's exit, decides whether the service is back. */
  method Rollback(host: Host, state: InstallState, names: seq<Path>, ghost was: Bytes)
    returns (res: RollbackResult, ghost handed: Files, ghost restoring: Restoring)
    requires host.paths.Distinct() && forall n | n in names :: n !in host.paths.All()
    requires Holds(host.files, Seat(host.paths, !state.parked), was) && host.paths.snapshot in host.files
    requires !state.migrated ==> !host.running
    modifies host`failures, host`files, host`running, host`healthy, host`trace, host`calls, host`cares
    ensures old(host.trace) <= host.trace && KeptSince(host.paths, was, host.trace, |old(host.trace)|)
    ensures old(host.calls) <= host.calls && Reverted(host.calls[|old(host.calls)|..], handed) && host.running
    ensures host.calls[|host.calls| - 1].ok == host.healthy
    ensures res.clean ==> forall k | |old(host.calls)| <= k < |host.calls| :: host.calls[k].ok
    ensures Holds(handed, Seat(host.paths, !res.binaryNotRestored), was)
    ensures Holds(host.files, Seat(host.paths, !res.binaryNotRestored), was)
    ensures Holds(host.files, host.paths.snapshot, old(host.files)[host.paths.snapshot])
    ensures state.migrated && !res.dbNotRestored ==> Holds(handed, host.paths.db, old(host.files)[host.paths.snapshot])
    ensures !state.migrated ==> SameDb(host.paths, old(host.files), handed) && !res.dbNotRestored
    ensures res.serviceNotServing <==> !host.healthy
    ensures res.clean ==> !res.binaryNotRestored && !res.dbNotRestored && !res.serviceNotServing
    ensures host.failures >= old(host.failures)
    ensures !res.clean ==>
      host.failures > old(host.failures) || (restoring.Restoring? && Backup.AllTaken(restoring.before, names))
    ensures restoring.Restoring? <==> state.migrated
    ensures restoring.Restoring? ==> DbKept(host.paths, host.trace, restoring) && restoring.since >= |old(host.trace)|
    ensures restoring.Restoring? && !res.dbNotRestored && host.paths.db in restoring.before
            ==> restoring.aside != host.paths.db
  {
    res, restoring := PutBack(host, state, names, was);
    handed := host.files;
    ghost var before := host.trace;
    var started := Restart(host);
    if restoring.Restoring? {
      DbKeptThrough(host.paths, handed, before, host.trace, restoring);
    }
    BinaryKeptThrough(host.paths, handed, was, host.trace, |before|, !res.binaryNotRestored);
    if !started {
      res := res.(clean := false);
    }
    if !host.healthy {
      res := res.(clean := false, serviceNotServing := true);
    }
  }

  /** The binary before the database, and the service last. */
  function Turn(step: Step): nat {
    match step
    case MoveBinaryBack => 0
    case RestoreSnapshot => 1
    case StartService => 2
  }

  /** handRecovery: the steps still to be done by hand, and no others. */
  function HandRecovery(res: RollbackResult): seq<Step> {
    (if res.binaryNotRestored then [MoveBinaryBack] else [])
    + (if res.dbNotRestored then [RestoreSnapshot] else [])
    + (if res.serviceNotServing then [StartService] else [])
  }

  // ----- the whole update

  /** What an outcome means for the files, given the snapshot's bytes, the disk when the service had stopped
      (`stopped`), the disk a rollback restarted on (`handed`), and whether a migration may have run. */
  ghost predicate Means(
    outcome: Outcome, host: Host, was: Bytes, data: Bytes, snapshot: Bytes, stopped: Files, handed: Files,
    migrated: bool)
    reads host
  {
    match outcome
    // The verified bytes are in place and the service answered.
    case Installed => Holds(host.files, host.paths.binary, data) && host.healthy
    // The old bytes are in place, the restart found the right database, and the service answered.
    case RolledBack =>
      && Holds(host.files, host.paths.binary, was) && host.healthy
      && (if migrated then Holds(handed, host.paths.db, snapshot) else SameDb(host.paths, stopped, handed))
    case StopFailed(_) => Holds(host.files, host.paths.binary, was)
    // Whatever was not put back is named, and what a named step needs is there.
    case Broken(byHand) =>
      && (!Holds(host.files, host.paths.binary, was) ==> MoveBinaryBack in byHand)
      && (MoveBinaryBack in byHand ==> Holds(host.files, host.paths.previous, was))
      && (migrated && !Holds(handed, host.paths.db, snapshot) ==> RestoreSnapshot in byHand)
      && (!migrated ==> SameDb(host.paths, stopped, handed) && RestoreSnapshot !in byHand)
      && (StartService in byHand <==> !host.healthy)
      && (forall i, j | 0 <= i < j < |byHand| :: Turn(byHand[i]) < Turn(byHand[j]))
  }

  /** The last of `a` and all that came after it, in parts. */
  lemma {:induction false} AskedSplit(a: seq<Call>, b: seq<Call>, c: seq<Call>)
    requires a != [] && a <= b <= c
    ensures var all := c[|a| - 1..];
            && all[0] == a[|a| - 1] && |all| == 1 + |b[|a|..]| + |c[|b|..]|
            && all[1..1 + |b[|a|..]|] == b[|a|..] && all[1 + |b[|a|..]|..] == c[|b|..]
  {
  }

  /** What an outcome says was asked of the service, in order, since the update began. */
  ghost predicate Asked(
    outcome: Outcome, calls: seq<Call>, paths: Paths, was: Bytes, data: Bytes, hasMigrate: bool, handed: Files)
  {
    var n := |calls|;
    && n >= 2 && calls[0].service == Stopping && (calls[0].ok <==> !outcome.StopFailed?)
    && match outcome
       // Stopped, migrated and started on the new bytes, and healthy.
       case Installed => CameUp(calls[1..], hasMigrate, paths.binary, data, true)
       // Nothing had been moved, and the service was started again.
       case StopFailed(restarted) =>
         n == 2 && calls[1].service == Starting && calls[1].ok == restarted && Holds(calls[1].found, paths.binary, was)
       // Given up, stopped, started on the old bytes and the disk put back, and healthy.
       case RolledBack =>
         && n >= 4 && GaveUp(calls[1..n - 3], hasMigrate, paths.binary, data) && Reverted(calls[n - 3..], handed)
         && calls[n - 3].ok && calls[n - 2].ok && calls[n - 1].ok && Holds(handed, paths.binary, was)
       case Broken(byHand) =>
         && n >= 4 && GaveUp(calls[1..n - 3], hasMigrate, paths.binary, data) && Reverted(calls[n - 3..], handed)
         && (calls[n - 1].ok <==> StartService !in byHand)
  }

  lemma {:induction false} AskedInstall(
    a: seq<Call>, b: seq<Call>, paths: Paths, was: Bytes, data: Bytes, hasMigrate: bool, handed: Files)
    requires a != [] && a <= b && a[|a| - 1].service == Stopping && a[|a| - 1].ok
    requires CameUp(b[|a|..], hasMigrate, paths.binary, data, true)
    ensures Asked(Installed, b[|a| - 1..], paths, was, data, hasMigrate, handed)
  {
    AskedSplit(a, b, b);
    assert b[|a| - 1..][1..] == b[|a|..];
  }

  lemma {:induction false} AskedRollback(
    outcome: Outcome, a: seq<Call>, b: seq<Call>, c: seq<Call>, paths: Paths, was: Bytes, data: Bytes,
    hasMigrate: bool, handed: Files)
    requires outcome.RolledBack? || outcome.Broken?
    requires a != [] && a <= b <= c && a[|a| - 1].service == Stopping && a[|a| - 1].ok
    requires GaveUp(b[|a|..], hasMigrate, paths.binary, data) && Reverted(c[|b|..], handed)
    requires outcome.RolledBack? ==> Holds(handed, paths.binary, was) && forall k | |b| <= k < |c| :: c[k].ok
    requires outcome.Broken? ==> (c[|c| - 1].ok <==> StartService !in outcome.byHand)
    ensures Asked(outcome, c[|a| - 1..], paths, was, data, hasMigrate, handed)
  {
    var all := c[|a| - 1..];
    AskedSplit(a, b, c);
    assert all[1..|all| - 3] == b[|a|..] && all[|all| - 3..] == c[|b|..];
    assert all[|all| - 3] == c[|b|] && all[|all| - 2] == c[|b| + 1] && all[|all| - 1] == c[|b| + 2];
  }

  lemma {:induction false} NamesWhatIsLeft(res: RollbackResult)
    ensures MoveBinaryBack in HandRecovery(res) <==> res.binaryNotRestored
    ensures RestoreSnapshot in HandRecovery(res) <==> res.dbNotRestored
    ensures StartService in HandRecovery(res) <==> res.serviceNotServing
    ensures forall i, j | 0 <= i < j < |HandRecovery(res)| :: Turn(HandRecovery(res)[i]) < Turn(HandRecovery(res)[j])
  {
  }

  method RollbackOutcome(
    host: Host, data: Bytes, hasMigrate: bool, state: InstallState, names: seq<Path>, ghost was: Bytes,
    ghost stopped: Files, ghost first: seq<Call>)
    returns (outcome: Outcome, ghost handed: Files, ghost restoring: Restoring)
    requires host.paths.Distinct() && forall n | n in names :: n !in host.paths.All()
    requires Holds(host.files, Seat(host.paths, !state.parked), was) && host.paths.snapshot in host.files
    requires !state.migrated ==> !host.running && SameDb(host.paths, stopped, host.files)
    requires first != [] && first <= host.calls && first[|first| - 1].service == Stopping && first[|first| - 1].ok
    requires GaveUp(host.calls[|first|..], hasMigrate, host.paths.binary, data)
    modifies host`failures, host`files, host`running, host`healthy, host`trace, host`calls, host`cares
    ensures old(host.trace) <= host.trace && KeptSince(host.paths, was, host.trace, |old(host.trace)|)
    ensures Holds(host.files, host.paths.snapshot, old(host.files)[host.paths.snapshot])
    ensures outcome.RolledBack? || outcome.Broken?
    ensures host.failures >= old(host.failures)
    ensures outcome.Broken? ==>
      host.failures > old(host.failures) || (restoring.Restoring? && Backup.AllTaken(restoring.before, names))
    ensures host.running && old(host.calls) <= host.calls
    ensures Asked(outcome, host.calls[|first| - 1..], host.paths, was, data, hasMigrate, handed)
    ensures Means(outcome, host, was, data, old(host.files)[host.paths.snapshot], stopped, handed, state.migrated)
    ensures restoring.Restoring? <==> state.migrated
    ensures restoring.Restoring? ==> DbKept(host.paths, host.trace, restoring) && restoring.since >= |old(host.trace)|
    ensures outcome.RolledBack? && state.migrated && host.paths.db in restoring.before
            ==> restoring.aside != host.paths.db
  {
    ghost var second := host.calls;
    var res;
    res, handed, restoring := Rollback(host, state, names, was);
    NamesWhatIsLeft(res);
    outcome := if res.clean then RolledBack else Broken(HandRecovery(res));
    AskedRollback(outcome, first, second, host.calls, host.paths, was, data, hasMigrate, handed);
  }

  /** What follows a stop that reported success. */
  method InstallOrRevert(host: Host, data: Bytes, hasMigrate: bool, names: seq<Path>, ghost was: Bytes)
    returns (outcome: Outcome, ghost handed: Files, ghost migrated: bool, ghost restoring: Restoring)
    requires host.paths.Distinct() && forall n | n in names :: n !in host.paths.All()
    requires Holds(host.files, host.paths.binary, was) && host.paths.snapshot in host.files && !host.running
    requires host.calls != [] && host.calls[|host.calls| - 1].service == Stopping && host.calls[|host.calls| - 1].ok
    modifies host`failures, host`files, host`running, host`healthy, host`trace, host`calls, host`cares
    ensures old(host.trace) <= host.trace && KeptSince(host.paths, was, host.trace, |old(host.trace)|)
    ensures Holds(host.files, host.paths.snapshot, old(host.files)[host.paths.snapshot])
    ensures Means(outcome, host, was, data, old(host.files)[host.paths.snapshot], old(host.files), handed, migrated)
    ensures !outcome.StopFailed? && host.running && old(host.calls) <= host.calls
    ensures host.failures >= old(host.failures) && (!outcome.Installed? ==> host.failures > old(host.failures))
    ensures outcome.Installed? ==> host.CaresOf(host.paths.binary) == WRITTEN
    ensures Asked(outcome, host.calls[|old(host.calls)| - 1..], host.paths, was, data, hasMigrate, handed)
    ensures restoring.Restoring? <==> migrated && (outcome.RolledBack? || outcome.Broken?)
    ensures restoring.Restoring? ==> DbKept(host.paths, host.trace, restoring) && restoring.since >= |old(host.trace)|
    ensures outcome.RolledBack? && migrated && host.paths.db in restoring.before ==> restoring.aside != host.paths.db
  {
    ghost var stopped, first := host.files, host.calls;
    var ok, state := InstallAndCheck(host, data, hasMigrate, was);
    handed, migrated, restoring := stopped, state.migrated, NoRestore;
    assert Holds(host.files, host.paths.snapshot, stopped[host.paths.snapshot]);
    if ok {
      outcome := Installed;
      AskedInstall(first, host.calls, host.paths, was, data, hasMigrate, handed);
    } else {
      outcome, handed, restoring := RollbackOutcome(host, data, hasMigrate, state, names, was, stopped, first);
    }
  }

  /** For every combination of failures. */
  method RunUpdate(host: Host, data: Bytes, hasMigrate: bool, names: seq<Path>, ghost was: Bytes)
    returns (outcome: Outcome, ghost stopped: Files, ghost handed: Files, ghost migrated: bool,
        ghost restoring: Restoring)
    requires host.paths.Distinct() && forall n | n in names :: n !in host.paths.All()
    requires Holds(host.files, host.paths.binary, was) && host.paths.snapshot in host.files
    modifies host`failures, host`files, host`running, host`healthy, host`trace, host`calls, host`cares
    // A halt between any two steps finds the old binary under one of its two names.
    ensures old(host.trace) <= host.trace && KeptSince(host.paths, was, host.trace, |old(host.trace)|)
    ensures Holds(host.files, host.paths.snapshot, old(host.files)[host.paths.snapshot])
    // The outcome told is true.
    ensures Means(outcome, host, was, data, old(host.files)[host.paths.snapshot], stopped, handed, migrated)
    ensures outcome.Installed? ==> host.CaresOf(host.paths.binary) == WRITTEN
    // It is not installed only where some operation failed.
    ensures !outcome.Installed? ==> host.failures > old(host.failures)
    // Whatever the outcome, the service was started last, after the steps the outcome names and in their order.
    ensures host.running && old(host.calls) <= host.calls
    ensures Asked(outcome, host.calls[|old(host.calls)|..], host.paths, was, data, hasMigrate, handed)
    // A rollback of a migrated database keeps the bytes it replaces, at every step and after.
    ensures restoring.Restoring? <==> migrated && (outcome.RolledBack? || outcome.Broken?)
    ensures restoring.Restoring? ==> DbKept(host.paths, host.trace, restoring) && restoring.since >= |old(host.trace)|
    ensures outcome.RolledBack? && migrated && host.paths.db in restoring.before ==> restoring.aside != host.paths.db
  {
    handed, migrated, restoring := host.files, false, NoRestore;
    var ok := host.Stop();
    stopped := host.files;
    if !ok {
      var restarted := host.Start();
      return StopFailed(restarted), stopped, handed, false, NoRestore;
    }
    outcome, handed, migrated, restoring := InstallOrRevert(host, data, hasMigrate, names, was);
  }
}
