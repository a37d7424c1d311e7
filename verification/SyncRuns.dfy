/**
 Whole runs of the sync protocol: any number of users write through the server while one client of one
 user loads, resyncs, saves, deletes and clears, with at most one request of its own in flight. An answer
 is computed on one snapshot and lands later, or never; the store may be cleared meanwhile.
 */
module SyncRuns {
  import opened Options
  import opened Clock
  import opened Tables
  import opened Writes
  import opened Sync
  import Effects

  datatype Flight =
    | Idle
    | Answer(full: bool, since: nat, delta: Delta, at: int)
    | Saved(id: Id, row: Item)
    | Dropped(id: Id)

  /**
   `syncedAt` is the snapshot time of the last answer the client folded in. `floor` is 0 unless that answer, or one it
   builds on, was asked for as an increment and folded into a store cleared since; then it is the cursor asked for.
   */
  datatype World = World(db: Db, clock: int, client: Client, floor: nat, syncedAt: int, flight: Flight)

  datatype Event =
    | ServerWrite(w: Write, now: int, commits: bool)
    | OwnWrite(w: Write, now: int, commits: bool)
    | Fetch(full: bool, now: int)
    | Deliver
    | Lose
    | Clear

  /** What the client holds once the reply in flight has landed. */
  function Delivered(client: Client, flight: Flight): Client {
    match flight
    case Idle => client
    case Answer(full, _, delta, _) => Landed(client, full, delta)
    case Saved(id, row) => client.(items := Merged(client.items, map[id := row]))
    case Dropped(id) => client.(items := client.items - {id})
  }

  function DeliveredAt(world: World): int {
    if world.flight.Answer? then world.flight.at else world.syncedAt
  }

  /** An increment lands on what it was asked for, unless the store no longer stands at the cursor asked for. */
  function DeliveredFloor(world: World): nat {
    if !world.flight.Answer? then world.floor
    else if world.flight.full then 0
    else if world.client.cursor == world.flight.since then world.floor
    else world.flight.since
  }

  /** The client's own single-item writes; only a success changes what it holds. */
  predicate IsOwnWrite(w: Write) {
    (w.CreateItems? && |w.ids| == |w.inputs| == 1) || w.PutItem? || w.DropItem?
  }

  function ReplyTo(db: Db, w: Write, now: int, commits: bool): Flight
    requires IsOwnWrite(w)
  {
    if !commits then Idle
    else match w
      case CreateItems(owner, ids, inputs) =>
        var (db', reply) := CreateItemsBulk(db, owner, ids, inputs, now);
        if reply.Done? && ids[0] in db'.items then Saved(ids[0], db'.items[ids[0]]) else Idle
      case PutItem(id, expected, input) =>
        var (_, reply) := UpdateItem(db, id, expected, input, now);
        if reply.Done? then Saved(id, reply.row) else Idle
      case _ =>
        if DeleteItem(db, w.id, now).1.Done? then Dropped(w.id) else Idle
  }

  predicate Enabled(world: World, e: Event) {
    match e
    case ServerWrite(w, _, _) => WellFormed(w)
    case OwnWrite(w, _, _) => IsOwnWrite(w) && world.flight.Idle?
    case Fetch(_, _) => world.flight.Idle?
    case Deliver => true
    case Lose => true
    case Clear => true
  }

  function Next(world: World, user: Id, e: Event): World
    requires Enabled(world, e)
  {
    match e
    case ServerWrite(w, now, commits) => world.(db := Apply(world.db, w, now, commits), clock := now)
    case OwnWrite(w, now, commits) =>
      world.(db := Apply(world.db, w, now, commits), clock := now, flight := ReplyTo(world.db, w, now, commits))
    case Fetch(full, now) =>
      var since := Since(world.client, full);
      world.(clock := now, flight := Answer(full, since, SyncSince(world.db, user, since), now))
    case Deliver =>
      World(world.db, world.clock, Delivered(world.client, world.flight), DeliveredFloor(world), DeliveredAt(world),
          Idle)
    case Lose => world.(flight := Idle)
    case Clear => world.(client := EMPTY_CLIENT, floor := 0)
  }

  /** Live rows always carry a drawn revision; true of the empty database and kept by every write. */
  ghost predicate Positive(db: Db) {
    && (forall i | i in db.items :: db.items[i].revision > 0)
    && (forall f | f in db.folders :: db.folders[f].revision > 0)
  }

  ghost predicate IsRun(worlds: seq<World>, events: seq<Event>, user: Id) {
    && |worlds| == |events| + 1
    && Positive(worlds[0].db)
    && worlds[0].client == EMPTY_CLIENT
    && worlds[0].flight == Idle
    && worlds[0].floor == 0
    && worlds[0].syncedAt <= worlds[0].clock
    && forall k | 0 <= k < |events| ::
         Enabled(worlds[k], events[k]) && worlds[k + 1] == Next(worlds[k], user, events[k])
  }

  // ----- completeness, over every run

  /** What is held agrees with the server on the rows stamped past `floor`, and lacks the others. */
  ghost predicate InSyncAbove(db: Db, user: Id, client: Client, floor: nat) {
    && floor <= client.cursor <= db.revision
    && Agrees(ItemView(db, user), client.items, floor, client.cursor)
    && Agrees(FolderView(db, user), client.folders, floor, client.cursor)
  }

  ghost predicate InSync(db: Db, user: Id, client: Client) {
    InSyncAbove(db, user, client, 0)
  }

  /** No live row in sight is stamped at or below the floor. */
  ghost predicate NothingMissed(db: Db, user: Id, floor: nat) {
    NoneBelow(ItemView(db, user), floor) && NoneBelow(FolderView(db, user), floor)
  }

  /**
   Both what the client holds and what it will hold agree with the server between their floor and their cursor, and so
   would the answer in flight on its own, from the cursor it was asked for.
   */
  ghost predicate Accounted(world: World, user: Id) {
    && Positive(world.db)
    && InSyncAbove(world.db, user, world.client, world.floor)
    && InSyncAbove(world.db, user, Delivered(world.client, world.flight), DeliveredFloor(world))
    && (world.flight.Answer? ==>
          InSyncAbove(world.db, user, Landed(EMPTY_CLIENT, world.flight.full, world.flight.delta), world.flight.since))
  }

  lemma {:induction false} WriteKeepsInSync(db: Db, db': Db, now: int, user: Id, client: Client, floor: nat)
    requires DbStep(db, db', now) && InSyncAbove(db, user, client, floor)
    ensures InSyncAbove(db', user, client, floor)
  {
    WritesStepViews(db, db', now, user);
    AgreesAfterStep(ItemView(db, user), ItemView(db', user), db.revision, client.items, floor, client.cursor);
    AgreesAfterStep(FolderView(db, user), FolderView(db', user), db.revision, client.folders, floor, client.cursor);
  }

  lemma {:induction false} PositiveStamps(db: Db, user: Id)
    requires Positive(db)
    ensures NothingMissed(db, user, 0)
  {
  }

  lemma {:induction false} EmptyInSync(db: Db, user: Id)
    requires Positive(db)
    ensures InSync(db, user, EMPTY_CLIENT)
  {
  }

  lemma {:induction false} AnswerInSync(db: Db, user: Id, client: Client, floor: nat, full: bool)
    requires Positive(db) && InSyncAbove(db, user, client, floor)
    ensures var delta := SyncSince(db, user, Since(client, full));
            InSyncAbove(db, user, Landed(client, full, delta), if full then 0 else floor)
  {
    var since := Since(client, full);
    var from := if full then 0 else floor;
    SyncSendsNewer(db, user, since);
    EmptyInSync(db, user);
    AgreesAfterMerge(ItemView(db, user), if full then map[] else client.items, from, since, db.revision);
    AgreesAfterMerge(FolderView(db, user), if full then map[] else client.folders, from, since, db.revision);
  }

  /** On its own an answer agrees from the cursor it was asked for. */
  lemma {:induction false} AnswerAlone(db: Db, user: Id, since: nat, full: bool)
    requires since <= db.revision
    ensures InSyncAbove(db, user, Landed(EMPTY_CLIENT, full, SyncSince(db, user, since)), since)
  {
    SyncSendsNewer(db, user, since);
    AgreesAfterMerge(ItemView(db, user), map[], since, since, db.revision);
    AgreesAfterMerge(FolderView(db, user), map[], since, since, db.revision);
  }

  /** A row past the cursor is free: what is held of it does not bear on the agreement. */
  lemma {:induction false} AgreesExcept<B(!new)>(
    view: map<Id, Entry<B>>, held: map<Id, Row<B>>, now: map<Id, Row<B>>, floor: int, cursor: int, id: Id)
    requires Agrees(view, held, floor, cursor) && (id in view ==> view[id].Stamp() > cursor)
    requires forall i | i != id :: (i in now <==> i in held) && (i in now ==> now[i] == held[i])
    ensures Agrees(view, now, floor, cursor)
  {
  }

  lemma {:induction false} ReplyTouchesOne(client: Client, flight: Flight)
    requires flight.Saved? || flight.Dropped?
    ensures var now := Delivered(client, flight);
            && now == client.(items := now.items)
            && forall i | i != flight.id ::
                (i in now.items <==> i in client.items) && (i in now.items ==> now.items[i] == client.items[i])
  {
  }

  /** The reply to an own write changes one id only, whose row is now stamped past the cursor. */
  lemma {:induction false} OwnReplyInSync(
    db: Db, w: Write, now: int, commits: bool, user: Id, client: Client, floor: nat)
    requires IsOwnWrite(w) && InSyncAbove(db, user, client, floor)
    ensures InSyncAbove(Apply(db, w, now, commits), user, Delivered(client, ReplyTo(db, w, now, commits)), floor)
  {
    WriteSteps(db, w, now, commits);
    WriteKeepsInSync(db, Apply(db, w, now, commits), now, user, client, floor);
    if commits {
      OwnWriteStamps(db, w, now);
    }
    ReplyInSync(db, Apply(db, w, now, commits), user, client, floor, ReplyTo(db, w, now, commits));
  }

  lemma {:induction false} ReplyInSync(db: Db, db': Db, user: Id, client: Client, floor: nat, flight: Flight)
    requires InSyncAbove(db', user, client, floor) && client.cursor <= db.revision && !flight.Answer?
    requires flight.Saved? || flight.Dropped? ==> flight.id in db'.items && db'.items[flight.id].revision > db.revision
    ensures InSyncAbove(db', user, Delivered(client, flight), floor)
  {
    if !flight.Idle? {
      ReplyTouchesOne(client, flight);
      AgreesExcept(ItemView(db', user), client.items, Delivered(client, flight).items, floor, client.cursor, flight.id);
    }
  }

  lemma {:induction false} OwnWriteStamps(db: Db, w: Write, now: int)
    requires IsOwnWrite(w)
    ensures var flight := ReplyTo(db, w, now, true);
            flight.Saved? || flight.Dropped? ==>
              && flight.id in Apply(db, w, now, true).items
              && Apply(db, w, now, true).items[flight.id].revision == db.revision + 1
              && (flight.Saved? ==> Apply(db, w, now, true).items[flight.id] == flight.row && flight.row.Live())
  {
    if w.CreateItems? && CreateItemsBulk(db, w.owner, w.ids, w.inputs, now).1.Done? {
      var db1 := InsertItem(db, w.owner, w.ids[0], w.inputs[0], now);
      assert InsertItems(db, w.owner, w.ids, w.inputs, now)
          == InsertItems(db1, w.owner, w.ids[1..], w.inputs[1..], now) == Inserted(db1);
    }
  }

  /** Once the answer to its own save has landed, the client shows what it sent. */
  lemma {:induction false} OwnSaveShows(db: Db, id: Id, expected: int, input: ItemInput, now: int, client: Client)
    requires Effects.CanPut(db, id, expected, input)
    ensures var shown := Delivered(client, ReplyTo(db, PutItem(id, expected, input), now, true)).items;
            && id in shown
            && shown[id].body.ciphertext == input.ciphertext && shown[id].body.wrappedKey == input.wrappedKey
  {
    Effects.PutEffect(db, id, expected, input, now);
  }

  /** So it does for a new item of its own. */
  lemma {:induction false} OwnCreateShows(db: Db, owner: Id, id: Id, input: ItemInput, now: int, client: Client)
    requires Effects.CanCreate(db, [id], [input])
    ensures var shown := Delivered(client, ReplyTo(db, CreateItems(owner, [id], [input]), now, true)).items;
            && id in shown
            && shown[id].body.ciphertext == input.ciphertext && shown[id].body.wrappedKey == input.wrappedKey
  {
    Effects.CreateEffect(db, owner, [id], [input], now);
    assert Effects.StoredAs(CreateItemsBulk(db, owner, [id], [input], now).0.items, [id][0], owner, [input][0],
                            db.revision + 1 + 0, now);
  }

  /** Once its own delete has been answered, it does not show the row any more. */
  lemma {:induction false} OwnDeleteHides(db: Db, id: Id, now: int, client: Client)
    requires Effects.CanDrop(db, id)
    ensures id !in Delivered(client, ReplyTo(db, DropItem(id), now, true)).items
  {
    Effects.DropEffect(db, id, now);
  }

  lemma {:induction false} PositiveAfterWrite(db: Db, db': Db, now: int)
    requires DbStep(db, db', now) && Positive(db)
    ensures Positive(db')
  {
    forall i | i in db'.items ensures db'.items[i].revision > 0 {
      assert RowStep(db.items, i, db'.items[i], db.revision, db'.revision, now);
    }
    forall f | f in db'.folders ensures db'.folders[f].revision > 0 {
      assert RowStep(db.folders, f, db'.folders[f], db.revision, db'.revision, now);
    }
  }

  lemma {:induction false} AccountedAfterWrite(world: World, user: Id, w: Write, now: int, commits: bool)
    requires Accounted(world, user) && WellFormed(w)
    ensures Accounted(world.(db := Apply(world.db, w, now, commits)), user)
  {
    var db, db' := world.db, Apply(world.db, w, now, commits);
    WriteSteps(db, w, now, commits);
    PositiveAfterWrite(db, db', now);
    WriteKeepsInSync(db, db', now, user, world.client, world.floor);
    WriteKeepsInSync(db, db', now, user, Delivered(world.client, world.flight), DeliveredFloor(world));
    if world.flight.Answer? {
      WriteKeepsInSync(db, db', now, user, Landed(EMPTY_CLIENT, world.flight.full, world.flight.delta),
          world.flight.since);
    }
  }

  lemma {:induction false} AccountedAfterClear(world: World, user: Id)
    requires Accounted(world, user)
    ensures Accounted(Next(world, user, Clear), user)
  {
    EmptyInSync(world.db, user);
    if world.flight.Saved? || world.flight.Dropped? {
      PositiveStamps(world.db, user);
    }
  }

  lemma {:induction false} CompleteAfter(world: World, user: Id, e: Event)
    requires Accounted(world, user) && Enabled(world, e)
    ensures Accounted(Next(world, user, e), user)
  {
    match e
    case ServerWrite(w, now, commits) => AccountedAfterWrite(world, user, w, now, commits);
    case OwnWrite(w, now, commits) =>
      AccountedAfterWrite(world, user, w, now, commits);
      OwnReplyInSync(world.db, w, now, commits, user, world.client, world.floor);
    case Fetch(full, now) =>
      AnswerInSync(world.db, user, world.client, world.floor, full);
      AnswerAlone(world.db, user, Since(world.client, full), full);
    case Deliver =>
    case Lose =>
    case Clear => AccountedAfterClear(world, user);
  }

  lemma {:induction false} EveryRunAccounted(worlds: seq<World>, events: seq<Event>, user: Id, k: nat)
    requires IsRun(worlds, events, user) && k < |worlds|
    ensures Accounted(worlds[k], user)
  {
    if k == 0 {
      EmptyInSync(worlds[0].db, user);
    } else {
      EveryRunAccounted(worlds, events, user, k - 1);
      assert worlds[(k - 1) + 1] == Next(worlds[k - 1], user, events[k - 1]);
      CompleteAfter(worlds[k - 1], user, events[k - 1]);
    }
  }

  lemma {:induction false} InSyncIff(db: Db, user: Id, client: Client, floor: nat)
    requires Positive(db) && InSyncAbove(db, user, client, floor)
    ensures InSync(db, user, client) <==> NothingMissed(db, user, floor)
  {
    PositiveStamps(db, user);
    AgreesAboveZeroIff(ItemView(db, user), client.items, floor, client.cursor);
    AgreesAboveZeroIff(FolderView(db, user), client.folders, floor, client.cursor);
  }

  /**
   In every run, at every moment, and again once the reply in flight has landed: each visible row stamped (its own
   revision, and the grant it is seen through) past the floor and up to the cursor is held exactly as stored if live,
   and absent if a tombstone. So the client is complete if and only if no live row in sight is stamped at or below the
   floor.
   */
  lemma {:induction false} EveryRunComplete(worlds: seq<World>, events: seq<Event>, user: Id, k: nat)
    requires IsRun(worlds, events, user) && k < |worlds|
    ensures var w := worlds[k];
            && InSyncAbove(w.db, user, w.client, w.floor)
            && InSyncAbove(w.db, user, Delivered(w.client, w.flight), DeliveredFloor(w))
            && (InSync(w.db, user, w.client) <==> NothingMissed(w.db, user, w.floor))
            && (InSync(w.db, user, Delivered(w.client, w.flight)) <==> NothingMissed(w.db, user, DeliveredFloor(w)))
  {
    var w := worlds[k];
    EveryRunAccounted(worlds, events, user, k);
    InSyncIff(w.db, user, w.client, w.floor);
    InSyncIff(w.db, user, Delivered(w.client, w.flight), DeliveredFloor(w));
  }

  /** The store is cleared while the answer to a resync is on its way. */
  predicate Overtakes(world: World, e: Event) {
    e.Clear? && world.flight.Answer? && !world.flight.full
  }

  lemma {:induction false} FloorStays(worlds: seq<World>, events: seq<Event>, user: Id, k: nat)
    requires IsRun(worlds, events, user) && k < |worlds|
    requires forall j | 0 <= j < k :: !Overtakes(worlds[j], events[j])
    ensures worlds[k].floor == DeliveredFloor(worlds[k]) == 0
    ensures worlds[k].flight.Answer? && !worlds[k].flight.full ==> worlds[k].client.cursor == worlds[k].flight.since
  {
    if k > 0 {
      FloorStays(worlds, events, user, k - 1);
      assert worlds[(k - 1) + 1] == Next(worlds[k - 1], user, events[k - 1]);
    }
  }

  /** A client that is never cleared while a resync is on its way is complete at every moment. */
  lemma {:induction false} UnovertakenRunComplete(worlds: seq<World>, events: seq<Event>, user: Id, k: nat)
    requires IsRun(worlds, events, user) && k < |worlds|
    requires forall j | 0 <= j < k :: !Overtakes(worlds[j], events[j])
    ensures InSync(worlds[k].db, user, worlds[k].client)
    ensures InSync(worlds[k].db, user, Delivered(worlds[k].client, worlds[k].flight))
  {
    EveryRunAccounted(worlds, events, user, k);
    FloorStays(worlds, events, user, k);
  }

  // ----- exactness

  /** What a full load at this snapshot would leave in the client. */
  function FullLoad(db: Db, user: Id): Client {
    Client(db.revision, LiveRows(ItemView(db, user)), LiveRows(FolderView(db, user)), CollectionsFor(db, user))
  }

  lemma {:induction false} LoadIsFullLoad(db: Db, user: Id, client: Client)
    requires Positive(db)
    ensures Landed(client, true, SyncSince(db, user, 0)) == FullLoad(db, user)
  {
    SyncSendsNewer(db, user, 0);
    EmptyInSync(db, user);
    PositiveStamps(db, user);
    MergeExactIff(ItemView(db, user), map[], 0, 0);
    MergeExactIff(FolderView(db, user), map[], 0, 0);
  }

  /**
   A resync equals a full load at the same snapshot if and only if every row held is still in sight and no live row is
   stamped at or below the floor.
   */
  lemma {:induction false} ResyncExactIff(db: Db, user: Id, client: Client, floor: nat)
    requires InSyncAbove(db, user, client, floor)
    ensures Landed(client, false, SyncSince(db, user, client.cursor)) == FullLoad(db, user)
            <==> client.items.Keys <= ItemView(db, user).Keys && client.folders.Keys <= FolderView(db, user).Keys
                 && NothingMissed(db, user, floor)
  {
    SyncSendsNewer(db, user, client.cursor);
    MergeExactIff(ItemView(db, user), client.items, floor, client.cursor);
    MergeExactIff(FolderView(db, user), client.folders, floor, client.cursor);
  }

  /** Held rows are in sight, and those buried were buried no earlier than the second of the last sync. */
  ghost predicate HeldInSight<B(!new)>(view: map<Id, Entry<B>>, held: map<Id, Row<B>>, at: int) {
    forall i | i in held :: i in view && (view[i].row.deletedAt.Some? ==> view[i].row.deletedAt.value >= Seconds(at))
  }

  ghost predicate Sighted(db: Db, clock: int, user: Id, client: Client, at: int) {
    && at <= clock
    && (clock <= at + TOMBSTONE_RETENTION ==>
          && HeldInSight(ItemView(db, user), client.items, at)
          && HeldInSight(FolderView(db, user), client.folders, at))
  }

  ghost predicate Exact(world: World, user: Id) {
    && Sighted(world.db, world.clock, user, world.client, world.syncedAt)
    && Sighted(world.db, world.clock, user, Delivered(world.client, world.flight), DeliveredAt(world))
  }

  /** No row the client holds leaves the user's sight, except tombstones in a purge no shorter than the retention. */
  ghost predicate KeepsSight(db: Db, db': Db, w: Write, user: Id, client: Client) {
    if w.Purge? then w.olderThan >= TOMBSTONE_RETENTION
    else
      && (forall i | i in client.items && i in ItemView(db, user) :: i in ItemView(db', user))
      && (forall f | f in client.folders && f in FolderView(db, user) :: f in FolderView(db', user))
  }

  /** The hypotheses of the exactness theorem about one event: the clock does not run back, sight is kept,
      and an incremental sync comes no later than the retention period after the last one folded in. */
  ghost predicate Steady(world: World, user: Id, e: Event)
    requires Enabled(world, e)
  {
    match e
    case ServerWrite(w, now, commits) =>
      && world.clock <= now
      && KeepsSight(world.db, Apply(world.db, w, now, commits), w, user, world.client)
      && KeepsSight(world.db, Apply(world.db, w, now, commits), w, user, Delivered(world.client, world.flight))
    case OwnWrite(w, now, commits) =>
      && world.clock <= now
      && KeepsSight(world.db, Apply(world.db, w, now, commits), w, user, world.client)
      && (var reply := ReplyTo(world.db, w, now, commits);
          reply.Saved? ==> reply.id in ItemView(Apply(world.db, w, now, commits), user))
    case Fetch(full, now) => world.clock <= now && (full || now <= world.syncedAt + TOMBSTONE_RETENTION)
    case _ => true
  }

  lemma {:induction false} PurgeKeepsRecent<B(!new)>(row: Row<B>, olderThan: int, now: int, at: int)
    requires olderThan >= TOMBSTONE_RETENTION && now <= at + TOMBSTONE_RETENTION
    requires row.deletedAt.Some? ==> row.deletedAt.value >= Seconds(at)
    ensures !Expired(row, Seconds(now - olderThan))
  {
  }

  lemma {:induction false} RowKeepsRecent<B(!new)>(
    table: map<Id, Row<B>>, after: map<Id, Row<B>>, rev: nat, rev': nat, now: int, clock: int, at: int, id: Id)
    requires id in table && id in after && RowStep(table, id, after[id], rev, rev', now)
    requires at <= clock <= now
    requires table[id].deletedAt.Some? ==> table[id].deletedAt.value >= Seconds(at)
    ensures after[id].deletedAt.Some? ==> after[id].deletedAt.value >= Seconds(at)
  {
  }

  lemma {:induction false} PurgeKeepsSight(db: Db, olderThan: int, now: int, user: Id, client: Client, at: int)
    requires olderThan >= TOMBSTONE_RETENTION && now <= at + TOMBSTONE_RETENTION
    requires HeldInSight(ItemView(db, user), client.items, at) && HeldInSight(FolderView(db, user), client.folders, at)
    ensures var db' := PurgeTombstones(db, olderThan, now);
            && (forall i | i in client.items :: i in ItemView(db', user))
            && (forall f | f in client.folders :: f in FolderView(db', user))
  {
    forall i | i in client.items
      ensures i in ItemView(PurgeTombstones(db, olderThan, now), user)
    {
      assert i in ItemView(db, user) && ItemView(db, user)[i].row == db.items[i];
      PurgeKeepsRecent(db.items[i], olderThan, now, at);
    }
    forall f | f in client.folders
      ensures f in FolderView(PurgeTombstones(db, olderThan, now), user)
    {
      assert f in FolderView(db, user) && FolderView(db, user)[f].row == db.folders[f];
      PurgeKeepsRecent(db.folders[f], olderThan, now, at);
    }
  }

  lemma {:induction false} StillSighted(db: Db, db': Db, now: int, clock: int, user: Id, client: Client, at: int)
    requires DbStep(db, db', now) && at <= clock <= now
    requires HeldInSight(ItemView(db, user), client.items, at) && HeldInSight(FolderView(db, user), client.folders, at)
    requires forall i | i in client.items :: i in ItemView(db', user)
    requires forall f | f in client.folders :: f in FolderView(db', user)
    ensures HeldInSight(ItemView(db', user), client.items, at) && HeldInSight(FolderView(db', user), client.folders, at)
  {
    forall i | i in client.items
      ensures db'.items[i].deletedAt.Some? ==> db'.items[i].deletedAt.value >= Seconds(at)
    {
      assert i in ItemView(db, user) && ItemView(db, user)[i].row == db.items[i];
      RowKeepsRecent(db.items, db'.items, db.revision, db'.revision, now, clock, at, i);
    }
    forall f | f in client.folders
      ensures db'.folders[f].deletedAt.Some? ==> db'.folders[f].deletedAt.value >= Seconds(at)
    {
      assert f in FolderView(db, user) && FolderView(db, user)[f].row == db.folders[f];
      RowKeepsRecent(db.folders, db'.folders, db.revision, db'.revision, now, clock, at, f);
    }
  }

  lemma {:induction false} PurgeOutcome(db: Db, w: Write, now: int, commits: bool)
    requires w.Purge?
    ensures Apply(db, w, now, commits) == if commits then PurgeTombstones(db, w.olderThan, now) else db
  {
  }

  lemma {:induction false} HeldStays(db: Db, db': Db, w: Write, now: int, user: Id, client: Client, at: int)
    requires KeepsSight(db, db', w, user, client) && now <= at + TOMBSTONE_RETENTION
    requires w.Purge? ==> db' == db || db' == PurgeTombstones(db, w.olderThan, now)
    requires HeldInSight(ItemView(db, user), client.items, at) && HeldInSight(FolderView(db, user), client.folders, at)
    ensures forall i | i in client.items :: i in ItemView(db', user)
    ensures forall f | f in client.folders :: f in FolderView(db', user)
  {
    if !w.Purge? {
      SightKept(db, db', w, user, client, at);
    } else if db' != db {
      PurgeKeepsSight(db, w.olderThan, now, user, client, at);
    }
  }

  lemma {:induction false} SightKept(db: Db, db': Db, w: Write, user: Id, client: Client, at: int)
    requires !w.Purge? && KeepsSight(db, db', w, user, client)
    requires HeldInSight(ItemView(db, user), client.items, at) && HeldInSight(FolderView(db, user), client.folders, at)
    ensures forall i | i in client.items :: i in ItemView(db', user)
    ensures forall f | f in client.folders :: f in FolderView(db', user)
  {
  }

  /** No write takes a held row out of sight within the retention, nor buries it with a stamp before the last sync. */
  lemma {:induction false} WriteKeepsSighted(
    db: Db, w: Write, now: int, commits: bool, clock: int, user: Id, client: Client, at: int)
    requires WellFormed(w) && clock <= now
    requires KeepsSight(db, Apply(db, w, now, commits), w, user, client)
    requires Sighted(db, clock, user, client, at)
    ensures Sighted(Apply(db, w, now, commits), now, user, client, at)
  {
    WriteSteps(db, w, now, commits);
    if now <= at + TOMBSTONE_RETENTION {
      if w.Purge? {
        PurgeOutcome(db, w, now, commits);
      }
      HeldStays(db, Apply(db, w, now, commits), w, now, user, client, at);
      StillSighted(db, Apply(db, w, now, commits), now, clock, user, client, at);
    }
  }

  /** A steady fetch leaves exactly the full load of its snapshot, unless a resync builds on missed rows. */
  lemma {:induction false} SteadyFetchExact(world: World, user: Id, e: Event)
    requires e.Fetch? && Enabled(world, e) && Steady(world, user, e)
    requires Accounted(world, user) && Exact(world, user)
    ensures var world' := Next(world, user, e);
            Delivered(world'.client, world'.flight) == FullLoad(world.db, user)
            <==> e.full || NothingMissed(world.db, user, world.floor)
  {
    LoadIsFullLoad(world.db, user, world.client);
    ResyncExactIff(world.db, user, world.client, world.floor);
  }

  lemma {:induction false} ExactAfterServerWrite(world: World, user: Id, e: Event)
    requires e.ServerWrite? && Exact(world, user) && Enabled(world, e) && Steady(world, user, e)
    ensures Exact(Next(world, user, e), user)
  {
    WriteKeepsSighted(world.db, e.w, e.now, e.commits, world.clock, user, world.client, world.syncedAt);
    WriteKeepsSighted(world.db, e.w, e.now, e.commits, world.clock, user, Delivered(world.client, world.flight),
                      DeliveredAt(world));
  }

  lemma {:induction false} ExactAfterOwnWrite(world: World, user: Id, e: Event)
    requires e.OwnWrite? && Exact(world, user) && Enabled(world, e) && Steady(world, user, e)
    ensures Exact(Next(world, user, e), user)
  {
    WriteKeepsSighted(world.db, e.w, e.now, e.commits, world.clock, user, world.client, world.syncedAt);
    if e.commits {
      OwnWriteStamps(world.db, e.w, e.now);
    }
  }

  lemma {:induction false} AnswerSighted(db: Db, user: Id, client: Client, floor: nat, full: bool, now: int)
    requires Positive(db) && InSyncAbove(db, user, client, floor)
    requires full || (client.items.Keys <= ItemView(db, user).Keys && client.folders.Keys <= FolderView(db, user).Keys)
    ensures Sighted(db, now, user, Landed(client, full, SyncSince(db, user, Since(client, full))), now)
  {
    if full {
      LoadIsFullLoad(db, user, client);
    } else {
      SyncSendsNewer(db, user, client.cursor);
      var now := Landed(client, full, SyncSince(db, user, client.cursor));
      forall i | i in now.items
        ensures i in LiveRows(ItemView(db, user))
      {
        MergeWithin(ItemView(db, user), client.items, floor, client.cursor, i);
      }
      forall f | f in now.folders
        ensures f in LiveRows(FolderView(db, user))
      {
        MergeWithin(FolderView(db, user), client.folders, floor, client.cursor, f);
      }
    }
  }

  lemma {:induction false} LaterSighted(db: Db, clock: int, now: int, user: Id, client: Client, at: int)
    requires Sighted(db, clock, user, client, at) && clock <= now
    ensures Sighted(db, now, user, client, at)
  {
  }

  lemma {:induction false} ExactAfterFetch(world: World, user: Id, e: Event)
    requires e.Fetch? && Accounted(world, user) && Exact(world, user) && Enabled(world, e) && Steady(world, user, e)
    ensures Exact(Next(world, user, e), user)
  {
    AnswerSighted(world.db, user, world.client, world.floor, e.full, e.now);
    LaterSighted(world.db, world.clock, e.now, user, world.client, world.syncedAt);
  }

  lemma {:induction false} ExactAfterLanding(world: World, user: Id, e: Event)
    requires (e.Deliver? || e.Lose? || e.Clear?) && Exact(world, user) && Enabled(world, e)
    ensures Exact(Next(world, user, e), user)
  {
  }

  /** An event that the exactness theorem allows. */
  ghost predicate SteadyStep(world: World, user: Id, e: Event) {
    Enabled(world, e) && Steady(world, user, e)
  }

  lemma {:induction false} ExactAfter(world: World, user: Id, e: Event)
    requires Accounted(world, user) && Exact(world, user) && SteadyStep(world, user, e)
    ensures Exact(Next(world, user, e), user)
  {
    if e.ServerWrite? {
      ExactAfterServerWrite(world, user, e);
    } else if e.OwnWrite? {
      ExactAfterOwnWrite(world, user, e);
    } else if e.Fetch? {
      ExactAfterFetch(world, user, e);
    } else {
      ExactAfterLanding(world, user, e);
    }
  }

  ghost predicate SteadyRun(worlds: seq<World>, events: seq<Event>, user: Id) {
    IsRun(worlds, events, user) && forall k | 0 <= k < |events| :: SteadyStep(worlds[k], user, events[k])
  }

  lemma {:induction false} EverySteadyRunSighted(worlds: seq<World>, events: seq<Event>, user: Id, k: nat)
    requires SteadyRun(worlds, events, user) && k < |worlds|
    ensures Exact(worlds[k], user)
  {
    if k > 0 {
      var j := k - 1;
      EverySteadyRunSighted(worlds, events, user, j);
      EveryRunAccounted(worlds, events, user, j);
      assert worlds[j + 1] == Next(worlds[j], user, events[j]);
      ExactAfter(worlds[j], user, events[j]);
    }
  }

  /**
   On every steady run, purges interleaved anywhere: each load leaves the client exactly where a full load at the same
   snapshot would, and so does each resync unless the client has missed rows, which only a clear can bring about.
   */
  lemma {:induction false} EverySteadyRunExact(worlds: seq<World>, events: seq<Event>, user: Id, k: nat)
    requires SteadyRun(worlds, events, user) && k < |events| && events[k].Fetch?
    ensures Delivered(worlds[k + 1].client, worlds[k + 1].flight) == FullLoad(worlds[k].db, user)
            <==> events[k].full || NothingMissed(worlds[k].db, user, worlds[k].floor)
    ensures (forall j | 0 <= j < k :: !Overtakes(worlds[j], events[j]))
            ==> NothingMissed(worlds[k].db, user, worlds[k].floor)
  {
    EverySteadyRunSighted(worlds, events, user, k);
    EveryRunAccounted(worlds, events, user, k);
    SteadyFetchExact(worlds[k], user, events[k]);
    if forall j | 0 <= j < k :: !Overtakes(worlds[j], events[j]) {
      FloorStays(worlds, events, user, k);
      PositiveStamps(worlds[k].db, user);
    }
  }
}
