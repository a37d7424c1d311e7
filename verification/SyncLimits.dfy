/**
 Where the sync guarantees stop: families of runs of the same functions in which a hypothesis of the run
 theorems is dropped and the conclusion fails.
 */
module SyncLimits {
  import opened Options
  import opened Tables
  import opened Writes
  import opened Sync
  import opened SyncRuns

  /** `i` is the last live item of collection `c`, which `user` belongs to as a plain member. */
  ghost predicate LastShared(db: Db, user: Id, c: Id, i: Id) {
    && i in db.items && db.items[i].Live() && db.items[i].body.collection == Some(c)
    && (c, user) in db.members && db.members[(c, user)].role == Member
    && (forall j | j in db.items && db.items[j].Live() && db.items[j].body.collection == Some(c) :: j == i)
  }

  function BuriedThenLeft(db: Db, user: Id, c: Id, i: Id, now: int): (Db, Db) {
    var buried := DeleteItem(db, i, now).0;
    (buried, RemoveMember(buried, c, user).0)
  }

  lemma {:induction false} BuriedThenLeftTables(db: Db, user: Id, c: Id, i: Id, now: int)
    requires LastShared(db, user, c, i)
    ensures var (buried, left) := BuriedThenLeft(db, user, c, i, now);
            && buried.members == db.members && left.members == db.members - {(c, user)}
            && left.items == buried.items == db.items[i := buried.items[i]]
            && !buried.items[i].Live() && buried.items[i].body.collection == Some(c)
  {
  }

  /** Keeping every LIVE row in sight is not enough for exactness: the last shared item is deleted and the user
      leaves the collection before syncing. Leaving hides no live row, yet the resync keeps the deleted item,
      which a full load does not show. */
  lemma {:induction false} LostTombstoneStaysHeld(db: Db, user: Id, c: Id, i: Id, now: int)
    requires LastShared(db, user, c, i)
    ensures var client := FullLoad(db, user);
            var (buried, left) := BuriedThenLeft(db, user, c, i, now);
            && (forall j | j in buried.items && buried.items[j].Live() && Visible(buried, user, buried.items[j]) ::
                  j in left.items && Visible(left, user, left.items[j]))
            && i !in FullLoad(left, user).items
            && i in Landed(client, false, SyncSince(left, user, client.cursor)).items
  {
    BuriedThenLeftTables(db, user, c, i, now);
    var client := FullLoad(db, user);
    var (buried, left) := BuriedThenLeft(db, user, c, i, now);
    assert i in client.items by {
      assert i in ItemView(db, user);
    }
    assert i !in SyncSince(left, user, client.cursor).items && i !in ItemView(left, user);
  }

  /** Neither write nor grant has touched row `i` of the user's view. */
  ghost predicate Untouched(db: Db, db': Db, user: Id, i: Id) {
    i in ItemView(db, user) && i in ItemView(db', user) && ItemView(db', user)[i] == ItemView(db, user)[i]
  }

  /** What a resync says about a row stamped at or below the cursor: nothing. */
  lemma {:induction false} ResyncLeavesOld(db: Db, user: Id, client: Client, i: Id)
    requires i in ItemView(db, user) && ItemView(db, user)[i].Stamp() <= client.cursor
    ensures var after := Landed(client, false, SyncSince(db, user, client.cursor)).items;
            (i in after <==> i in client.items) && (i in after ==> after[i] == client.items[i])
  {
    ItemSentIff(db, user, client.cursor, i);
  }

  lemma {:induction false} SavedHeld(client: Client, i: Id, row: Item)
    requires row.Live()
    ensures var after := Delivered(client, Saved(i, row));
            after.cursor == client.cursor && i in after.items && after.items[i] == row
  {
  }

  lemma {:induction false} NotAsStored(db: Db, user: Id, client: Client, i: Id)
    requires i in ItemView(db, user) && 0 < ItemView(db, user)[i].Stamp() <= client.cursor
    requires i in client.items ==> client.items[i] != ItemView(db, user)[i].row
    requires ItemView(db, user)[i].row.Live() || i in client.items
    ensures !InSync(db, user, client)
  {
  }

  /**
   Two requests in flight break the agreement: once an answer has carried the client past a row's newest revision, the
   late reply of an older save of that row leaves a stale copy. As long as the row is not touched again, no later client
   that holds the copy is in sync and no resync repairs it.
   */
  lemma {:induction false} LateSaveHidesNewerRow(
    db: Db, user: Id, answered: Client, i: Id, older: Item, db': Db, later: Client)
    requires InSync(db, user, answered) && i in ItemView(db, user) && older.Live()
    requires ItemView(db, user)[i].Stamp() <= answered.cursor <= later.cursor
    requires older.revision < db.items[i].revision && Untouched(db, db', user, i)
    requires i in later.items && later.items[i] == older
    ensures i in Delivered(answered, Saved(i, older)).items && Delivered(answered, Saved(i, older)).items[i] == older
    ensures !InSync(db, user, Delivered(answered, Saved(i, older))) && !InSync(db', user, later)
    ensures var after := Landed(later, false, SyncSince(db', user, later.cursor)).items;
            i in after && after[i] == older
  {
    SavedHeld(answered, i, older);
    assert ItemView(db, user)[i].row == db.items[i] != older;
    NotAsStored(db, user, Delivered(answered, Saved(i, older)), i);
    ResyncLeavesOld(db', user, later, i);
    NotAsStored(db', user, later, i);
  }

  /**
   One request in flight is enough if the store is cleared meanwhile: the answer to a resync lands on nothing and moves
   the cursor all the same. A live row up to the cursor it was asked for is then missing. As long as the row is not
   touched again, no later client without it is in sync and no resync brings it.
   */
  lemma {:induction false} ClearedResyncMissesRow(db: Db, user: Id, held: Client, i: Id, db': Db, later: Client)
    requires Positive(db) && InSync(db, user, held) && i in ItemView(db, user) && ItemView(db, user)[i].row.Live()
    requires ItemView(db, user)[i].Stamp() <= held.cursor && Untouched(db, db', user, i)
    requires db.revision <= later.cursor && i !in later.items
    ensures i in held.items && i !in Landed(EMPTY_CLIENT, false, SyncSince(db, user, held.cursor)).items
    ensures !InSync(db, user, Landed(EMPTY_CLIENT, false, SyncSince(db, user, held.cursor)))
    ensures !InSync(db', user, later) && i !in Landed(later, false, SyncSince(db', user, later.cursor)).items
  {
    ItemSentIff(db, user, held.cursor, i);
    NotAsStored(db, user, Landed(EMPTY_CLIENT, false, SyncSince(db, user, held.cursor)), i);
    ResyncLeavesOld(db', user, later, i);
    NotAsStored(db', user, later, i);
  }
}
