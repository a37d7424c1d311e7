/**
 The store itself: tables updated statement by statement inside transactions that roll back
 (internal/store). Each method is tied to its function in Writes or Sync; `commits` is the database's own
 verdict at COMMIT, and fresh ids and the time are inputs.
 */
module Store {
  import opened Options
  import opened Clock
  import opened Tables
  import Writes
  import Sync

  /** A transaction that was ready to commit but could not leaves nothing behind. */
  function Settled<T>(db: Db, wrote: (Db, Reply<T>), commits: bool): (Db, Reply<T>) {
    if wrote.1.Done? && !commits then (db, Refused(Internal)) else wrote
  }

  /** `rows` lists `table`, each id once, in ascending revision order. */
  ghost predicate Lists<B>(rows: seq<(Id, Row<B>)>, table: map<Id, Row<B>>) {
    && (forall k | 0 <= k < |rows| :: rows[k].0 in table && table[rows[k].0] == rows[k].1)
    && (forall i | i in table :: (i, table[i]) in rows)
    && (forall j, k | 0 <= j < k < |rows| :: rows[j].0 != rows[k].0 && rows[j].1.revision <= rows[k].1.revision)
  }

  lemma {:induction false} LowestExists<B>(table: map<Id, Row<B>>) returns (low: Id)
    requires table != map[]
    ensures low in table && forall i | i in table :: table[low].revision <= table[i].revision
    decreases |table|
  {
    var any :| any in table;
    low := any;
    var rest := table - {any};
    assert forall i | i in table :: i == any || i in rest;
    if rest != map[] {
      var other := LowestExists(rest);
      if table[other].revision < table[any].revision {
        low := other;
      }
    }
  }

  lemma {:induction false} ListsGrow<B>(rows: seq<(Id, Row<B>)>, table: map<Id, Row<B>>, i: Id, row: Row<B>)
    requires Lists(rows, table) && i !in table
    requires forall k | 0 <= k < |rows| :: rows[k].1.revision <= row.revision
    ensures Lists(rows + [(i, row)], table[i := row])
  {
    var more := rows + [(i, row)];
    var grown := table[i := row];
    forall j | j in grown ensures (j, grown[j]) in more {
      if j == i {
        assert more[|rows|] == (i, row);
      } else {
        assert (j, table[j]) in rows;
      }
    }
  }

  ghost predicate Precedes<B>(rows: seq<(Id, Row<B>)>, rest: map<Id, Row<B>>) {
    forall k, i | 0 <= k < |rows| && i in rest :: rows[k].1.revision <= rest[i].revision
  }

  method TakeLowest<B>(rest: map<Id, Row<B>>) returns (low: Id)
    requires |rest| > 0
    ensures low in rest && forall i | i in rest :: rest[low].revision <= rest[i].revision
  {
    ghost var lowest := LowestExists(rest);
    low :| low in rest && forall i | i in rest :: rest[low].revision <= rest[i].revision;
  }

  ghost predicate Sorting<B>(rows: seq<(Id, Row<B>)>, rest: map<Id, Row<B>>, table: map<Id, Row<B>>) {
    && rest.Keys <= table.Keys
    && (forall i | i in rest :: rest[i] == table[i])
    && Precedes(rows, rest)
    && Lists(rows, table - rest.Keys)
  }

  lemma {:induction false} SortingStep<B>(
    rows: seq<(Id, Row<B>)>, rest: map<Id, Row<B>>, table: map<Id, Row<B>>, low: Id)
    requires Sorting(rows, rest, table) && low in rest
    requires forall i | i in rest :: rest[low].revision <= rest[i].revision
    ensures Sorting(rows + [(low, rest[low])], rest - {low}, table)
  {
    ListsGrow(rows, table - rest.Keys, low, rest[low]);
    assert table - (rest - {low}).Keys == (table - rest.Keys)[low := rest[low]];
  }

  lemma {:induction false} SortingDone<B>(rows: seq<(Id, Row<B>)>, rest: map<Id, Row<B>>, table: map<Id, Row<B>>)
    requires Sorting(rows, rest, table) && |rest| == 0
    ensures Lists(rows, table)
  {
    assert table - rest.Keys == table;
  }

  /** ORDER BY revision. */
  method OrderByRevision<B>(table: map<Id, Row<B>>) returns (rows: seq<(Id, Row<B>)>)
    ensures Lists(rows, table)
  {
    rows := [];
    var rest := table;
    while |rest| > 0
      invariant Sorting(rows, rest, table)
    {
      var low := TakeLowest(rest);
      SortingStep(rows, rest, table, low);
      rows, rest := rows + [(low, rest[low])], rest - {low};
    }
    SortingDone(rows, rest, table);
  }

  class VaultDatabase {
    var revision: nat
    var items: map<Id, Item>
    var folders: map<Id, Folder>
    var collections: map<Id, Collection>
    var members: map<(Id, Id), Membership>
    var grants: map<(Id, Id), Grant>

    function Snapshot(): Db
      reads this
    {
      Db(revision, items, folders, collections, members, grants)
    }

    constructor ()
      ensures Snapshot() == EMPTY_DB
    {
      revision, items, folders, collections, members, grants := 0, map[], map[], map[], map[], map[];
    }

    method Rollback(before: Db)
      modifies this
      ensures Snapshot() == before
    {
      revision, items, folders := before.revision, before.items, before.folders;
      collections, members, grants := before.collections, before.members, before.grants;
    }

    method NextRevision() returns (value: nat)
      modifies this`revision
      ensures revision == value == old(revision) + 1
    {
      revision := revision + 1;
      value := revision;
    }

    method CreateItemsBulk(owner: Id, ids: seq<Id>, inputs: seq<Writes.ItemInput>, now: int, commits: bool)
      returns (reply: Reply<seq<Id>>)
      requires |ids| == |inputs|
      modifies this
      ensures (Snapshot(), reply) == Settled(old(Snapshot()),
              Writes.CreateItemsBulk(old(Snapshot()), owner, ids, inputs, now), commits)
    {
      if |inputs| == 0 {
        return Refused(Validation(Items));
      }
      var n := 0;
      while n < |inputs|
        invariant 0 <= n <= |inputs|
        invariant Writes.FirstProblem(inputs[n..]) == Writes.FirstProblem(inputs)
        invariant Snapshot() == old(Snapshot())
      {
        var problem := Writes.InputProblem(inputs[n]);
        if problem.Some? {
          return Refused(Validation(problem.value));
        }
        n := n + 1;
      }

      var before := Snapshot();
      n := 0;
      while n < |inputs|
        invariant 0 <= n <= |inputs|
        invariant Writes.InsertItems(Snapshot(), owner, ids[n..], inputs[n..], now)
                  == Writes.InsertItems(before, owner, ids, inputs, now)
      {
        var next := NextRevision();
        if inputs[n].target.In? && inputs[n].target.id !in collections {
          Rollback(before);
          return Refused(Validation(CollectionId));
        }
        if ids[n] in items {
          Rollback(before);
          return Refused(Internal);
        }
        var body := ItemBody(owner, Writes.Placed(inputs[n].target, None), inputs[n].ciphertext, inputs[n].wrappedKey);
        items := items[ids[n] := Row(body, next, Seconds(now), Seconds(now), None)];
        n := n + 1;
      }
      if !commits {
        Rollback(before);
        return Refused(Internal);
      }
      reply := Done(ids);
    }

    method UpdateItem(id: Id, expected: int, input: Writes.ItemInput, now: int, commits: bool)
      returns (reply: Reply<Item>)
      modifies this
      ensures (Snapshot(), reply) == Settled(old(Snapshot()),
              Writes.UpdateItem(old(Snapshot()), id, expected, input, now), commits)
    {
      var problem := Writes.InputProblem(input);
      if problem.Some? {
        return Refused(Validation(problem.value));
      }
      var before := Snapshot();
      // The bump comes first; every refusal below takes it back.
      var next := NextRevision();
      if id !in items || items[id].deletedAt.Some? {
        Rollback(before);
        return Refused(NotFound);
      }
      var current := items[id];
      if current.revision != expected {
        Rollback(before);
        return Stale(current);
      }
      if input.target.In? {
        if input.target.id !in collections {
          Rollback(before);
          return Refused(Internal);
        }
        current := current.(body := current.body.(collection := Some(input.target.id)));
      }
      current := current.(
        body := current.body.(ciphertext := input.ciphertext, wrappedKey := input.wrappedKey),
        revision := next, updatedAt := Seconds(now));
      items := items[id := current];
      if !commits {
        Rollback(before);
        return Refused(Internal);
      }
      reply := Done(current);
    }

    method DeleteItem(id: Id, now: int, commits: bool) returns (reply: Reply<Item>)
      modifies this
      ensures (Snapshot(), reply) == Settled(old(Snapshot()), Writes.DeleteItem(old(Snapshot()), id, now), commits)
    {
      var before := Snapshot();
      var next := NextRevision();
      if id !in items || items[id].deletedAt.Some? {
        Rollback(before);
        return Refused(NotFound);
      }
      var current := items[id].(
        body := items[id].body.(ciphertext := [], wrappedKey := []),
        revision := next, updatedAt := Seconds(now), deletedAt := Some(Seconds(now)));
      items := items[id := current];
      if !commits {
        Rollback(before);
        return Refused(Internal);
      }
      reply := Done(current);
    }

    method CreateFolder(id: Id, user: Id, name: Blob, now: int, commits: bool) returns (reply: Reply<Folder>)
      modifies this
      ensures (Snapshot(), reply) == Settled(old(Snapshot()),
              Writes.CreateFolder(old(Snapshot()), id, user, name, now), commits)
    {
      if |name| == 0 {
        return Refused(Validation(EncryptedName));
      }
      var before := Snapshot();
      var next := NextRevision();
      if id in folders || !commits {
        Rollback(before);
        return Refused(Internal);
      }
      var row := Row(FolderBody(user, name), next, Seconds(now), Seconds(now), None);
      folders := folders[id := row];
      reply := Done(row);
    }

    method UpdateFolder(id: Id, expected: int, name: Blob, now: int, commits: bool) returns (reply: Reply<Folder>)
      modifies this
      ensures (Snapshot(), reply) == Settled(old(Snapshot()),
              Writes.UpdateFolder(old(Snapshot()), id, expected, name, now), commits)
    {
      if |name| == 0 {
        return Refused(Validation(EncryptedName));
      }
      var before := Snapshot();
      var next := NextRevision();
      if id !in folders || folders[id].deletedAt.Some? {
        Rollback(before);
        return Refused(NotFound);
      }
      var current := folders[id];
      if current.revision != expected {
        Rollback(before);
        return Stale(current);
      }
      current := current.(body := current.body.(encryptedName := name), revision := next, updatedAt := Seconds(now));
      folders := folders[id := current];
      if !commits {
        Rollback(before);
        return Refused(Internal);
      }
      reply := Done(current);
    }

    method DeleteFolder(id: Id, now: int, commits: bool) returns (reply: Reply<Folder>)
      modifies this
      ensures (Snapshot(), reply) == Settled(old(Snapshot()), Writes.DeleteFolder(old(Snapshot()), id, now), commits)
    {
      var before := Snapshot();
      var next := NextRevision();
      if id !in folders || folders[id].deletedAt.Some? {
        Rollback(before);
        return Refused(NotFound);
      }
      var current := folders[id].(
        body := folders[id].body.(encryptedName := []),
        revision := next, updatedAt := Seconds(now), deletedAt := Some(Seconds(now)));
      folders := folders[id := current];
      if !commits {
        Rollback(before);
        return Refused(Internal);
      }
      reply := Done(current);
    }

    method CreateCollection(id: Id, given: Blob, creator: Id, sealedKey: Blob, now: int, commits: bool)
      returns (reply: Reply<()>)
      modifies this
      ensures (Snapshot(), reply) == Settled(old(Snapshot()),
              Writes.CreateCollection(old(Snapshot()), id, given, creator, sealedKey, now), commits)
    {
      var name := Writes.Trimmed(given);
      if |name| == 0 {
        return Refused(Validation(Name));
      }
      if |sealedKey| == 0 {
        return Refused(Validation(SealedCollectionKey));
      }
      var before := Snapshot();
      if id in collections {
        return Refused(Internal);
      }
      collections := collections[id := Collection(name, creator, Seconds(now))];
      var granted := NextRevision();
      if (id, creator) in members || !commits {
        Rollback(before);
        return Refused(Internal);
      }
      members := members[(id, creator) := Membership(sealedKey, Manager, creator, Seconds(now), granted)];
      reply := Done(());
    }

    /** addMemberTx: the upsert shared by both ways of joining; false when the collection is gone. */
    method UpsertMember(collection: Id, user: Id, sealedKey: Blob, role: Role, actor: Id, now: int)
      returns (stored: bool)
      modifies this
      ensures stored == (collection in old(collections))
      ensures stored ==> Snapshot() == Writes.PutMember(old(Snapshot()), collection, user, sealedKey, role, actor, now)
    {
      var granted := NextRevision();
      stored := collection in collections;
      if stored {
        members := members[(collection, user) := Membership(sealedKey, role, actor, Seconds(now), granted)];
      }
    }

    method AddMember(collection: Id, user: Id, sealedKey: Blob, role: Role, actor: Id, now: int, commits: bool)
      returns (reply: Reply<()>)
      modifies this
      ensures (Snapshot(), reply) == Settled(old(Snapshot()),
              Writes.AddMember(old(Snapshot()), collection, user, sealedKey, role, actor, now), commits)
    {
      if !Writes.ValidRole(role) {
        return Refused(Validation(RoleField));
      }
      if |sealedKey| == 0 {
        return Refused(Validation(SealedCollectionKey));
      }
      var before := Snapshot();
      var stored := UpsertMember(collection, user, sealedKey, role, actor, now);
      if !stored || !commits {
        Rollback(before);
        return Refused(Internal);
      }
      reply := Done(());
    }

    method FulfilGrant(collection: Id, user: Id, sealedKey: Blob, actor: Id, now: int, commits: bool)
      returns (reply: Reply<()>)
      modifies this
      ensures (Snapshot(), reply) == Settled(old(Snapshot()),
              Writes.FulfilGrant(old(Snapshot()), collection, user, sealedKey, actor, now), commits)
    {
      if |sealedKey| == 0 {
        return Refused(Validation(SealedCollectionKey));
      }
      if (collection, user) !in grants {
        return Refused(NotFound);
      }
      var role := grants[(collection, user)].role;
      if !Writes.ValidRole(role) {
        return Refused(Validation(RoleField));
      }
      var before := Snapshot();
      var stored := UpsertMember(collection, user, sealedKey, role, actor, now);
      if !stored || !commits {
        Rollback(before);
        return Refused(Internal);
      }
      grants := grants - {(collection, user)};
      reply := Done(());
    }

    method RemoveMember(collection: Id, user: Id, commits: bool) returns (reply: Reply<()>)
      modifies this
      ensures (Snapshot(), reply) == Settled(old(Snapshot()), Writes.RemoveMember(old(Snapshot()), collection, user),
              commits)
    {
      if (collection, user) !in members {
        return Refused(NotFound);
      }
      if members[(collection, user)].role == Manager {
        var managers := set k | k in members && k.0 == collection && members[k].role == Manager;
        if |managers| <= 1 {
          return Refused(Validation(UserId));
        }
      }
      if !commits {
        return Refused(Internal);
      }
      members := members - {(collection, user)};
      reply := Done(());
    }

    /** CreatePendingGrant: an intention only; it draws no revision. The audit entry is a statement of its own, so a
        failure there is reported with the grant already stored. */
    method RequestGrant(collection: Id, user: Id, role: Role, actor: Id, now: int, commits: bool, audits: bool)
      returns (reply: Reply<()>)
      modifies this
      ensures var (db, wrote) := Settled(old(Snapshot()),
              Writes.RequestGrant(old(Snapshot()), collection, user, role, actor, now), commits);
              Snapshot() == db && reply == if wrote.Done? && !audits then Refused(Internal) else wrote
    {
      if !Writes.ValidRole(role) {
        return Refused(Validation(RoleField));
      }
      if collection !in collections || !commits {
        return Refused(Internal);
      }
      grants := grants[(collection, user) := Grant(role, actor, Seconds(now))];
      reply := if audits then Done(()) else Refused(Internal);
    }

    /** The DELETE and its cascades. */
    method DeleteCollection(collection: Id, commits: bool) returns (reply: Reply<()>)
      modifies this
      ensures (Snapshot(), reply) == Settled(old(Snapshot()), Writes.DeleteCollection(old(Snapshot()), collection),
              commits)
    {
      if collection !in collections {
        return Refused(NotFound);
      }
      if !commits {
        return Refused(Internal);
      }
      collections := collections - {collection};
      items := map i | i in items && items[i].body.collection != Some(collection) :: items[i];
      members := map k | k in members && k.0 != collection :: members[k];
      grants := map k | k in grants && k.0 != collection :: grants[k];
      reply := Done(());
    }

    /** The two DELETEs of a retention purge, reporting how many tombstones went. */
    method PurgeTombstones(olderThan: int, now: int, commits: bool) returns (total: nat)
      modifies this
      ensures Snapshot() == if commits then Writes.PurgeTombstones(old(Snapshot()), olderThan, now) else old(Snapshot())
      ensures total == |old(items)| + |old(folders)| - |items| - |folders|
    {
      var cutoff := Seconds(now - olderThan);
      total := 0;
      if commits {
        PurgeShrinks(items, cutoff);
        PurgeShrinks(folders, cutoff);
        total := total + |items| - |Writes.Unexpired(items, cutoff)|;
        items := Writes.Unexpired(items, cutoff);
        total := total + |folders| - |Writes.Unexpired(folders, cutoff)|;
        folders := Writes.Unexpired(folders, cutoff);
      }
    }

    /** One snapshot answers everything: the cursor, the rows past it in revision order, and the memberships. */
    method SyncSince(user: Id, since: nat)
      returns (cursor: nat, itemRows: seq<(Id, Item)>, folderRows: seq<(Id, Folder)>, joined: map<Id, Membership>)
      ensures cursor == revision
      ensures Lists(itemRows, Sync.SyncSince(Snapshot(), user, since).items)
      ensures Lists(folderRows, Sync.SyncSince(Snapshot(), user, since).folders)
      ensures joined == Sync.CollectionsFor(Snapshot(), user)
    {
      var db := Snapshot();
      cursor := revision;
      itemRows := OrderByRevision(Sync.SyncSince(db, user, since).items);
      folderRows := OrderByRevision(Sync.SyncSince(db, user, since).folders);
      joined := Sync.CollectionsFor(db, user);
    }

    /** The single-item access check answers as the sync query does. */
    method CanAccessItem(user: Id, item: Item) returns (allowed: bool)
      ensures allowed == Sync.Visible(Snapshot(), user, item)
    {
      if item.body.collection.None? {
        return item.body.owner == user;
      }
      var rows := set k | k in members && k == (item.body.collection.value, user);
      allowed := |rows| > 0;
      assert allowed ==> exists k :: k in rows;
      assert (item.body.collection.value, user) in members ==> (item.body.collection.value, user) in rows;
    }
  }

  lemma {:induction false} PurgeShrinks<B>(table: map<Id, Row<B>>, cutoff: int)
    ensures |Writes.Unexpired(table, cutoff)| <= |table|
  {
    SubsetSize(Writes.Unexpired(table, cutoff).Keys, table.Keys);
  }

  lemma {:induction false} SubsetSize<T>(a: set<T>, b: set<T>)
    requires a <= b
    ensures |a| <= |b|
  {
    if a != {} {
      var x :| x in a;
      SubsetSize(a - {x}, b - {x});
    }
  }
}
