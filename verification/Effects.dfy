/**
 What each write of the store achieves: when it succeeds, what the row it writes then holds, and what it leaves alone
 (internal/store). Stated of the tables before and after, whatever way a write goes about it.
 */
module Effects {
  import opened Options
  import opened Clock
  import opened Tables
  import opened Writes

  // ----- items

  /** An upload that says what it must. */
  predicate Complete(input: ItemInput) {
    input.ciphertext != [] && input.wrappedKey != [] && !input.target.Blank?
  }

  predicate Exists(db: Db, target: Target) {
    target.In? ==> target.id in db.collections
  }

  predicate Distinct(ids: seq<Id>) {
    forall j, k | 0 <= j < k < |ids| :: ids[j] != ids[k]
  }

  predicate CanInsert(db: Db, ids: seq<Id>, inputs: seq<ItemInput>) {
    && |ids| == |inputs| && Distinct(ids)
    && forall j | 0 <= j < |ids| :: ids[j] !in db.items && Exists(db, inputs[j].target)
  }

  predicate CanCreate(db: Db, ids: seq<Id>, inputs: seq<ItemInput>) {
    inputs != [] && CanInsert(db, ids, inputs) && forall j | 0 <= j < |inputs| :: Complete(inputs[j])
  }

  /** A new row of the owner that holds what was sent, in the collection named or in none. */
  predicate StoredAs(items: map<Id, Item>, id: Id, owner: Id, input: ItemInput, revision: nat, now: int) {
    && id in items
    && items[id].body.owner == owner
    && items[id].body.collection == (if input.target.In? then Some(input.target.id) else None)
    && items[id].body.ciphertext == input.ciphertext && items[id].body.wrappedKey == input.wrappedKey
    && items[id].revision == revision && items[id].createdAt == items[id].updatedAt == Seconds(now)
    && items[id].deletedAt.None?
  }

  ghost predicate ItemsOnly(db: Db, db': Db) {
    db' == db.(revision := db'.revision, items := db'.items)
  }

  /** The rows sent are there, each with a revision of its own, and nothing else is new or different. */
  ghost predicate Created(db: Db, db': Db, owner: Id, ids: seq<Id>, inputs: seq<ItemInput>, now: int)
    requires |ids| == |inputs|
  {
    && ItemsOnly(db, db') && db'.revision == db.revision + |ids|
    && db'.items.Keys == db.items.Keys + (set i | i in ids)
    && (forall j | 0 <= j < |ids| :: StoredAs(db'.items, ids[j], owner, inputs[j], db.revision + 1 + j, now))
    && forall i | i in db.items :: i in db'.items && db'.items[i] == db.items[i]
  }

  lemma {:induction false} InsertEffect(db: Db, owner: Id, ids: seq<Id>, inputs: seq<ItemInput>, now: int)
    requires |ids| == |inputs|
    ensures var done := InsertItems(db, owner, ids, inputs, now);
            && (done.Inserted? <==> CanInsert(db, ids, inputs))
            && (done.Inserted? ==> Created(db, done.db, owner, ids, inputs, now))
    decreases |ids|
  {
    if ids != [] && Exists(db, inputs[0].target) && ids[0] !in db.items {
      var db1 := InsertItem(db, owner, ids[0], inputs[0], now);
      InsertEffect(db1, owner, ids[1..], inputs[1..], now);
      InsertOneMore(db, db1, owner, ids, inputs, now);
    }
  }

  lemma {:induction false} InsertOneMore(db: Db, db1: Db, owner: Id, ids: seq<Id>, inputs: seq<ItemInput>, now: int)
    requires |ids| == |inputs| > 0 && Exists(db, inputs[0].target) && ids[0] !in db.items
    requires db1 == InsertItem(db, owner, ids[0], inputs[0], now)
    ensures CanInsert(db, ids, inputs) <==> CanInsert(db1, ids[1..], inputs[1..])
    ensures forall db' | Created(db1, db', owner, ids[1..], inputs[1..], now) ::
              Created(db, db', owner, ids, inputs, now)
  {
    CanInsertSplit(db, db1, ids, inputs);
    forall db' | Created(db1, db', owner, ids[1..], inputs[1..], now)
      ensures Created(db, db', owner, ids, inputs, now)
    {
      CreatedSplit(db, db1, db', owner, ids, inputs, now);
    }
  }

  lemma {:induction false} CanInsertSplit(db: Db, db1: Db, ids: seq<Id>, inputs: seq<ItemInput>)
    requires |ids| == |inputs| > 0 && Exists(db, inputs[0].target) && ids[0] !in db.items
    requires db1.collections == db.collections && db1.items.Keys == db.items.Keys + {ids[0]}
    ensures CanInsert(db, ids, inputs) <==> CanInsert(db1, ids[1..], inputs[1..])
  {
    if CanInsert(db1, ids[1..], inputs[1..]) {
      forall j | 0 <= j < |ids|
        ensures ids[j] !in db.items && Exists(db, inputs[j].target) && (j > 0 ==> ids[j] != ids[0])
      {
        if j > 0 {
          assert ids[1..][j - 1] !in db1.items && Exists(db1, inputs[1..][j - 1].target);
        }
      }
      forall j, k | 0 <= j < k < |ids|
        ensures ids[j] != ids[k]
      {
        if j > 0 {
          assert ids[1..][j - 1] != ids[1..][k - 1];
        }
      }
    }
  }

  lemma {:induction false} CreatedSplit(
    db: Db, db1: Db, db': Db, owner: Id, ids: seq<Id>, inputs: seq<ItemInput>, now: int)
    requires |ids| == |inputs| > 0 && ids[0] !in db.items
    requires db1 == InsertItem(db, owner, ids[0], inputs[0], now)
    requires Created(db1, db', owner, ids[1..], inputs[1..], now)
    ensures Created(db, db', owner, ids, inputs, now)
  {
    assert ids == [ids[0]] + ids[1..];
    forall j | 0 <= j < |ids|
      ensures StoredAs(db'.items, ids[j], owner, inputs[j], db.revision + 1 + j, now)
    {
      if j > 0 {
        var k := j - 1;
        assert StoredAs(db'.items, ids[1..][k], owner, inputs[1..][k], db1.revision + 1 + k, now);
      } else {
        assert ids[0] in db1.items;
      }
    }
  }

  lemma {:induction false} ProblemIff(inputs: seq<ItemInput>)
    ensures FirstProblem(inputs).None? <==> forall j | 0 <= j < |inputs| :: Complete(inputs[j])
  {
    if inputs != [] {
      ProblemIff(inputs[1..]);
      assert inputs == [inputs[0]] + inputs[1..];
    }
  }

  /** A batch stores every row as sent or none at all. */
  lemma {:induction false} CreateEffect(db: Db, owner: Id, ids: seq<Id>, inputs: seq<ItemInput>, now: int)
    requires |ids| == |inputs|
    ensures var (db', reply) := CreateItemsBulk(db, owner, ids, inputs, now);
            if CanCreate(db, ids, inputs) then reply == Done(ids) && Created(db, db', owner, ids, inputs, now)
            else reply.Refused? && db' == db
  {
    ProblemIff(inputs);
    InsertEffect(db, owner, ids, inputs, now);
  }

  /** The row still has that revision, and what is sent can be stored. */
  predicate CanPut(db: Db, id: Id, expected: int, input: ItemInput) {
    && Complete(input) && Exists(db, input.target)
    && id in db.items && db.items[id].deletedAt.None? && db.items[id].revision == expected
  }

  /** What was sent, under the owner and creation time there were, in the collection named or the one it was in. */
  predicate HoldsPut(row: Item, was: Item, input: ItemInput, revision: nat, now: int) {
    && row.body.ciphertext == input.ciphertext && row.body.wrappedKey == input.wrappedKey
    && row.body.owner == was.body.owner
    && row.body.collection == (if input.target.In? then Some(input.target.id) else was.body.collection)
    && row.revision == revision && row.createdAt == was.createdAt && row.updatedAt == Seconds(now)
    && row.deletedAt.None?
  }

  /** One row is written with the next revision, and no other. */
  ghost predicate OneItem(db: Db, db': Db, id: Id) {
    && ItemsOnly(db, db') && db'.revision == db.revision + 1
    && id in db.items && db'.items.Keys == db.items.Keys
    && forall i | i in db.items && i != id :: db'.items[i] == db.items[i]
  }

  /** An update stores what was sent and answers with it; a lost race answers with the row that won. */
  lemma {:induction false} PutEffect(db: Db, id: Id, expected: int, input: ItemInput, now: int)
    ensures var (db', reply) := UpdateItem(db, id, expected, input, now);
            if CanPut(db, id, expected, input) then
              && OneItem(db, db', id) && HoldsPut(db'.items[id], db.items[id], input, db'.revision, now)
              && reply == Done(db'.items[id])
            else
              && db' == db && !reply.Done?
              && (reply.Stale? <==> Complete(input) && id in db.items && db.items[id].deletedAt.None?
                                    && db.items[id].revision != expected)
              && (reply.Stale? ==> reply.current == db.items[id])
  {
  }

  predicate CanDrop(db: Db, id: Id) {
    id in db.items && db.items[id].deletedAt.None?
  }

  /** Nothing of the secret is left, and the row says when it went. */
  predicate HoldsTombstone(row: Item, was: Item, revision: nat, now: int) {
    && row.body.ciphertext == [] && row.body.wrappedKey == []
    && row.body.owner == was.body.owner && row.body.collection == was.body.collection
    && row.revision == revision && row.createdAt == was.createdAt
    && row.updatedAt == Seconds(now) && row.deletedAt == Some(Seconds(now))
  }

  lemma {:induction false} DropEffect(db: Db, id: Id, now: int)
    ensures var (db', reply) := DeleteItem(db, id, now);
            if CanDrop(db, id) then
              && OneItem(db, db', id) && HoldsTombstone(db'.items[id], db.items[id], db'.revision, now)
              && reply == Done(db'.items[id])
            else db' == db && reply == Refused(NotFound)
  {
  }

  // ----- folders

  ghost predicate FoldersOnly(db: Db, db': Db, id: Id) {
    && db' == db.(revision := db.revision + 1, folders := db'.folders)
    && db'.folders.Keys == db.folders.Keys + {id}
    && forall f | f in db.folders && f != id :: db'.folders[f] == db.folders[f]
  }

  /** A folder row as it must be: whose it is, its name, its revision and its times. */
  predicate FolderIs(row: Folder, user: Id, name: Blob, revision: nat, created: int, updated: int, gone: bool) {
    && row.body.user == user && row.body.encryptedName == name && row.revision == revision
    && row.createdAt == created && row.updatedAt == updated
    && row.deletedAt == if gone then Some(updated) else None
  }

  lemma {:induction false} NewFolderEffect(db: Db, id: Id, user: Id, name: Blob, now: int)
    ensures var (db', reply) := CreateFolder(db, id, user, name, now);
            if name != [] && id !in db.folders then
              && FoldersOnly(db, db', id) && reply == Done(db'.folders[id])
              && FolderIs(db'.folders[id], user, name, db'.revision, Seconds(now), Seconds(now), false)
            else db' == db && reply.Refused?
  {
  }

  lemma {:induction false} PutFolderEffect(db: Db, id: Id, expected: int, name: Blob, now: int)
    ensures var (db', reply) := UpdateFolder(db, id, expected, name, now);
            if name != [] && id in db.folders && db.folders[id].deletedAt.None? && db.folders[id].revision == expected
            then
              && FoldersOnly(db, db', id) && reply == Done(db'.folders[id])
              && FolderIs(db'.folders[id], db.folders[id].body.user, name, db'.revision, db.folders[id].createdAt,
                          Seconds(now), false)
            else
              && db' == db && !reply.Done?
              && (reply.Stale? <==> name != [] && id in db.folders && db.folders[id].deletedAt.None?
                                    && db.folders[id].revision != expected)
              && (reply.Stale? ==> reply.current == db.folders[id])
  {
  }

  lemma {:induction false} DropFolderEffect(db: Db, id: Id, now: int)
    ensures var (db', reply) := DeleteFolder(db, id, now);
            if id in db.folders && db.folders[id].deletedAt.None? then
              && FoldersOnly(db, db', id) && reply == Done(db'.folders[id])
              && FolderIs(db'.folders[id], db.folders[id].body.user, [], db'.revision, db.folders[id].createdAt,
                          Seconds(now), true)
            else db' == db && reply == Refused(NotFound)
  {
  }

  // ----- collections, memberships and grants

  predicate Offered(role: Role) {
    role == Member || role == Manager
  }

  /** The membership has that key and role, from that actor and moment, and the new revision; no other changed. */
  ghost predicate OneMember(db: Db, db': Db, key: (Id, Id), sealedKey: Blob, role: Role, actor: Id, now: int) {
    && db'.revision == db.revision + 1 && db'.items == db.items && db'.folders == db.folders
    && db'.members.Keys == db.members.Keys + {key}
    && db'.members[key].sealedKey == sealedKey && db'.members[key].role == role
    && db'.members[key].grantedBy == actor && db'.members[key].grantedAt == Seconds(now)
    && db'.members[key].grantedRevision == db'.revision
    && forall k | k in db.members && k != key :: db'.members[k] == db.members[k]
  }

  predicate CanFound(db: Db, id: Id, given: Blob, creator: Id, sealedKey: Blob) {
    && (exists k :: 0 <= k < |given| && !IsSpace(given[k])) && sealedKey != []
    && id !in db.collections && (id, creator) !in db.members
  }

  lemma {:induction false} TrimmedEmptyIff(name: Blob)
    ensures Trimmed(name) == [] <==> forall k | 0 <= k < |name| :: IsSpace(name[k])
    decreases |name|
  {
    if name != [] && IsSpace(name[0]) {
      TrimmedEmptyIff(name[1..]);
      assert forall k | 1 <= k < |name| :: name[k] == name[1..][k - 1];
      assert forall k | 0 <= k < |name| - 1 :: name[1..][k] == name[k + 1];
    } else if name != [] && IsSpace(name[|name| - 1]) {
      TrimmedEmptyIff(name[..|name| - 1]);
    }
  }

  /** What is left of a name when white space is taken off its two ends, and nothing else. */
  ghost predicate Middle(name: Blob, from: nat, to: nat) {
    from <= to <= |name| && forall k | 0 <= k < from || to <= k < |name| :: IsSpace(name[k])
  }

  lemma {:induction false} TrimmedIsMiddle(name: Blob) returns (from: nat, to: nat)
    ensures Middle(name, from, to) && Trimmed(name) == name[from..to]
    decreases |name|
  {
    from, to := 0, |name|;
    if name != [] && IsSpace(name[0]) {
      from, to := TrimmedIsMiddle(name[1..]);
      MiddleFront(name, from, to);
      from, to := from + 1, to + 1;
    } else if name != [] && IsSpace(name[|name| - 1]) {
      from, to := TrimmedIsMiddle(name[..|name| - 1]);
      MiddleBack(name, from, to);
    }
  }

  lemma {:induction false} MiddleFront(name: Blob, from: nat, to: nat)
    requires name != [] && IsSpace(name[0]) && Middle(name[1..], from, to)
    ensures Middle(name, from + 1, to + 1) && name[1..][from..to] == name[from + 1..to + 1]
  {
    forall k | 0 <= k < from + 1 || to + 1 <= k < |name|
      ensures IsSpace(name[k])
    {
      if k > 0 {
        assert IsSpace(name[1..][k - 1]);
      }
    }
    SliceShifted(name, from, to);
  }

  lemma {:induction false} SliceShifted(s: Blob, from: nat, to: nat)
    requires s != [] && from <= to < |s|
    ensures s[1..][from..to] == s[from + 1..to + 1]
  {
    assert forall k | 0 <= k < to - from :: s[1..][from..to][k] == s[from + 1..to + 1][k];
  }

  lemma {:induction false} MiddleBack(name: Blob, from: nat, to: nat)
    requires name != [] && IsSpace(name[|name| - 1]) && Middle(name[..|name| - 1], from, to)
    ensures Middle(name, from, to) && name[..|name| - 1][from..to] == name[from..to]
  {
    forall k | 0 <= k < from || to <= k < |name|
      ensures IsSpace(name[k])
    {
      if k < |name| - 1 {
        assert IsSpace(name[..|name| - 1][k]);
      }
    }
  }

  /** A collection comes with its creator as its manager. */
  lemma {:induction false} FoundEffect(db: Db, id: Id, given: Blob, creator: Id, sealedKey: Blob, now: int)
    ensures var (db', reply) := CreateCollection(db, id, given, creator, sealedKey, now);
            if CanFound(db, id, given, creator, sealedKey) then
              && reply.Done? && OneMember(db, db', (id, creator), sealedKey, Manager, creator, now)
              && db'.grants == db.grants
              && db'.collections == db.collections[id := Collection(Trimmed(given), creator, Seconds(now))]
            else db' == db && reply.Refused?
  {
    TrimmedEmptyIff(given);
    assert Trimmed(given) != [] <==> exists k :: 0 <= k < |given| && !IsSpace(given[k]);
  }

  predicate CanAdd(db: Db, collection: Id, sealedKey: Blob, role: Role) {
    Offered(role) && sealedKey != [] && collection in db.collections
  }

  lemma {:induction false} AddEffect(db: Db, collection: Id, user: Id, sealedKey: Blob, role: Role, actor: Id, now: int)
    ensures var (db', reply) := AddMember(db, collection, user, sealedKey, role, actor, now);
            if CanAdd(db, collection, sealedKey, role) then
              && reply.Done? && OneMember(db, db', (collection, user), sealedKey, role, actor, now)
              && db'.collections == db.collections && db'.grants == db.grants
            else db' == db && reply.Refused?
  {
  }

  lemma {:induction false} AskEffect(db: Db, collection: Id, user: Id, role: Role, actor: Id, now: int)
    ensures var (db', reply) := RequestGrant(db, collection, user, role, actor, now);
            if Offered(role) && collection in db.collections then
              && reply.Done? && db' == db.(grants := db'.grants)
              && db'.grants.Keys == db.grants.Keys + {(collection, user)}
              && db'.grants[(collection, user)].role == role && db'.grants[(collection, user)].requestedBy == actor
              && db'.grants[(collection, user)].createdAt == Seconds(now)
              && forall k | k in db.grants && k != (collection, user) :: db'.grants[k] == db.grants[k]
            else db' == db && reply.Refused?
  {
  }

  predicate CanFulfil(db: Db, collection: Id, user: Id, sealedKey: Blob) {
    && sealedKey != [] && (collection, user) in db.grants && Offered(db.grants[(collection, user)].role)
    && collection in db.collections
  }

  /** The member gets the role that was asked for, and the request is gone. */
  lemma {:induction false} FulfilEffect(db: Db, collection: Id, user: Id, sealedKey: Blob, actor: Id, now: int)
    ensures var (db', reply) := FulfilGrant(db, collection, user, sealedKey, actor, now);
            if CanFulfil(db, collection, user, sealedKey) then
              && reply.Done?
              && OneMember(db, db', (collection, user), sealedKey, db.grants[(collection, user)].role, actor, now)
              && db'.collections == db.collections && db'.grants == db.grants - {(collection, user)}
            else db' == db && reply.Refused?
  {
  }

  /** A membership whose loss would leave the collection without a manager. */
  ghost predicate LastManager(db: Db, collection: Id, user: Id) {
    && (collection, user) in db.members && db.members[(collection, user)].role == Manager
    && forall u | (collection, u) in db.members && db.members[(collection, u)].role == Manager :: u == user
  }

  lemma {:induction false} LastManagerIff(db: Db, collection: Id, user: Id)
    requires (collection, user) in db.members && db.members[(collection, user)].role == Manager
    ensures LastManager(db, collection, user) <==> |Managers(db, collection)| <= 1
  {
    var all, one := Managers(db, collection), {(collection, user)};
    assert (collection, user) in all;
    if LastManager(db, collection, user) {
      assert all == one;
    } else {
      var u :| (collection, u) in db.members && db.members[(collection, u)].role == Manager && u != user;
      assert (collection, u) in all - one;
      assert |all - one| == |all| - 1;
    }
  }

  /** The last manager stays; any other member goes, and nothing else. */
  lemma {:induction false} RemoveEffect(db: Db, collection: Id, user: Id)
    ensures var (db', reply) := RemoveMember(db, collection, user);
            if (collection, user) in db.members && !LastManager(db, collection, user) then
              reply.Done? && db' == db.(members := db.members - {(collection, user)})
            else db' == db && reply.Refused?
  {
    if (collection, user) in db.members && db.members[(collection, user)].role == Manager {
      LastManagerIff(db, collection, user);
    }
  }

  /** A subset of a table, by what is asked of the rows that stay. */
  ghost predicate Keeps<K(!new), V>(before: map<K, V>, after: map<K, V>, stay: set<K>) {
    after.Keys == stay && stay <= before.Keys && forall k | k in stay :: after[k] == before[k]
  }

  lemma {:induction false} DropCollectionEffect(db: Db, c: Id)
    ensures var (db', reply) := DeleteCollection(db, c);
            if c in db.collections then
              && reply.Done? && db'.revision == db.revision && db'.folders == db.folders
              && db'.collections == db.collections - {c}
              && Keeps(db.items, db'.items, set i | i in db.items && db.items[i].body.collection != Some(c))
              && Keeps(db.members, db'.members, set k | k in db.members && k.0 != c)
              && Keeps(db.grants, db'.grants, set k | k in db.grants && k.0 != c)
            else db' == db && reply.Refused?
  {
  }

  /** A reset takes the user's own rows and memberships, and leaves what is shared. */
  lemma {:induction false} ResetEffect(db: Db, user: Id)
    ensures var db' := ResetUser(db, user);
            && db'.revision == db.revision && db'.collections == db.collections
            && Keeps(db.items, db'.items,
                     set i | i in db.items && (db.items[i].body.collection.Some? || db.items[i].body.owner != user))
            && Keeps(db.folders, db'.folders, set f | f in db.folders && db.folders[f].body.user != user)
            && Keeps(db.members, db'.members, set k | k in db.members && k.1 != user)
            && Keeps(db.grants, db'.grants, set k | k in db.grants && k.1 != user)
  {
  }

  /** The row was deleted and its time, in whole seconds, is before the cutoff. */
  predicate Overdue<B>(row: Row<B>, olderThan: int, now: int) {
    row.deletedAt.Some? && row.deletedAt.value < Seconds(now - olderThan)
  }

  lemma {:induction false} PurgeEffect(db: Db, olderThan: int, now: int)
    ensures var db' := PurgeTombstones(db, olderThan, now);
            && db' == db.(items := db'.items, folders := db'.folders)
            && Keeps(db.items, db'.items, set i | i in db.items && !Overdue(db.items[i], olderThan, now))
            && Keeps(db.folders, db'.folders, set f | f in db.folders && !Overdue(db.folders[f], olderThan, now))
  {
  }
}
