/**
 Every write of internal/store as a function from one committed snapshot to the next. A write that is
 refused leaves the snapshot as it stood, revision sequence included.
 */
module Writes {
  import opened Options
  import opened Clock
  import opened Tables

  /** What an upload says about sharing: nothing, an empty name, or a collection. */
  datatype Target = Unsaid | Blank | In(id: Id)

  datatype ItemInput = ItemInput(target: Target, ciphertext: Blob, wrappedKey: Blob)

  function InputProblem(input: ItemInput): Option<Field> {
    if |input.ciphertext| == 0 then Some(Ciphertext)
    else if |input.wrappedKey| == 0 then Some(WrappedItemKey)
    else if input.target.Blank? then Some(CollectionId)
    else None
  }

  function FirstProblem(inputs: seq<ItemInput>): Option<Field> {
    if inputs == [] then None
    else if InputProblem(inputs[0]).Some? then InputProblem(inputs[0])
    else FirstProblem(inputs[1..])
  }

  predicate ValidRole(role: Role) {
    role == Member || role == Manager
  }

  predicate KnownTarget(db: Db, target: Target) {
    target.In? ==> target.id in db.collections
  }

  /** The collection a row ends up in when it stood in `current` before. */
  function Placed(target: Target, current: Option<Id>): Option<Id> {
    if target.In? then Some(target.id) else current
  }

  // ----- rows

  function Fresh<B>(body: B, revision: nat, now: int): Row<B> {
    Row(body, revision, Seconds(now), Seconds(now), None)
  }

  function Edited<B>(row: Row<B>, body: B, revision: nat, now: int): Row<B> {
    row.(body := body, revision := revision, updatedAt := Seconds(now))
  }

  function Buried<B>(row: Row<B>, body: B, revision: nat, now: int): Row<B> {
    row.(body := body, revision := revision, updatedAt := Seconds(now), deletedAt := Some(Seconds(now)))
  }

  // ----- items

  datatype Inserted = Inserted(db: Db) | InsertFailed(why: Failure)

  /** Rows are inserted in order, each drawing the next revision; the first constraint failure ends the batch. */
  function InsertItems(db: Db, owner: Id, ids: seq<Id>, inputs: seq<ItemInput>, now: int): Inserted
    requires |ids| == |inputs|
    decreases |inputs|
  {
    if inputs == [] then Inserted(db)
    else if !KnownTarget(db, inputs[0].target) then InsertFailed(Validation(CollectionId))
    else if ids[0] in db.items then InsertFailed(Internal)
    else InsertItems(InsertItem(db, owner, ids[0], inputs[0], now), owner, ids[1..], inputs[1..], now)
  }

  function InsertItem(db: Db, owner: Id, id: Id, input: ItemInput, now: int): Db {
    var body := ItemBody(owner, Placed(input.target, None), input.ciphertext, input.wrappedKey);
    db.(revision := db.revision + 1, items := db.items[id := Fresh(body, db.revision + 1, now)])
  }

  function CreateItemsBulk(db: Db, owner: Id, ids: seq<Id>, inputs: seq<ItemInput>, now: int): (Db, Reply<seq<Id>>)
    requires |ids| == |inputs|
  {
    if inputs == [] then (db, Refused(Validation(Items)))
    else if FirstProblem(inputs).Some? then (db, Refused(Validation(FirstProblem(inputs).value)))
    else match InsertItems(db, owner, ids, inputs, now)
      case Inserted(db') => (db', Done(ids))
      case InsertFailed(why) => (db, Refused(why))
  }

  function UpdateItem(db: Db, id: Id, expected: int, input: ItemInput, now: int): (Db, Reply<Item>) {
    if InputProblem(input).Some? then (db, Refused(Validation(InputProblem(input).value)))
    else if id !in db.items || !db.items[id].Live() then (db, Refused(NotFound))
    else if db.items[id].revision != expected then (db, Stale(db.items[id]))
    else if !KnownTarget(db, input.target) then (db, Refused(Internal))
    else
      var was := db.items[id];
      var body := ItemBody(was.body.owner, Placed(input.target, was.body.collection), input.ciphertext,
          input.wrappedKey);
      var row := Edited(was, body, db.revision + 1, now);
      (db.(revision := db.revision + 1, items := db.items[id := row]), Done(row))
  }

  function DeleteItem(db: Db, id: Id, now: int): (Db, Reply<Item>) {
    if id !in db.items || !db.items[id].Live() then (db, Refused(NotFound))
    else
      var was := db.items[id];
      var row := Buried(was, was.body.(ciphertext := [], wrappedKey := []), db.revision + 1, now);
      (db.(revision := db.revision + 1, items := db.items[id := row]), Done(row))
  }

  // ----- folders

  function CreateFolder(db: Db, id: Id, user: Id, name: Blob, now: int): (Db, Reply<Folder>) {
    if |name| == 0 then (db, Refused(Validation(EncryptedName)))
    else if id in db.folders then (db, Refused(Internal))
    else
      var row := Fresh(FolderBody(user, name), db.revision + 1, now);
      (db.(revision := db.revision + 1, folders := db.folders[id := row]), Done(row))
  }

  function UpdateFolder(db: Db, id: Id, expected: int, name: Blob, now: int): (Db, Reply<Folder>) {
    if |name| == 0 then (db, Refused(Validation(EncryptedName)))
    else if id !in db.folders || !db.folders[id].Live() then (db, Refused(NotFound))
    else if db.folders[id].revision != expected then (db, Stale(db.folders[id]))
    else
      var was := db.folders[id];
      var row := Edited(was, was.body.(encryptedName := name), db.revision + 1, now);
      (db.(revision := db.revision + 1, folders := db.folders[id := row]), Done(row))
  }

  function DeleteFolder(db: Db, id: Id, now: int): (Db, Reply<Folder>) {
    if id !in db.folders || !db.folders[id].Live() then (db, Refused(NotFound))
    else
      var was := db.folders[id];
      var row := Buried(was, was.body.(encryptedName := []), db.revision + 1, now);
      (db.(revision := db.revision + 1, folders := db.folders[id := row]), Done(row))
  }

  // ----- collections, memberships and grants

  function PutMember(db: Db, collection: Id, user: Id, sealedKey: Blob, role: Role, actor: Id, now: int): Db {
    var member := Membership(sealedKey, role, actor, Seconds(now), db.revision + 1);
    db.(revision := db.revision + 1, members := db.members[(collection, user) := member])
  }

  /** The white space that strings.TrimSpace removes. */
  predicate IsSpace(c: char) {
    || '\t' <= c <= '\r' || c == ' ' || c == '\U{0085}' || c == '\U{00A0}' || c == '\U{1680}'
    || '\U{2000}' <= c <= '\U{200A}' || c == '\U{2028}' || c == '\U{2029}' || c == '\U{202F}' || c == '\U{205F}'
        || c == '\U{3000}'
  }

  function Trimmed(name: Blob): (t: Blob)
    ensures |t| > 0 ==> !IsSpace(t[0]) && !IsSpace(t[|t| - 1])
  {
    if |name| == 0 then name
    else if IsSpace(name[0]) then Trimmed(name[1..])
    else if IsSpace(name[|name| - 1]) then Trimmed(name[..|name| - 1])
    else name
  }

  function CreateCollection(db: Db, id: Id, given: Blob, creator: Id, sealedKey: Blob, now: int): (Db, Reply<()>) {
    var name := Trimmed(given);
    if |name| == 0 then (db, Refused(Validation(Name)))
    else if |sealedKey| == 0 then (db, Refused(Validation(SealedCollectionKey)))
    else if id in db.collections || (id, creator) in db.members then (db, Refused(Internal))
    else
      var db1 := db.(collections := db.collections[id := Collection(name, creator, Seconds(now))]);
      (PutMember(db1, id, creator, sealedKey, Manager, creator, now), Done(()))
  }

  /** FulfilGrantOrAdd: a manager adds a member outright; an existing membership is re-sealed in place. */
  function AddMember(
    db: Db, collection: Id, user: Id, sealedKey: Blob, role: Role, actor: Id, now: int): (Db, Reply<()>) {
    if !ValidRole(role) then (db, Refused(Validation(RoleField)))
    else if |sealedKey| == 0 then (db, Refused(Validation(SealedCollectionKey)))
    else if collection !in db.collections then (db, Refused(Internal))
    else (PutMember(db, collection, user, sealedKey, role, actor, now), Done(()))
  }

  function RequestGrant(db: Db, collection: Id, user: Id, role: Role, actor: Id, now: int): (Db, Reply<()>) {
    if !ValidRole(role) then (db, Refused(Validation(RoleField)))
    else if collection !in db.collections then (db, Refused(Internal))
    else (db.(grants := db.grants[(collection, user) := Grant(role, actor, Seconds(now))]), Done(()))
  }

  function FulfilGrant(db: Db, collection: Id, user: Id, sealedKey: Blob, actor: Id, now: int): (Db, Reply<()>) {
    if |sealedKey| == 0 then (db, Refused(Validation(SealedCollectionKey)))
    else if (collection, user) !in db.grants then (db, Refused(NotFound))
    else if !ValidRole(db.grants[(collection, user)].role) then (db, Refused(Validation(RoleField)))
    else if collection !in db.collections then (db, Refused(Internal))
    else
      var db1 := PutMember(db, collection, user, sealedKey, db.grants[(collection, user)].role, actor, now);
      (db1.(grants := db1.grants - {(collection, user)}), Done(()))
  }

  function Managers(db: Db, collection: Id): set<(Id, Id)> {
    set k | k in db.members && k.0 == collection && db.members[k].role == Manager
  }

  function RemoveMember(db: Db, collection: Id, user: Id): (Db, Reply<()>) {
    if (collection, user) !in db.members then (db, Refused(NotFound))
    else if db.members[(collection, user)].role == Manager && |Managers(db, collection)| <= 1 then
      (db, Refused(Validation(UserId)))
    else (db.(members := db.members - {(collection, user)}), Done(()))
  }

  /** The cascade hard-deletes the collection's items: they leave no tombstone. */
  function DeleteCollection(db: Db, collection: Id): (Db, Reply<()>) {
    if collection !in db.collections then (db, Refused(NotFound))
    else (db.(
            collections := db.collections - {collection},
            items := map i | i in db.items && db.items[i].body.collection != Some(collection) :: db.items[i],
            members := map k | k in db.members && k.0 != collection :: db.members[k],
            grants := map k | k in db.grants && k.0 != collection :: db.grants[k]),
          Done(()))
  }

  /** The sync-visible part of an account reset: personal rows and memberships vanish without a tombstone. */
  function ResetUser(db: Db, user: Id): Db {
    db.(items := map i | i in db.items && !(db.items[i].body.owner == user && db.items[i].body.collection.None?)
                   :: db.items[i],
        folders := map f | f in db.folders && db.folders[f].body.user != user :: db.folders[f],
        members := map k | k in db.members && k.1 != user :: db.members[k],
        grants := map k | k in db.grants && k.1 != user :: db.grants[k])
  }

  // ----- retention

  const TOMBSTONE_RETENTION: int := 90 * 24 * 3600 * SECOND

  /** Tombstones stamped before `cutoff` are dropped; live rows and newer tombstones stay. */
  predicate Expired<B>(row: Row<B>, cutoff: int) {
    row.deletedAt.Some? && row.deletedAt.value < cutoff
  }

  function Unexpired<B>(table: map<Id, Row<B>>, cutoff: int): map<Id, Row<B>> {
    map i | i in table && !Expired(table[i], cutoff) :: table[i]
  }

  function PurgeTombstones(db: Db, olderThan: int, now: int): Db {
    var cutoff := Seconds(now - olderThan);
    db.(items := Unexpired(db.items, cutoff), folders := Unexpired(db.folders, cutoff))
  }

  // ----- one write of a run

  datatype Write =
    | CreateItems(owner: Id, ids: seq<Id>, inputs: seq<ItemInput>)
    | PutItem(id: Id, expected: int, input: ItemInput)
    | DropItem(id: Id)
    | NewFolder(id: Id, user: Id, name: Blob)
    | PutFolder(id: Id, expected: int, name: Blob)
    | DropFolder(id: Id)
    | NewCollection(id: Id, name: Blob, creator: Id, sealedKey: Blob)
    | Add(collection: Id, user: Id, sealedKey: Blob, role: Role, actor: Id)
    | Ask(collection: Id, user: Id, role: Role, actor: Id)
    | Fulfil(collection: Id, user: Id, sealedKey: Blob, actor: Id)
    | Remove(collection: Id, user: Id)
    | DropCollection(collection: Id)
    | Reset(user: Id)
    | Purge(olderThan: int)

  predicate WellFormed(w: Write) {
    w.CreateItems? ==> |w.ids| == |w.inputs|
  }

  /** The snapshot after `w`; a transaction that does not commit changes nothing. */
  function Apply(db: Db, w: Write, now: int, commits: bool): Db
    requires WellFormed(w)
  {
    if !commits then db
    else match w
      case CreateItems(owner, ids, inputs) => CreateItemsBulk(db, owner, ids, inputs, now).0
      case PutItem(id, expected, input) => UpdateItem(db, id, expected, input, now).0
      case DropItem(id) => DeleteItem(db, id, now).0
      case NewFolder(id, user, name) => CreateFolder(db, id, user, name, now).0
      case PutFolder(id, expected, name) => UpdateFolder(db, id, expected, name, now).0
      case DropFolder(id) => DeleteFolder(db, id, now).0
      case NewCollection(id, name, creator, sealedKey) => CreateCollection(db, id, name, creator, sealedKey, now).0
      case Add(collection, user, sealedKey, role, actor) =>
        AddMember(db, collection, user, sealedKey, role, actor, now).0
      case Ask(collection, user, role, actor) => RequestGrant(db, collection, user, role, actor, now).0
      case Fulfil(collection, user, sealedKey, actor) => FulfilGrant(db, collection, user, sealedKey, actor, now).0
      case Remove(collection, user) => RemoveMember(db, collection, user).0
      case DropCollection(collection) => DeleteCollection(db, collection).0
      case Reset(user) => ResetUser(db, user)
      case Purge(olderThan) => PurgeTombstones(db, olderThan, now)
  }

  // ----- what every write does to the tables

  /** A row after a write is untouched, or carries a revision the sequence had not reached before it;
      a tombstone is never written again, and a row is buried with the write's own time. */
  ghost predicate RowStep<B>(was: map<Id, Row<B>>, id: Id, row: Row<B>, rev: nat, rev': nat, now: int) {
    || (id in was && was[id] == row)
    || (&& rev < row.revision <= rev'
        && (row.deletedAt.Some? ==> id in was && row.deletedAt.value == Seconds(now))
        && (id in was ==> was[id].Live()))
  }

  ghost predicate TableStep<B(!new)>(was: map<Id, Row<B>>, after: map<Id, Row<B>>, rev: nat, rev': nat, now: int) {
    forall id | id in after :: RowStep(was, id, after[id], rev, rev', now)
  }

  ghost predicate MemberStep(was: map<(Id, Id), Membership>, after: map<(Id, Id), Membership>, rev: nat, rev': nat) {
    forall k | k in after :: (k in was && was[k] == after[k]) || rev < after[k].grantedRevision <= rev'
  }

  ghost predicate DbStep(db: Db, db': Db, now: int) {
    && db.revision <= db'.revision
    && TableStep(db.items, db'.items, db.revision, db'.revision, now)
    && TableStep(db.folders, db'.folders, db.revision, db'.revision, now)
    && MemberStep(db.members, db'.members, db.revision, db'.revision)
  }

  lemma {:induction false} InsertItemsStep(db: Db, owner: Id, ids: seq<Id>, inputs: seq<ItemInput>, now: int)
    requires |ids| == |inputs|
    ensures InsertItems(db, owner, ids, inputs, now).Inserted? ==>
              var db' := InsertItems(db, owner, ids, inputs, now).db;
              && DbStep(db, db', now)
              && db' == db.(revision := db'.revision, items := db'.items)
              && forall id | id in db.items :: id in db'.items && db'.items[id] == db.items[id]
    decreases |inputs|
  {
    if inputs != [] && KnownTarget(db, inputs[0].target) && ids[0] !in db.items {
      InsertItemsStep(InsertItem(db, owner, ids[0], inputs[0], now), owner, ids[1..], inputs[1..], now);
    }
  }

  lemma {:induction false} UpdateItemSteps(db: Db, id: Id, expected: int, input: ItemInput, now: int)
    ensures DbStep(db, UpdateItem(db, id, expected, input, now).0, now)
  {
  }

  lemma {:induction false} DeleteItemSteps(db: Db, id: Id, now: int)
    ensures DbStep(db, DeleteItem(db, id, now).0, now)
  {
  }

  lemma {:induction false} CreateFolderSteps(db: Db, id: Id, user: Id, name: Blob, now: int)
    ensures DbStep(db, CreateFolder(db, id, user, name, now).0, now)
  {
  }

  lemma {:induction false} UpdateFolderSteps(db: Db, id: Id, expected: int, name: Blob, now: int)
    ensures DbStep(db, UpdateFolder(db, id, expected, name, now).0, now)
  {
  }

  lemma {:induction false} DeleteFolderSteps(db: Db, id: Id, now: int)
    ensures DbStep(db, DeleteFolder(db, id, now).0, now)
  {
  }

  /** A membership written with the next revision, items and folders untouched. */
  lemma {:induction false} GrantSteps(db: Db, db': Db, key: (Id, Id), now: int)
    requires db'.items == db.items && db'.folders == db.folders && db'.revision == db.revision + 1
    requires key in db'.members && db'.members == db.members[key := db'.members[key]]
    requires db'.members[key].grantedRevision == db'.revision
    ensures DbStep(db, db', now)
  {
  }

  lemma {:induction false} CreateCollectionSteps(db: Db, id: Id, name: Blob, creator: Id, sealedKey: Blob, now: int)
    ensures DbStep(db, CreateCollection(db, id, name, creator, sealedKey, now).0, now)
  {
    var (db', reply) := CreateCollection(db, id, name, creator, sealedKey, now);
    if reply.Done? {
      GrantSteps(db, db', (id, creator), now);
    }
  }

  lemma {:induction false} AddMemberSteps(
    db: Db, collection: Id, user: Id, sealedKey: Blob, role: Role, actor: Id, now: int)
    ensures DbStep(db, AddMember(db, collection, user, sealedKey, role, actor, now).0, now)
  {
    var (db', reply) := AddMember(db, collection, user, sealedKey, role, actor, now);
    if reply.Done? {
      GrantSteps(db, db', (collection, user), now);
    }
  }

  lemma {:induction false} FulfilGrantSteps(db: Db, collection: Id, user: Id, sealedKey: Blob, actor: Id, now: int)
    ensures DbStep(db, FulfilGrant(db, collection, user, sealedKey, actor, now).0, now)
  {
    var (db', reply) := FulfilGrant(db, collection, user, sealedKey, actor, now);
    if reply.Done? {
      GrantSteps(db, db', (collection, user), now);
    }
  }

  lemma {:induction false} RequestGrantSteps(db: Db, collection: Id, user: Id, role: Role, actor: Id, now: int)
    ensures DbStep(db, RequestGrant(db, collection, user, role, actor, now).0, now)
  {
  }

  lemma {:induction false} RemoveMemberSteps(db: Db, collection: Id, user: Id, now: int)
    ensures DbStep(db, RemoveMember(db, collection, user).0, now)
  {
  }

  lemma {:induction false} RemovalSteps(db: Db, w: Write, now: int)
    requires w.DropCollection? || w.Reset? || w.Purge?
    ensures DbStep(db, Apply(db, w, now, true), now)
  {
  }

  /** Every write of the store, committed or not, moves the tables only by DbStep. */
  lemma {:induction false} WriteSteps(db: Db, w: Write, now: int, commits: bool)
    requires WellFormed(w)
    ensures DbStep(db, Apply(db, w, now, commits), now)
  {
    match w
    case CreateItems(owner, ids, inputs) => InsertItemsStep(db, owner, ids, inputs, now);
    case PutItem(id, expected, input) => UpdateItemSteps(db, id, expected, input, now);
    case DropItem(id) => DeleteItemSteps(db, id, now);
    case NewFolder(id, user, name) => CreateFolderSteps(db, id, user, name, now);
    case PutFolder(id, expected, name) => UpdateFolderSteps(db, id, expected, name, now);
    case DropFolder(id) => DeleteFolderSteps(db, id, now);
    case DropCollection(_) => RemovalSteps(db, w, now);
    case Reset(_) => RemovalSteps(db, w, now);
    case Purge(_) => RemovalSteps(db, w, now);
    case Ask(collection, user, role, actor) => RequestGrantSteps(db, collection, user, role, actor, now);
    case Remove(collection, user) => RemoveMemberSteps(db, collection, user, now);
    case NewCollection(id, name, creator, sealedKey) => CreateCollectionSteps(db, id, name, creator, sealedKey, now);
    case Add(collection, user, sealedKey, role, actor) =>
      AddMemberSteps(db, collection, user, sealedKey, role, actor, now);
    case Fulfil(collection, user, sealedKey, actor) => FulfilGrantSteps(db, collection, user, sealedKey, actor, now);
  }
}
