/**
 The tables the vault server keeps for sync (internal/store, with the schema of its migrations): one
 shared revision sequence, items and folders with tombstones, collections, memberships and pending
 grants. A database value is one committed snapshot.
 */
module Tables {
  import opened Options

  /** Identifiers are sixteen random bytes; only their equality matters. */
  type Id = nat

  type Blob = seq<char>

  /** What items and folders share: the revision a sync cursor compares, and the tombstone mark. */
  datatype Row<+B> = Row(body: B, revision: nat, createdAt: int, updatedAt: int, deletedAt: Option<int>)
  {
    predicate Live() {
      deletedAt.None?
    }
  }

  datatype ItemBody = ItemBody(owner: Id, collection: Option<Id>, ciphertext: Blob, wrappedKey: Blob)

  datatype FolderBody = FolderBody(user: Id, encryptedName: Blob)

  type Item = Row<ItemBody>

  type Folder = Row<FolderBody>

  datatype Role = Member | Manager | OtherRole

  datatype Collection = Collection(name: Blob, createdBy: Id, createdAt: int)

  datatype Membership = Membership(sealedKey: Blob, role: Role, grantedBy: Id, grantedAt: int, grantedRevision: nat)

  datatype Grant = Grant(role: Role, requestedBy: Id, createdAt: int)

  /** Memberships and grants are keyed by (collection, user). */
  datatype Db = Db(
    revision: nat,
    items: map<Id, Item>,
    folders: map<Id, Folder>,
    collections: map<Id, Collection>,
    members: map<(Id, Id), Membership>,
    grants: map<(Id, Id), Grant>)

  const EMPTY_DB: Db := Db(0, map[], map[], map[], map[], map[])

  datatype Field =
    | Items | Ciphertext | WrappedItemKey | CollectionId | EncryptedName | Name | SealedCollectionKey | RoleField
    | UserId

  datatype Failure = NotFound | Validation(field: Field) | Internal

  /** What a write answers: the stored row, the current row of a lost revision race, or a refusal. */
  datatype Reply<+T> = Done(row: T) | Stale(current: T) | Refused(why: Failure)
}
