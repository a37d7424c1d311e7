/**
 What the history of writes says of the tables and of what a sync sends, told from the requests themselves: who was
 granted what, who sent which contents, and what has happened since.
 */
module Histories {
  import opened Options
  import opened Clock
  import opened Tables
  import opened Writes
  import opened Effects
  import opened Revisions
  import Sync

  // ----- memberships

  /** The write made `user` a member of `c`, or renewed the membership. */
  ghost predicate Grants(db: Db, t: Timed, c: Id, user: Id) {
    && t.commits
    && match t.w
       case NewCollection(id, name, creator, sealedKey) =>
         id == c && creator == user && CanFound(db, id, name, creator, sealedKey)
       case Add(collection, who, sealedKey, role, _) => collection == c && who == user && CanAdd(db, c, sealedKey, role)
       case Fulfil(collection, who, sealedKey, _) => collection == c && who == user && CanFulfil(db, c, user, sealedKey)
       case _ => false
  }

  /** The write ended the membership. */
  ghost predicate Ends(db: Db, t: Timed, c: Id, user: Id) {
    && t.commits
    && match t.w
       case Remove(collection, who) => collection == c && who == user && !LastManager(db, c, user)
       case DropCollection(collection) => collection == c && c in db.collections
       case Reset(who) => who == user
       case _ => false
  }

  function KeySent(t: Timed): Blob {
    match t.w
    case NewCollection(_, _, _, sealedKey) => sealedKey
    case Add(_, _, sealedKey, _, _) => sealedKey
    case Fulfil(_, _, sealedKey, _) => sealedKey
    case _ => []
  }

  /** The creator manages; otherwise the role is the one given, or the one asked for. */
  function RoleGiven(db: Db, t: Timed): Role {
    match t.w
    case NewCollection(_, _, _, _) => Manager
    case Add(_, _, _, role, _) => role
    case Fulfil(collection, user, _, _) =>
      if (collection, user) in db.grants then db.grants[(collection, user)].role else OtherRole
    case _ => OtherRole
  }

  function Then(db: Db, t: Timed): Db
    requires WellFormed(t.w)
  {
    Apply(db, t.w, t.now, t.commits)
  }

  lemma {:induction false} OneThen(dbs: seq<Db>, writes: seq<Timed>, k: nat) returns (t: Timed)
    requires IsHistory(dbs, writes) && k < |writes|
    ensures t == writes[k] && WellFormed(t.w) && dbs[k + 1] == Then(dbs[k], t)
  {
    t := writes[k];
  }

  lemma {:induction false} MemberWritten(db: Db, t: Timed, c: Id, user: Id)
    requires WellFormed(t.w) && t.commits && (t.w.NewCollection? || t.w.Add? || t.w.Fulfil?)
    ensures (c, user) in Then(db, t).members <==> Grants(db, t, c, user) || (c, user) in db.members
    ensures Grants(db, t, c, user) ==>
      && Then(db, t).members[(c, user)].sealedKey == KeySent(t)
      && Then(db, t).members[(c, user)].role == RoleGiven(db, t)
      && Then(db, t).members[(c, user)].grantedRevision == db.revision + 1
    ensures (c, user) in db.members && !Grants(db, t, c, user) ==>
      Then(db, t).members[(c, user)] == db.members[(c, user)]
  {
    match t.w
    case NewCollection(id, name, creator, sealedKey) => FoundEffect(db, id, name, creator, sealedKey, t.now);
    case Add(collection, who, sealedKey, role, actor) => AddEffect(db, collection, who, sealedKey, role, actor, t.now);
    case Fulfil(collection, who, sealedKey, actor) => FulfilEffect(db, collection, who, sealedKey, actor, t.now);
  }

  lemma {:induction false} MemberRemoved(db: Db, t: Timed, c: Id, user: Id)
    requires WellFormed(t.w) && t.commits && (t.w.Remove? || t.w.DropCollection? || t.w.Reset? || t.w.Ask?)
    ensures (c, user) in Then(db, t).members <==> (c, user) in db.members && !Ends(db, t, c, user)
    ensures (c, user) in Then(db, t).members ==> Then(db, t).members[(c, user)] == db.members[(c, user)]
  {
    match t.w
    case Remove(collection, who) => RemoveEffect(db, collection, who);
    case DropCollection(collection) => DropCollectionEffect(db, collection);
    case Reset(who) => ResetEffect(db, who);
    case Ask(collection, who, role, actor) => AskEffect(db, collection, who, role, actor, t.now);
  }

  lemma {:induction false} MembersAlone(db: Db, t: Timed)
    requires WellFormed(t.w)
    requires t.commits ==>
      || t.w.CreateItems? || t.w.PutItem? || t.w.DropItem?
      || t.w.NewFolder? || t.w.PutFolder? || t.w.DropFolder? || t.w.Purge?
    ensures Then(db, t).members == db.members && Then(db, t).collections == db.collections
  {
    if t.commits {
      match t.w
      case CreateItems(owner, ids, inputs) => CreateEffect(db, owner, ids, inputs, t.now);
      case PutItem(id, expected, input) => PutEffect(db, id, expected, input, t.now);
      case DropItem(id) => DropEffect(db, id, t.now);
      case NewFolder(id, user, name) => NewFolderEffect(db, id, user, name, t.now);
      case PutFolder(id, expected, name) => PutFolderEffect(db, id, expected, name, t.now);
      case DropFolder(id) => DropFolderEffect(db, id, t.now);
      case Purge(olderThan) => PurgeEffect(db, olderThan, t.now);
    }
  }

  /** What one write does to one membership. */
  lemma {:induction false} MemberStepped(db: Db, t: Timed, c: Id, user: Id)
    requires WellFormed(t.w)
    ensures (c, user) in Then(db, t).members
            <==> Grants(db, t, c, user) || ((c, user) in db.members && !Ends(db, t, c, user))
    ensures Grants(db, t, c, user) ==>
      && Then(db, t).members[(c, user)].sealedKey == KeySent(t)
      && Then(db, t).members[(c, user)].role == RoleGiven(db, t)
      && Then(db, t).members[(c, user)].grantedRevision == db.revision + 1
    ensures (c, user) in Then(db, t).members && !Grants(db, t, c, user) ==>
      Then(db, t).members[(c, user)] == db.members[(c, user)]
  {
    if t.commits && (t.w.NewCollection? || t.w.Add? || t.w.Fulfil?) {
      MemberWritten(db, t, c, user);
    } else if t.commits && (t.w.Remove? || t.w.DropCollection? || t.w.Reset? || t.w.Ask?) {
      MemberRemoved(db, t, c, user);
    } else {
      MembersAlone(db, t);
    }
  }

  /** Write `k` was the last to grant the membership, and none has ended it since. */
  ghost predicate GrantedAt(dbs: seq<Db>, writes: seq<Timed>, n: nat, c: Id, user: Id, k: nat)
    requires n <= |writes| < |dbs|
  {
    && k < n && Grants(dbs[k], writes[k], c, user)
    && forall j | k < j < n :: !Grants(dbs[j], writes[j], c, user) && !Ends(dbs[j], writes[j], c, user)
  }

  ghost predicate IsMember(dbs: seq<Db>, writes: seq<Timed>, n: nat, c: Id, user: Id)
    requires n <= |writes| < |dbs|
  {
    exists k: nat :: GrantedAt(dbs, writes, n, c, user, k)
  }

  lemma {:induction false} GrantedOnward(dbs: seq<Db>, writes: seq<Timed>, n: nat, c: Id, user: Id)
    requires n < |writes| < |dbs|
    ensures IsMember(dbs, writes, n + 1, c, user)
            <==> Grants(dbs[n], writes[n], c, user)
                 || (IsMember(dbs, writes, n, c, user) && !Ends(dbs[n], writes[n], c, user))
  {
    if Grants(dbs[n], writes[n], c, user) {
      assert GrantedAt(dbs, writes, n + 1, c, user, n);
    } else if IsMember(dbs, writes, n, c, user) && !Ends(dbs[n], writes[n], c, user) {
      var k: nat :| GrantedAt(dbs, writes, n, c, user, k);
      assert GrantedAt(dbs, writes, n + 1, c, user, k);
    } else if IsMember(dbs, writes, n + 1, c, user) {
      var k: nat :| GrantedAt(dbs, writes, n + 1, c, user, k);
      assert GrantedAt(dbs, writes, n, c, user, k);
    }
  }

  lemma {:induction false} NobodyAtFirst(dbs: seq<Db>, writes: seq<Timed>, c: Id, user: Id)
    requires IsHistory(dbs, writes)
    ensures (c, user) !in dbs[0].members && !IsMember(dbs, writes, 0, c, user)
  {
  }

  /** In every history the members are exactly those granted a membership that nothing has ended since. */
  lemma {:induction false} MembersFromHistory(dbs: seq<Db>, writes: seq<Timed>, n: nat, c: Id, user: Id)
    requires IsHistory(dbs, writes) && n < |dbs|
    ensures (c, user) in dbs[n].members <==> IsMember(dbs, writes, n, c, user)
  {
    if n == 0 {
      NobodyAtFirst(dbs, writes, c, user);
    } else {
      MembersFromHistory(dbs, writes, n - 1, c, user);
      var t := OneThen(dbs, writes, n - 1);
      MemberStepped(dbs[n - 1], t, c, user);
      GrantedOnward(dbs, writes, n - 1, c, user);
    }
  }

  lemma {:induction false} MemberStays(db: Db, t: Timed, c: Id, user: Id)
    requires WellFormed(t.w) && (c, user) in db.members && !Grants(db, t, c, user) && !Ends(db, t, c, user)
    ensures (c, user) in Then(db, t).members && Then(db, t).members[(c, user)] == db.members[(c, user)]
  {
    MemberStepped(db, t, c, user);
  }

  lemma {:induction false} GrantedBefore(dbs: seq<Db>, writes: seq<Timed>, n: nat, c: Id, user: Id, k: nat)
    requires n <= |writes| < |dbs| && k < n - 1 && GrantedAt(dbs, writes, n, c, user, k)
    ensures GrantedAt(dbs, writes, n - 1, c, user, k)
    ensures !Grants(dbs[n - 1], writes[n - 1], c, user) && !Ends(dbs[n - 1], writes[n - 1], c, user)
  {
  }

  /** And the membership is the one last granted: that key, that role, stamped then. */
  lemma {:induction false} MembershipIsLastGrant(
    dbs: seq<Db>, writes: seq<Timed>, n: nat, c: Id, user: Id, k: nat)
    requires IsHistory(dbs, writes) && n < |dbs| && GrantedAt(dbs, writes, n, c, user, k)
    ensures (c, user) in dbs[n].members
    ensures dbs[n].members[(c, user)].sealedKey == KeySent(writes[k])
    ensures dbs[n].members[(c, user)].role == RoleGiven(dbs[k], writes[k])
    ensures dbs[n].members[(c, user)].grantedRevision == dbs[k].revision + 1
  {
    var t := OneThen(dbs, writes, n - 1);
    if k < n - 1 {
      GrantedBefore(dbs, writes, n, c, user, k);
      MembershipIsLastGrant(dbs, writes, n - 1, c, user, k);
      MemberStays(dbs[n - 1], t, c, user);
    } else {
      MemberStepped(dbs[n - 1], t, c, user);
    }
  }

  // ----- items

  /** The write stored something in row `i`. */
  predicate Stores(db: Db, t: Timed, i: Id) {
    && t.commits
    && match t.w
       case CreateItems(_, ids, inputs) => CanCreate(db, ids, inputs) && i in ids
       case PutItem(id, expected, input) => id == i && CanPut(db, id, expected, input)
       case DropItem(id) => id == i && CanDrop(db, id)
       case _ => false
  }

  /** The write took the row away without a trace. */
  predicate Removes(db: Db, t: Timed, i: Id) {
    && t.commits && i in db.items
    && match t.w
       case DropCollection(c) => c in db.collections && db.items[i].body.collection == Some(c)
       case Reset(user) => db.items[i].body.owner == user && db.items[i].body.collection == None
       case Purge(olderThan) => Overdue(db.items[i], olderThan, t.now)
       case _ => false
  }

  lemma {:induction false} ItemStored(db: Db, t: Timed, i: Id)
    requires WellFormed(t.w) && t.commits && (t.w.CreateItems? || t.w.PutItem? || t.w.DropItem?)
    ensures i in Then(db, t).items <==> Stores(db, t, i) || i in db.items
    ensures Stores(db, t, i) ==> Then(db, t).items[i].revision > db.revision
    ensures i in db.items && !Stores(db, t, i) ==> Then(db, t).items[i] == db.items[i]
    ensures i in db.items && Stores(db, t, i) ==> Then(db, t).items[i].body.owner == db.items[i].body.owner
  {
    match t.w
    case CreateItems(owner, ids, inputs) =>
      CreateEffect(db, owner, ids, inputs, t.now);
      if Stores(db, t, i) {
        var j :| 0 <= j < |ids| && ids[j] == i;
        assert StoredAs(Then(db, t).items, ids[j], owner, inputs[j], db.revision + 1 + j, t.now);
      }
    case PutItem(id, expected, input) => PutEffect(db, id, expected, input, t.now);
    case DropItem(id) => DropEffect(db, id, t.now);
  }

  lemma {:induction false} ItemRemoved(db: Db, t: Timed, i: Id)
    requires WellFormed(t.w) && t.commits && (t.w.DropCollection? || t.w.Reset? || t.w.Purge?)
    ensures i in Then(db, t).items <==> i in db.items && !Removes(db, t, i)
    ensures i in Then(db, t).items ==> Then(db, t).items[i] == db.items[i]
  {
    match t.w
    case DropCollection(c) => DropCollectionEffect(db, c);
    case Reset(user) => ResetEffect(db, user);
    case Purge(olderThan) => PurgeEffect(db, olderThan, t.now);
  }

  lemma {:induction false} ItemsAlone(db: Db, t: Timed)
    requires WellFormed(t.w)
    requires t.commits ==>
      t.w.NewFolder? || t.w.PutFolder? || t.w.DropFolder? || t.w.NewCollection? || t.w.Add? || t.w.Ask? || t.w.Fulfil?
      || t.w.Remove?
    ensures Then(db, t).items == db.items
  {
    if t.commits {
      match t.w
      case NewFolder(id, user, name) => NewFolderEffect(db, id, user, name, t.now);
      case PutFolder(id, expected, name) => PutFolderEffect(db, id, expected, name, t.now);
      case DropFolder(id) => DropFolderEffect(db, id, t.now);
      case NewCollection(id, name, creator, sealedKey) => FoundEffect(db, id, name, creator, sealedKey, t.now);
      case Add(c, who, sealedKey, role, actor) => AddEffect(db, c, who, sealedKey, role, actor, t.now);
      case Ask(c, who, role, actor) => AskEffect(db, c, who, role, actor, t.now);
      case Fulfil(c, who, sealedKey, actor) => FulfilEffect(db, c, who, sealedKey, actor, t.now);
      case Remove(c, who) => RemoveEffect(db, c, who);
    }
  }

  /** What one write does to one row. */
  lemma {:induction false} ItemStepped(db: Db, t: Timed, i: Id)
    requires WellFormed(t.w)
    ensures i in Then(db, t).items <==> Stores(db, t, i) || (i in db.items && !Removes(db, t, i))
    ensures Stores(db, t, i) ==> Then(db, t).items[i].revision > db.revision
    ensures i in Then(db, t).items && !Stores(db, t, i) ==> Then(db, t).items[i] == db.items[i]
    ensures i in db.items && Stores(db, t, i) ==> Then(db, t).items[i].body.owner == db.items[i].body.owner
  {
    if t.commits && (t.w.CreateItems? || t.w.PutItem? || t.w.DropItem?) {
      ItemStored(db, t, i);
    } else if t.commits && (t.w.DropCollection? || t.w.Reset? || t.w.Purge?) {
      ItemRemoved(db, t, i);
    } else {
      ItemsAlone(db, t);
    }
  }

  /** Write `k` was the last to store anything in the row, and none has removed it since. */
  ghost predicate StoredAt(dbs: seq<Db>, writes: seq<Timed>, n: nat, i: Id, k: nat)
    requires n <= |writes| < |dbs|
  {
    && k < n && Stores(dbs[k], writes[k], i)
    && forall j | k < j < n :: !Stores(dbs[j], writes[j], i) && !Removes(dbs[j], writes[j], i)
  }

  lemma {:induction false} StoredBefore(dbs: seq<Db>, writes: seq<Timed>, n: nat, i: Id, k: nat)
    requires n <= |writes| < |dbs| && k < n - 1 && StoredAt(dbs, writes, n, i, k)
    ensures StoredAt(dbs, writes, n - 1, i, k)
    ensures !Stores(dbs[n - 1], writes[n - 1], i) && !Removes(dbs[n - 1], writes[n - 1], i)
  {
  }

  /** A row stays what its last write made it, in every later snapshot. */
  lemma {:induction false} RowIsLastStored(dbs: seq<Db>, writes: seq<Timed>, n: nat, i: Id, k: nat)
    requires IsHistory(dbs, writes) && n < |dbs| && StoredAt(dbs, writes, n, i, k)
    ensures i in dbs[k + 1].items && i in dbs[n].items && dbs[n].items[i] == dbs[k + 1].items[i]
    ensures dbs[k].revision < dbs[n].items[i].revision
  {
    var t := OneThen(dbs, writes, n - 1);
    if k < n - 1 {
      StoredBefore(dbs, writes, n, i, k);
      RowIsLastStored(dbs, writes, n - 1, i, k);
      RowStays(dbs[n - 1], t, i);
    } else {
      RowNew(dbs[k], t, i);
    }
  }

  lemma {:induction false} RowStays(db: Db, t: Timed, i: Id)
    requires WellFormed(t.w) && i in db.items && !Stores(db, t, i) && !Removes(db, t, i)
    ensures i in Then(db, t).items && Then(db, t).items[i] == db.items[i]
  {
    ItemStepped(db, t, i);
  }

  lemma {:induction false} RowNew(db: Db, t: Timed, i: Id)
    requires WellFormed(t.w) && Stores(db, t, i)
    ensures i in Then(db, t).items && Then(db, t).items[i].revision > db.revision
  {
    ItemStepped(db, t, i);
  }

  /** The write made row `i` for `owner`. */
  predicate CreatesFor(db: Db, t: Timed, i: Id, owner: Id) {
    t.w.CreateItems? && t.w.owner == owner && i in t.w.ids && Stores(db, t, i)
  }

  /** Every row belongs to the user whose request made it, whoever has written it since. */
  lemma {:induction false} OwnerIsCreator(dbs: seq<Db>, writes: seq<Timed>, n: nat, i: Id) returns (k: nat)
    requires IsHistory(dbs, writes) && n < |dbs| && i in dbs[n].items
    ensures k < n && CreatesFor(dbs[k], writes[k], i, dbs[n].items[i].body.owner)
  {
    var db, t := dbs[n - 1], writes[n - 1];
    ItemStepped(db, t, i);
    assert dbs[(n - 1) + 1] == Then(db, t);
    if i in db.items {
      k := OwnerIsCreator(dbs, writes, n - 1, i);
    } else {
      k := n - 1;
      NewRowOwner(db, t, i);
    }
  }

  lemma {:induction false} NewRowOwner(db: Db, t: Timed, i: Id)
    requires WellFormed(t.w) && Stores(db, t, i) && i !in db.items
    ensures i in Then(db, t).items && CreatesFor(db, t, i, Then(db, t).items[i].body.owner)
  {
    var CreateItems(owner, ids, inputs) := t.w;
    CreateEffect(db, owner, ids, inputs, t.now);
    var j :| 0 <= j < |ids| && ids[j] == i;
    assert StoredAs(Then(db, t).items, ids[j], owner, inputs[j], db.revision + 1 + j, t.now);
  }

  // ----- what a sync sends

  /** The row is the user's own, or is in a collection the user is a member of. */
  ghost predicate MaySee(dbs: seq<Db>, writes: seq<Timed>, n: nat, user: Id, i: Id)
    requires n <= |writes| < |dbs|
  {
    && i in dbs[n].items
    && match dbs[n].items[i].body.collection
       case None => dbs[n].items[i].body.owner == user
       case Some(c) => IsMember(dbs, writes, n, c, user)
  }

  lemma {:induction false} RowsPositive(dbs: seq<Db>, writes: seq<Timed>, n: nat, i: Id)
    requires IsHistory(dbs, writes) && n < |dbs| && i in dbs[n].items
    ensures dbs[n].items[i].revision > 0
  {
    var t := OneThen(dbs, writes, n - 1);
    ItemStepped(dbs[n - 1], t, i);
    if !Stores(dbs[n - 1], writes[n - 1], i) {
      RowsPositive(dbs, writes, n - 1, i);
    }
  }

  /** A sync from the start sends a user exactly the rows that history lets the user see; the access check agrees. */
  lemma {:induction false} SentIffMaySee(dbs: seq<Db>, writes: seq<Timed>, n: nat, user: Id, i: Id)
    requires IsHistory(dbs, writes) && n < |dbs|
    ensures i in Sync.SyncSince(dbs[n], user, 0).items <==> MaySee(dbs, writes, n, user, i)
    ensures i in dbs[n].items ==> (Sync.Visible(dbs[n], user, dbs[n].items[i]) <==> MaySee(dbs, writes, n, user, i))
  {
    if i in dbs[n].items {
      RowsPositive(dbs, writes, n, i);
      if dbs[n].items[i].body.collection.Some? {
        MembersFromHistory(dbs, writes, n, dbs[n].items[i].body.collection.value, user);
      }
    }
  }

  /** From any cursor it sends nothing else, and each row as it is stored. */
  lemma {:induction false} NothingElseSent(dbs: seq<Db>, writes: seq<Timed>, n: nat, user: Id, since: int, i: Id)
    requires IsHistory(dbs, writes) && n < |dbs| && i in Sync.SyncSince(dbs[n], user, since).items
    ensures MaySee(dbs, writes, n, user, i) && Sync.SyncSince(dbs[n], user, since).items[i] == dbs[n].items[i]
  {
    SentIffMaySee(dbs, writes, n, user, i);
  }

  /** News reaches everyone concerned: a row stored at `k` is sent to whoever may see it, from any cursor before `k`. */
  lemma {:induction false} StoredIsSent(dbs: seq<Db>, writes: seq<Timed>, n: nat, user: Id, i: Id, k: nat, since: int)
    requires IsHistory(dbs, writes) && n < |dbs| && StoredAt(dbs, writes, n, i, k) && since <= dbs[k].revision
    requires MaySee(dbs, writes, n, user, i)
    ensures i in Sync.SyncSince(dbs[n], user, since).items
  {
    RowIsLastStored(dbs, writes, n, i, k);
    SentIffMaySee(dbs, writes, n, user, i);
  }

  /** So is every row of a collection granted at `k`, however old. */
  lemma {:induction false} GrantedIsSent(
    dbs: seq<Db>, writes: seq<Timed>, n: nat, user: Id, i: Id, c: Id, k: nat, since: int)
    requires IsHistory(dbs, writes) && n < |dbs| && GrantedAt(dbs, writes, n, c, user, k) && since <= dbs[k].revision
    requires i in dbs[n].items && dbs[n].items[i].body.collection == Some(c)
    ensures i in Sync.SyncSince(dbs[n], user, since).items
  {
    MembershipIsLastGrant(dbs, writes, n, c, user, k);
  }

  /** The memberships sent are the user's own, in collections that exist, under the key last sealed for the user. */
  lemma {:induction false} CollectionsFromHistory(dbs: seq<Db>, writes: seq<Timed>, n: nat, user: Id, since: int, c: Id)
    requires IsHistory(dbs, writes) && n < |dbs|
    ensures c in Sync.SyncSince(dbs[n], user, since).collections
            <==> c in dbs[n].collections && IsMember(dbs, writes, n, c, user)
    ensures forall k: nat | GrantedAt(dbs, writes, n, c, user, k) && c in dbs[n].collections ::
      var m := Sync.SyncSince(dbs[n], user, since).collections[c];
      m.sealedKey == KeySent(writes[k]) && m.role == RoleGiven(dbs[k], writes[k])
  {
    MembersFromHistory(dbs, writes, n, c, user);
    forall k: nat | GrantedAt(dbs, writes, n, c, user, k) && c in dbs[n].collections
      ensures var m := Sync.SyncSince(dbs[n], user, since).collections[c];
              m.sealedKey == KeySent(writes[k]) && m.role == RoleGiven(dbs[k], writes[k])
    {
      MembershipIsLastGrant(dbs, writes, n, c, user, k);
    }
  }

  // ----- what is sent is what was uploaded

  /** What write `k` uploaded for row `i`, for the writes that upload one. */
  predicate Uploaded(t: Timed, i: Id, input: ItemInput)
    requires WellFormed(t.w)
  {
    match t.w
    case CreateItems(_, ids, inputs) => exists j :: 0 <= j < |ids| && ids[j] == i && inputs[j] == input
    case PutItem(id, _, what) => id == i && what == input
    case _ => false
  }

  lemma {:induction false} UploadedIsStored(db: Db, t: Timed, i: Id, input: ItemInput)
    requires WellFormed(t.w) && Stores(db, t, i) && Uploaded(t, i, input)
    ensures i in Then(db, t).items && Then(db, t).items[i].deletedAt.None?
    ensures Then(db, t).items[i].body.ciphertext == input.ciphertext
    ensures Then(db, t).items[i].body.wrappedKey == input.wrappedKey
    ensures input.target.In? ==> Then(db, t).items[i].body.collection == Some(input.target.id)
    ensures input.target.Unsaid? ==>
      Then(db, t).items[i].body.collection == if i in db.items then db.items[i].body.collection else None
  {
    match t.w
    case CreateItems(owner, ids, inputs) =>
      CreateEffect(db, owner, ids, inputs, t.now);
      var j :| 0 <= j < |ids| && ids[j] == i && inputs[j] == input;
      assert StoredAs(Then(db, t).items, ids[j], owner, inputs[j], db.revision + 1 + j, t.now);
    case PutItem(id, expected, what) => PutEffect(db, id, expected, what, t.now);
  }

  /**
   Until a row is written or removed again, a load by anyone who may see it shows the ciphertext and the key that its
   last writer uploaded.
   */
  lemma {:induction false} LoadShowsUpload(
    dbs: seq<Db>, writes: seq<Timed>, n: nat, user: Id, i: Id, k: nat, input: ItemInput)
    requires IsHistory(dbs, writes) && n < |dbs| && StoredAt(dbs, writes, n, i, k) && Uploaded(writes[k], i, input)
    requires MaySee(dbs, writes, n, user, i)
    ensures var shown := Sync.Landed(Sync.EMPTY_CLIENT, true, Sync.SyncSince(dbs[n], user, 0)).items;
            i in shown && shown[i].body.ciphertext == input.ciphertext && shown[i].body.wrappedKey == input.wrappedKey
  {
    RowIsLastStored(dbs, writes, n, i, k);
    UploadedIsStored(dbs[k], writes[k], i, input);
    assert dbs[k + 1] == Then(dbs[k], writes[k]);
    SentIffMaySee(dbs, writes, n, user, i);
  }

  // ----- folders

  /** The name the write stored in folder `f`, none being the name of a tombstone. */
  predicate Names(db: Db, t: Timed, f: Id, name: Blob) {
    && t.commits
    && match t.w
       case NewFolder(id, _, given) => id == f && given == name && name != [] && f !in db.folders
       case PutFolder(id, expected, given) =>
         && id == f && given == name && name != []
         && f in db.folders && db.folders[f].deletedAt.None? && db.folders[f].revision == expected
       case DropFolder(id) => id == f && name == [] && f in db.folders && db.folders[f].deletedAt.None?
       case _ => false
  }

  ghost predicate StoresFolder(db: Db, t: Timed, f: Id) {
    exists name :: Names(db, t, f, name)
  }

  predicate RemovesFolder(db: Db, t: Timed, f: Id) {
    && t.commits && f in db.folders
    && match t.w
       case Reset(user) => db.folders[f].body.user == user
       case Purge(olderThan) => Overdue(db.folders[f], olderThan, t.now)
       case _ => false
  }

  lemma {:induction false} FoldersAlone(db: Db, t: Timed)
    requires WellFormed(t.w)
    requires t.commits ==>
      t.w.CreateItems? || t.w.PutItem? || t.w.DropItem? || t.w.NewCollection? || t.w.Add? || t.w.Ask? || t.w.Fulfil?
      || t.w.Remove? || t.w.DropCollection?
    ensures Then(db, t).folders == db.folders
  {
    if t.commits {
      match t.w
      case CreateItems(owner, ids, inputs) => CreateEffect(db, owner, ids, inputs, t.now);
      case PutItem(id, expected, input) => PutEffect(db, id, expected, input, t.now);
      case DropItem(id) => DropEffect(db, id, t.now);
      case NewCollection(id, name, creator, sealedKey) => FoundEffect(db, id, name, creator, sealedKey, t.now);
      case Add(c, who, sealedKey, role, actor) => AddEffect(db, c, who, sealedKey, role, actor, t.now);
      case Ask(c, who, role, actor) => AskEffect(db, c, who, role, actor, t.now);
      case Fulfil(c, who, sealedKey, actor) => FulfilEffect(db, c, who, sealedKey, actor, t.now);
      case Remove(c, who) => RemoveEffect(db, c, who);
      case DropCollection(c) => DropCollectionEffect(db, c);
    }
  }

  lemma {:induction false} FolderNamed(db: Db, t: Timed, f: Id)
    requires WellFormed(t.w) && t.commits && (t.w.NewFolder? || t.w.PutFolder? || t.w.DropFolder?)
    ensures f in Then(db, t).folders <==> StoresFolder(db, t, f) || f in db.folders
    ensures forall name | Names(db, t, f, name) ::
      Then(db, t).folders[f].body.encryptedName == name && Then(db, t).folders[f].revision > db.revision
    ensures f in db.folders && !StoresFolder(db, t, f) ==> Then(db, t).folders[f] == db.folders[f]
    ensures f in db.folders ==> Then(db, t).folders[f].body.user == db.folders[f].body.user
    ensures f !in db.folders && StoresFolder(db, t, f) ==>
      t.w.NewFolder? && Then(db, t).folders[f].body.user == t.w.user
  {
    match t.w
    case NewFolder(id, user, name) =>
      NewFolderEffect(db, id, user, name, t.now);
      assert Names(db, t, id, name) <==> name != [] && id !in db.folders;
    case PutFolder(id, expected, name) =>
      PutFolderEffect(db, id, expected, name, t.now);
      assert Names(db, t, id, name) <==> name != [] && id in db.folders && db.folders[id].deletedAt.None?
                                         && db.folders[id].revision == expected;
    case DropFolder(id) =>
      DropFolderEffect(db, id, t.now);
      assert Names(db, t, id, []) <==> id in db.folders && db.folders[id].deletedAt.None?;
  }

  lemma {:induction false} FolderRemoved(db: Db, t: Timed, f: Id)
    requires WellFormed(t.w) && t.commits && (t.w.Reset? || t.w.Purge?)
    ensures f in Then(db, t).folders <==> f in db.folders && !RemovesFolder(db, t, f)
    ensures f in Then(db, t).folders ==> Then(db, t).folders[f] == db.folders[f]
  {
    match t.w
    case Reset(user) => ResetEffect(db, user);
    case Purge(olderThan) => PurgeEffect(db, olderThan, t.now);
  }

  /** What one write does to one folder. */
  lemma {:induction false} FolderStepped(db: Db, t: Timed, f: Id)
    requires WellFormed(t.w)
    ensures f in Then(db, t).folders <==> StoresFolder(db, t, f) || (f in db.folders && !RemovesFolder(db, t, f))
    ensures forall name | Names(db, t, f, name) ::
      Then(db, t).folders[f].body.encryptedName == name && Then(db, t).folders[f].revision > db.revision
    ensures f in Then(db, t).folders && !StoresFolder(db, t, f) ==> Then(db, t).folders[f] == db.folders[f]
    ensures f in db.folders && f in Then(db, t).folders ==>
      Then(db, t).folders[f].body.user == db.folders[f].body.user
    ensures f !in db.folders && StoresFolder(db, t, f) ==>
      t.w.NewFolder? && Then(db, t).folders[f].body.user == t.w.user
  {
    if t.commits && (t.w.NewFolder? || t.w.PutFolder? || t.w.DropFolder?) {
      FolderNamed(db, t, f);
    } else if t.commits && (t.w.Reset? || t.w.Purge?) {
      FolderRemoved(db, t, f);
    } else {
      FoldersAlone(db, t);
    }
  }

  /** Write `k` was the last to name the folder, and none has removed it since. */
  ghost predicate NamedAt(dbs: seq<Db>, writes: seq<Timed>, n: nat, f: Id, k: nat, name: Blob)
    requires n <= |writes| < |dbs|
  {
    && k < n && Names(dbs[k], writes[k], f, name)
    && forall j | k < j < n :: !StoresFolder(dbs[j], writes[j], f) && !RemovesFolder(dbs[j], writes[j], f)
  }

  lemma {:induction false} NamedBefore(dbs: seq<Db>, writes: seq<Timed>, n: nat, f: Id, k: nat, name: Blob)
    requires n <= |writes| < |dbs| && k < n - 1 && NamedAt(dbs, writes, n, f, k, name)
    ensures NamedAt(dbs, writes, n - 1, f, k, name)
    ensures !StoresFolder(dbs[n - 1], writes[n - 1], f) && !RemovesFolder(dbs[n - 1], writes[n - 1], f)
  {
  }

  lemma {:induction false} FolderIsLastNamed(dbs: seq<Db>, writes: seq<Timed>, n: nat, f: Id, k: nat, name: Blob)
    requires IsHistory(dbs, writes) && n < |dbs| && NamedAt(dbs, writes, n, f, k, name)
    ensures f in dbs[n].folders && dbs[n].folders[f].body.encryptedName == name
    ensures dbs[n].folders[f].revision > dbs[k].revision
  {
    var t := OneThen(dbs, writes, n - 1);
    if k < n - 1 {
      NamedBefore(dbs, writes, n, f, k, name);
      FolderIsLastNamed(dbs, writes, n - 1, f, k, name);
      FolderStays(dbs[n - 1], t, f);
    } else {
      FolderNew(dbs[k], t, f, name);
    }
  }

  lemma {:induction false} FolderStays(db: Db, t: Timed, f: Id)
    requires WellFormed(t.w) && f in db.folders && !StoresFolder(db, t, f) && !RemovesFolder(db, t, f)
    ensures f in Then(db, t).folders && Then(db, t).folders[f] == db.folders[f]
  {
    FolderStepped(db, t, f);
  }

  lemma {:induction false} FolderNew(db: Db, t: Timed, f: Id, name: Blob)
    requires WellFormed(t.w) && Names(db, t, f, name)
    ensures f in Then(db, t).folders && Then(db, t).folders[f].body.encryptedName == name
    ensures Then(db, t).folders[f].revision > db.revision
  {
    FolderStepped(db, t, f);
  }

  /** A folder is the user's who made it; a sync sends it to that user and to no one else. */
  lemma {:induction false} FolderSentToItsMaker(dbs: seq<Db>, writes: seq<Timed>, n: nat, f: Id) returns (k: nat)
    requires IsHistory(dbs, writes) && n < |dbs| && f in dbs[n].folders
    ensures k < n && writes[k].commits && writes[k].w.NewFolder? && writes[k].w.id == f
    ensures dbs[n].folders[f].body.user == writes[k].w.user && dbs[n].folders[f].revision > 0
    ensures forall user :: f in Sync.SyncSince(dbs[n], user, 0).folders <==> user == writes[k].w.user
    ensures forall user, since: int | f in Sync.SyncSince(dbs[n], user, since).folders :: user == writes[k].w.user
  {
    var t := OneThen(dbs, writes, n - 1);
    FolderStepped(dbs[n - 1], t, f);
    if f in dbs[n - 1].folders {
      k := FolderSentToItsMaker(dbs, writes, n - 1, f);
    } else {
      k := n - 1;
    }
  }

  /** A folder's maker is sent its last name, from any cursor before it was given. */
  lemma {:induction false} NameIsSent(
    dbs: seq<Db>, writes: seq<Timed>, n: nat, f: Id, k: nat, name: Blob, user: Id, since: int)
    requires IsHistory(dbs, writes) && n < |dbs| && NamedAt(dbs, writes, n, f, k, name) && since <= dbs[k].revision
    requires f in dbs[n].folders && dbs[n].folders[f].body.user == user
    ensures f in Sync.SyncSince(dbs[n], user, since).folders
    ensures Sync.SyncSince(dbs[n], user, since).folders[f].body.encryptedName == name
  {
    FolderIsLastNamed(dbs, writes, n, f, k, name);
  }
}
