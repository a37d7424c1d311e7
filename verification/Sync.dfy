/**
 Incremental sync: what one user may see, what SyncSince sends for a cursor (internal/store/sync.go), and
 how a client folds the answer into what it holds (packages/vault/src/store.ts). The two meet in `Agrees`:
 every row stamped past the floor and up to the cursor is held exactly as stored, or absent if it is a tombstone. The
 floor is 0 unless an answer was folded into a store that had been cleared since it was asked for.
 */
module Sync {
  import opened Options
  import opened Tables
  import opened Writes

  // ----- the server's answer

  /** visibleItemsClause: personal items of the user, and every item of a collection they belong to. */
  predicate Visible(db: Db, user: Id, item: Item) {
    match item.body.collection
    case None => item.body.owner == user
    case Some(c) => (c, user) in db.members
  }

  /** changedSinceClause: a newer revision, or a membership granted after the cursor. */
  predicate ChangedSince(db: Db, user: Id, item: Item, since: int) {
    || item.revision > since
    || (&& item.body.collection.Some?
        && (item.body.collection.value, user) in db.members
        && db.members[(item.body.collection.value, user)].grantedRevision > since)
  }

  datatype Delta = Delta(
    revision: nat,
    items: map<Id, Item>,
    folders: map<Id, Folder>,
    collections: map<Id, Membership>)

  function SyncSince(db: Db, user: Id, since: int): Delta {
    Delta(db.revision,
          map i | i in db.items && ChangedSince(db, user, db.items[i], since) && Visible(db, user, db.items[i]) ::
              db.items[i],
          map f | f in db.folders && db.folders[f].revision > since && db.folders[f].body.user == user :: db.folders[f],
          CollectionsFor(db, user))
  }

  function CollectionsFor(db: Db, user: Id): map<Id, Membership> {
    map c | c in db.collections && (c, user) in db.members :: db.members[(c, user)]
  }

  // ----- the client

  /** The rows a client holds; `cursor` is the revision it will sync from next. */
  datatype Client = Client(
    cursor: nat,
    items: map<Id, Item>,
    folders: map<Id, Folder>,
    collections: map<Id, Membership>)

  const EMPTY_CLIENT: Client := Client(0, map[], map[], map[])

  /** merge: an incoming tombstone removes its row, an incoming live row replaces it, the rest stay. */
  function Merged<B>(held: map<Id, Row<B>>, delta: map<Id, Row<B>>): map<Id, Row<B>> {
    map i | i in held.Keys + delta.Keys && (i in delta ==> delta[i].Live()) :: if i in delta then delta[i] else held[i]
  }

  /** fetchInto: a full load starts from nothing, a resync from what is held. */
  function Landed(client: Client, full: bool, delta: Delta): Client {
    Client(delta.revision,
           Merged(if full then map[] else client.items, delta.items),
           Merged(if full then map[] else client.folders, delta.folders),
           delta.collections)
  }

  function Since(client: Client, full: bool): nat {
    if full then 0 else client.cursor
  }

  // ----- views: items and folders seen as one kind of stamped row

  /** `grant` is the revision of the membership a shared row is seen through, 0 otherwise. */
  datatype Entry<+B> = Entry(row: Row<B>, grant: nat)
  {
    function Stamp(): nat {
      if grant > row.revision then grant else row.revision
    }
  }

  function GrantOf(db: Db, user: Id, item: Item): nat {
    if item.body.collection.Some? && (item.body.collection.value, user) in db.members
    then db.members[(item.body.collection.value, user)].grantedRevision else 0
  }

  function ItemView(db: Db, user: Id): map<Id, Entry<ItemBody>> {
    map i | i in db.items && Visible(db, user, db.items[i]) :: Entry(db.items[i], GrantOf(db, user, db.items[i]))
  }

  function FolderView(db: Db, user: Id): map<Id, Entry<FolderBody>> {
    map f | f in db.folders && db.folders[f].body.user == user :: Entry(db.folders[f], 0)
  }

  function Newer<B>(view: map<Id, Entry<B>>, since: int): map<Id, Row<B>> {
    map i | i in view && view[i].Stamp() > since :: view[i].row
  }

  function LiveRows<B>(view: map<Id, Entry<B>>): map<Id, Row<B>> {
    map i | i in view && view[i].row.Live() :: view[i].row
  }

  lemma {:induction false} ItemSentIff(db: Db, user: Id, since: nat, i: Id)
    ensures i in SyncSince(db, user, since).items <==> i in Newer(ItemView(db, user), since)
    ensures i in SyncSince(db, user, since).items
            ==> SyncSince(db, user, since).items[i] == Newer(ItemView(db, user), since)[i]
  {
    if i in db.items && Visible(db, user, db.items[i]) {
      assert ItemView(db, user)[i] == Entry(db.items[i], GrantOf(db, user, db.items[i]));
    }
  }

  lemma {:induction false} FolderSentIff(db: Db, user: Id, since: nat, f: Id)
    ensures f in SyncSince(db, user, since).folders <==> f in Newer(FolderView(db, user), since)
    ensures f in SyncSince(db, user, since).folders
            ==> SyncSince(db, user, since).folders[f] == Newer(FolderView(db, user), since)[f]
  {
    if f in db.folders && db.folders[f].body.user == user {
      assert FolderView(db, user)[f] == Entry(db.folders[f], 0);
    }
  }

  /** The two SQL clauses together select exactly the rows of the view stamped after the cursor. */
  lemma {:induction false} SyncSendsNewer(db: Db, user: Id, since: nat)
    ensures SyncSince(db, user, since).items == Newer(ItemView(db, user), since)
    ensures SyncSince(db, user, since).folders == Newer(FolderView(db, user), since)
  {
    var sent, newer := SyncSince(db, user, since).items, Newer(ItemView(db, user), since);
    forall i
      ensures (i in sent <==> i in newer) && (i in sent ==> sent[i] == newer[i])
    {
      ItemSentIff(db, user, since, i);
    }
    FoldersSent(db, user, since);
  }

  lemma {:induction false} FoldersSent(db: Db, user: Id, since: nat)
    ensures SyncSince(db, user, since).folders == Newer(FolderView(db, user), since)
  {
    var sent, newer := SyncSince(db, user, since).folders, Newer(FolderView(db, user), since);
    forall f
      ensures (f in sent <==> f in newer) && (f in sent ==> sent[f] == newer[f])
    {
      FolderSentIff(db, user, since, f);
    }
  }

  // ----- agreement

  ghost predicate Agrees<B(!new)>(view: map<Id, Entry<B>>, held: map<Id, Row<B>>, floor: int, cursor: int) {
    forall i | i in view && view[i].Stamp() <= cursor ::
      if view[i].Stamp() > floor && view[i].row.Live() then i in held && held[i] == view[i].row else i !in held
  }

  /** No live row of the view is stamped at or below the floor. */
  ghost predicate NoneBelow<B(!new)>(view: map<Id, Entry<B>>, floor: int) {
    forall i | i in view && view[i].row.Live() :: view[i].Stamp() > floor
  }

  /** Rows of the new view are unchanged entries, or stamped after `rev`. */
  ghost predicate ViewStep<B(!new)>(before: map<Id, Entry<B>>, after: map<Id, Entry<B>>, rev: nat) {
    forall i | i in after :: (i in before && before[i] == after[i]) || after[i].Stamp() > rev
  }

  /** Whatever the writers do, no row slips under a cursor that the sequence had already passed. */
  lemma {:induction false} WritesStepViews(db: Db, db': Db, now: int, user: Id)
    requires DbStep(db, db', now)
    ensures ViewStep(ItemView(db, user), ItemView(db', user), db.revision)
    ensures ViewStep(FolderView(db, user), FolderView(db', user), db.revision)
  {
    forall i | i in ItemView(db', user)
      ensures (i in ItemView(db, user) && ItemView(db, user)[i] == ItemView(db', user)[i])
              || ItemView(db', user)[i].Stamp() > db.revision
    {
      assert RowStep(db.items, i, db'.items[i], db.revision, db'.revision, now);
      var item := db'.items[i];
      if item.body.collection.Some? {
        var k := (item.body.collection.value, user);
        assert k in db'.members;
      }
    }
    forall f | f in FolderView(db', user)
      ensures (f in FolderView(db, user) && FolderView(db, user)[f] == FolderView(db', user)[f])
              || FolderView(db', user)[f].Stamp() > db.revision
    {
      assert RowStep(db.folders, f, db'.folders[f], db.revision, db'.revision, now);
    }
  }

  lemma {:induction false} AgreesAfterStep<B(!new)>(
    before: map<Id, Entry<B>>, after: map<Id, Entry<B>>, rev: nat, held: map<Id, Row<B>>, floor: int, cursor: nat)
    requires Agrees(before, held, floor, cursor) && ViewStep(before, after, rev) && cursor <= rev
    ensures Agrees(after, held, floor, cursor)
  {
    forall i | i in after && after[i].Stamp() <= cursor
      ensures if after[i].Stamp() > floor && after[i].row.Live() then i in held && held[i] == after[i].row
              else i !in held
    {
      assert i in before && before[i] == after[i];
    }
  }

  /** Folding in what is newer than the cursor brings the agreement up to every stamp; the floor stays. */
  lemma {:induction false} AgreesAfterMerge<B(!new)>(
    view: map<Id, Entry<B>>, held: map<Id, Row<B>>, floor: int, cursor: int, next: int)
    requires Agrees(view, held, floor, cursor) && floor <= cursor
    ensures Agrees(view, Merged(held, Newer(view, cursor)), floor, next)
  {
    var merged := Merged(held, Newer(view, cursor));
    forall i | i in view
      ensures if view[i].Stamp() > floor && view[i].row.Live() then i in merged && merged[i] == view[i].row
              else i !in merged
    {
      assert i in Newer(view, cursor) <==> view[i].Stamp() > cursor;
    }
  }

  /** Folding in a sync shows nothing that is not there, as long as every held row is still in sight. */
  lemma {:induction false} MergeWithin<B(!new)>(
    view: map<Id, Entry<B>>, held: map<Id, Row<B>>, floor: int, cursor: int, i: Id)
    requires Agrees(view, held, floor, cursor) && floor <= cursor
    requires i in Merged(held, Newer(view, cursor)) && (i in held ==> i in view)
    ensures i in LiveRows(view) && Merged(held, Newer(view, cursor))[i] == LiveRows(view)[i]
  {
    assert i in Newer(view, cursor) <==> i in view && view[i].Stamp() > cursor;
  }

  /** It yields exactly the live rows if and only if also none of those is stamped at or below the floor. */
  lemma {:induction false} MergeExactIff<B(!new)>(
    view: map<Id, Entry<B>>, held: map<Id, Row<B>>, floor: int, cursor: int)
    requires Agrees(view, held, floor, cursor) && floor <= cursor
    ensures Merged(held, Newer(view, cursor)) == LiveRows(view) <==> held.Keys <= view.Keys && NoneBelow(view, floor)
  {
    var merged := Merged(held, Newer(view, cursor));
    AgreesEverywhere(view, held, floor, cursor);
    if held.Keys <= view.Keys && NoneBelow(view, floor) {
      forall i | i in merged
        ensures i in LiveRows(view) && merged[i] == LiveRows(view)[i]
      {
        MergeWithin(view, held, floor, cursor, i);
      }
      assert merged == LiveRows(view);
    } else if !(held.Keys <= view.Keys) {
      var i :| i in held && i !in view;
      assert i in merged && i !in LiveRows(view);
    } else {
      var i :| i in view && view[i].row.Live() && view[i].Stamp() <= floor;
      assert i !in merged && i in LiveRows(view);
    }
  }

  lemma {:induction false} AgreesEverywhere<B(!new)>(
    view: map<Id, Entry<B>>, held: map<Id, Row<B>>, floor: int, cursor: int)
    requires Agrees(view, held, floor, cursor) && floor <= cursor
    ensures var merged := Merged(held, Newer(view, cursor));
            forall i | i in view ::
              if view[i].Stamp() > floor && view[i].row.Live() then i in merged && merged[i] == view[i].row
              else i !in merged
  {
    forall i | i in view
      ensures var merged := Merged(held, Newer(view, cursor));
              if view[i].Stamp() > floor && view[i].row.Live() then i in merged && merged[i] == view[i].row
              else i !in merged
    {
      AgreesAfterMerge(view, held, floor, cursor, view[i].Stamp());
    }
  }

  /** Two floors differ exactly in the live rows between them. */
  lemma {:induction false} AgreesAboveZeroIff<B(!new)>(
    view: map<Id, Entry<B>>, held: map<Id, Row<B>>, floor: int, cursor: int)
    requires Agrees(view, held, floor, cursor) && 0 <= floor <= cursor && NoneBelow(view, 0)
    ensures Agrees(view, held, 0, cursor) <==> NoneBelow(view, floor)
  {
    forall i | Agrees(view, held, 0, cursor) && i in view && view[i].row.Live()
      ensures view[i].Stamp() > floor
    {
    }
  }
}
