/**
 The client's in-memory vault (packages/vault/src/store.ts): a record list merged in a loop, and the
 actions that replace the state. Records stand for the opaque row they were decrypted from.
 */
module VaultStore {
  import opened Options
  import opened Tables
  import Store
  import Sync
  import SyncRuns

  /** What the loop has done to the held rows after the batch `rows`. */
  function Folded<B>(held: map<Id, Row<B>>, rows: seq<(Id, Row<B>)>): map<Id, Row<B>> {
    if rows == [] then held
    else
      var (id, record) := rows[|rows| - 1];
      var before := Folded(held, rows[..|rows| - 1]);
      if record.Live() then before[id := record] else before - {id}
  }

  lemma {:induction false} FoldedAt<B>(held: map<Id, Row<B>>, rows: seq<(Id, Row<B>)>, i: Id)
    requires forall j, k | 0 <= j < k < |rows| :: rows[j].0 != rows[k].0
    ensures var folded := Folded(held, rows);
            && ((forall k | 0 <= k < |rows| :: rows[k].0 != i) ==>
                  (i in folded <==> i in held) && (i in folded ==> folded[i] == held[i]))
            && (forall k | 0 <= k < |rows| && rows[k].0 == i ::
                  (i in folded <==> rows[k].1.Live()) && (i in folded ==> folded[i] == rows[k].1))
  {
    if rows != [] {
      FoldedAt(held, rows[..|rows| - 1], i);
    }
  }

  lemma {:induction false} FoldedIsMerged<B>(held: map<Id, Row<B>>, rows: seq<(Id, Row<B>)>, delta: map<Id, Row<B>>)
    requires Store.Lists(rows, delta)
    ensures Folded(held, rows) == Sync.Merged(held, delta)
  {
    var folded, merged := Folded(held, rows), Sync.Merged(held, delta);
    forall i
      ensures (i in folded <==> i in merged) && (i in folded ==> folded[i] == merged[i])
    {
      FoldedAt(held, rows, i);
      if i in delta {
        assert (i, delta[i]) in rows;
      }
    }
  }

  lemma {:induction false} FoldedOne<B>(held: map<Id, Row<B>>, rows: seq<(Id, Row<B>)>, n: nat)
    requires n < |rows|
    ensures var before := Folded(held, rows[..n]);
            Folded(held, rows[..n + 1]) == if rows[n].1.Live() then before[rows[n].0 := rows[n].1]
                else before - {rows[n].0}
  {
    assert rows[..n + 1][..n] == rows[..n];
  }

  /** The loop over an incoming batch; a batch that lists `delta` leaves Merged(held, delta). */
  method Merge<B>(held: map<Id, Row<B>>, incoming: seq<(Id, Row<B>)>, ghost delta: map<Id, Row<B>>)
    returns (byId: map<Id, Row<B>>)
    requires Store.Lists(incoming, delta)
    ensures byId == Sync.Merged(held, delta)
  {
    byId := held;
    for n := 0 to |incoming|
      invariant byId == Folded(held, incoming[..n])
    {
      var (id, record) := incoming[n];
      FoldedOne(held, incoming, n);
      if record.deletedAt.Some? {
        byId := byId - {id};
      } else {
        byId := byId[id := record];
      }
    }
    assert incoming[..|incoming|] == incoming;
    FoldedIsMerged(held, incoming, delta);
  }

  datatype Status = Empty | Loading | Ready | Failed

  class VaultStore {
    var revision: nat
    var items: map<Id, Item>
    var folders: map<Id, Folder>
    var collections: map<Id, Membership>
    var status: Status

    function Held(): Sync.Client
      reads this
    {
      Sync.Client(revision, items, folders, collections)
    }

    constructor ()
      ensures Held() == Sync.EMPTY_CLIENT && status == Empty
    {
      revision, items, folders, collections, status := 0, map[], map[], map[], Empty;
    }

    /** fetchInto after the answer arrived: rows merged, memberships replaced, cursor moved. */
    method Apply(
      full: bool, cursor: nat, itemRows: seq<(Id, Item)>, folderRows: seq<(Id, Folder)>, joined: map<Id, Membership>,
      ghost delta: Sync.Delta)
      requires Store.Lists(itemRows, delta.items) && Store.Lists(folderRows, delta.folders)
      requires cursor == delta.revision && joined == delta.collections
      modifies this
      ensures Held() == Sync.Landed(old(Held()), full, delta) && status == Ready
    {
      var nextItems := Merge(if full then map[] else items, itemRows, delta.items);
      var nextFolders := Merge(if full then map[] else folders, folderRows, delta.folders);
      revision, items, folders, collections, status := cursor, nextItems, nextFolders, joined, Ready;
    }

    method Fail()
      modifies this
      ensures Held() == old(Held()) && status == Failed
    {
      status := Failed;
    }

    method Upsert(id: Id, record: Item)
      modifies this
      ensures Held() == SyncRuns.Delivered(old(Held()), SyncRuns.Saved(id, record)) && status == Ready
    {
      assert Store.Lists([(id, record)], map[id := record]);
      items := Merge(items, [(id, record)], map[id := record]);
      status := Ready;
    }

    method Remove(id: Id)
      modifies this
      ensures Held() == SyncRuns.Delivered(old(Held()), SyncRuns.Dropped(id)) && status == old(status)
    {
      items := map i | i in items && i != id :: items[i];
    }

    method Clear()
      modifies this
      ensures Held() == Sync.EMPTY_CLIENT && status == Empty
    {
      revision, items, folders, collections, status := 0, map[], map[], map[], Empty;
    }
  }

  /** One round trip between the two stores is one step of the abstract protocol. */
  method Resync(server: Store.VaultDatabase, client: VaultStore, user: Id)
    modifies client
    ensures client.Held() == Sync.Landed(old(client.Held()), false,
            Sync.SyncSince(server.Snapshot(), user, old(client.revision)))
  {
    var cursor, itemRows, folderRows, joined := server.SyncSince(user, client.revision);
    client.Apply(false, cursor, itemRows, folderRows, joined, Sync.SyncSince(server.Snapshot(), user, client.revision));
  }
}
