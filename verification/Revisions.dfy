/**
 The revision sequence as a ledger: across any run of writes, each value of the sequence is drawn by
 exactly one row, in order, and none is drawn by a write that failed (internal/store/revision.go).
 */
module Revisions {
  import opened Tables
  import opened Writes

  datatype Slot = ItemSlot(id: Id) | FolderSlot(id: Id) | MemberSlot(collection: Id, user: Id)

  /** The revision a row carries; 0 when there is no such row. */
  function StampAt(db: Db, s: Slot): nat {
    match s
    case ItemSlot(id) => if id in db.items then db.items[id].revision else 0
    case FolderSlot(id) => if id in db.folders then db.folders[id].revision else 0
    case MemberSlot(c, u) => if (c, u) in db.members then db.members[(c, u)].grantedRevision else 0
  }

  /** The write from `db` to `db'` gave value `v` to slot `s`. */
  predicate Draws(db: Db, db': Db, s: Slot, v: nat) {
    StampAt(db', s) == v && db.revision < v <= db'.revision
  }

  ghost predicate Drawn(db: Db, db': Db, v: nat) {
    exists s :: Draws(db, db', s, v)
  }

  /** Between the two snapshots the row was left alone, or removed. */
  predicate KeptOrGone(db: Db, db': Db, s: Slot) {
    StampAt(db', s) == StampAt(db, s) || StampAt(db', s) == 0
  }

  /** Every value the sequence advanced over went to one row and one only. */
  ghost predicate Ledger(db: Db, db': Db) {
    && db.revision <= db'.revision
    && (forall v: nat | db.revision < v <= db'.revision :: Drawn(db, db', v))
    && (forall s, t, v: nat | Draws(db, db', s, v) && Draws(db, db', t, v) :: s == t)
    && (forall s :: KeptOrGone(db, db', s) || Draws(db, db', s, StampAt(db', s)))
  }

  /** No row carries a value the sequence has not reached. */
  ghost predicate Bounded(db: Db) {
    forall s :: StampAt(db, s) <= db.revision
  }

  lemma {:induction false} OneDraw(db: Db, db': Db, s: Slot)
    requires Bounded(db) && db'.revision == db.revision + 1 && StampAt(db', s) == db.revision + 1
    requires forall t :: t != s ==> KeptOrGone(db, db', t)
    ensures Ledger(db, db')
  {
    assert Draws(db, db', s, db.revision + 1);
    forall t, v: nat | Draws(db, db', t, v)
      ensures t == s
    {
      assert StampAt(db, t) <= db.revision;
      assert t != s ==> KeptOrGone(db, db', t);
    }
  }

  lemma {:induction false} NoDraw(db: Db, db': Db)
    requires Bounded(db) && db'.revision == db.revision
    requires forall t :: KeptOrGone(db, db', t)
    ensures Ledger(db, db')
  {
  }

  lemma {:induction false} LedgerKeepsBounded(db: Db, db': Db)
    requires Bounded(db) && Ledger(db, db')
    ensures Bounded(db')
  {
    forall s ensures StampAt(db', s) <= db'.revision {
      assert StampAt(db, s) <= db.revision;
      assert KeptOrGone(db, db', s) || Draws(db, db', s, StampAt(db', s));
    }
  }

  lemma {:induction false} LedgerChains(a: Db, b: Db, c: Db)
    requires Bounded(a) && Ledger(a, b) && Ledger(b, c)
    requires forall s, v: nat :: Draws(a, b, s, v) ==> StampAt(c, s) == v
    ensures Ledger(a, c)
  {
    LedgerKeepsBounded(a, b);
    forall v: nat | a.revision < v <= c.revision
      ensures Drawn(a, c, v)
    {
      if v <= b.revision {
        assert Drawn(a, b, v);
        var s :| Draws(a, b, s, v);
        assert Draws(a, c, s, v);
      } else {
        assert Drawn(b, c, v);
        var s :| Draws(b, c, s, v);
        assert Draws(a, c, s, v);
      }
    }
    forall s, t, v: nat | Draws(a, c, s, v) && Draws(a, c, t, v)
      ensures s == t
    {
      assert StampAt(b, s) <= b.revision && StampAt(b, t) <= b.revision;
      assert KeptOrGone(b, c, s) || Draws(b, c, s, v);
      assert KeptOrGone(b, c, t) || Draws(b, c, t, v);
      if v <= b.revision {
        assert Draws(a, b, s, v) && Draws(a, b, t, v);
      } else {
        assert Draws(b, c, s, v) && Draws(b, c, t, v);
      }
    }
    forall s
      ensures KeptOrGone(a, c, s) || Draws(a, c, s, StampAt(c, s))
    {
      assert KeptOrGone(b, c, s) || Draws(b, c, s, StampAt(c, s));
      assert KeptOrGone(a, b, s) || Draws(a, b, s, StampAt(b, s));
    }
  }

  lemma {:induction false} InsertItemsLedger(db: Db, owner: Id, ids: seq<Id>, inputs: seq<ItemInput>, now: int)
    requires |ids| == |inputs| && Bounded(db)
    ensures InsertItems(db, owner, ids, inputs, now).Inserted? ==>
              Ledger(db, InsertItems(db, owner, ids, inputs, now).db)
    decreases |inputs|
  {
    if inputs == [] {
      NoDraw(db, db);
    } else if KnownTarget(db, inputs[0].target) && ids[0] !in db.items {
      var db1 := InsertItem(db, owner, ids[0], inputs[0], now);
      OneDraw(db, db1, ItemSlot(ids[0]));
      LedgerKeepsBounded(db, db1);
      InsertItemsLedger(db1, owner, ids[1..], inputs[1..], now);
      InsertItemsStep(db1, owner, ids[1..], inputs[1..], now);
      if InsertItems(db, owner, ids, inputs, now).Inserted? {
        var db' := InsertItems(db, owner, ids, inputs, now).db;
        forall s, v: nat | Draws(db, db1, s, v) ensures StampAt(db', s) == v {
          assert Draws(db, db1, ItemSlot(ids[0]), db1.revision);
        }
        LedgerChains(db, db1, db');
      }
    }
  }

  lemma {:induction false} UpdateItemLedger(db: Db, id: Id, expected: int, input: ItemInput, now: int)
    requires Bounded(db)
    ensures Ledger(db, UpdateItem(db, id, expected, input, now).0)
  {
    var (db', reply) := UpdateItem(db, id, expected, input, now);
    if reply.Done? { OneDraw(db, db', ItemSlot(id)); } else { NoDraw(db, db'); }
  }

  lemma {:induction false} DeleteItemLedger(db: Db, id: Id, now: int)
    requires Bounded(db)
    ensures Ledger(db, DeleteItem(db, id, now).0)
  {
    var (db', reply) := DeleteItem(db, id, now);
    if reply.Done? { OneDraw(db, db', ItemSlot(id)); } else { NoDraw(db, db'); }
  }

  lemma {:induction false} FolderLedger(db: Db, w: Write, now: int)
    requires Bounded(db) && (w.NewFolder? || w.PutFolder? || w.DropFolder?)
    ensures Ledger(db, Apply(db, w, now, true))
  {
    var db' := Apply(db, w, now, true);
    if db'.revision == db.revision { NoDraw(db, db'); } else { OneDraw(db, db', FolderSlot(w.id)); }
  }

  lemma {:induction false} CreateCollectionLedger(db: Db, id: Id, name: Blob, creator: Id, sealedKey: Blob, now: int)
    requires Bounded(db)
    ensures Ledger(db, CreateCollection(db, id, name, creator, sealedKey, now).0)
  {
    var (db', reply) := CreateCollection(db, id, name, creator, sealedKey, now);
    if reply.Done? { OneDraw(db, db', MemberSlot(id, creator)); } else { NoDraw(db, db'); }
  }

  lemma {:induction false} AddMemberLedger(
    db: Db, collection: Id, user: Id, sealedKey: Blob, role: Role, actor: Id, now: int)
    requires Bounded(db)
    ensures Ledger(db, AddMember(db, collection, user, sealedKey, role, actor, now).0)
  {
    var (db', reply) := AddMember(db, collection, user, sealedKey, role, actor, now);
    if reply.Done? { OneDraw(db, db', MemberSlot(collection, user)); } else { NoDraw(db, db'); }
  }

  lemma {:induction false} FulfilGrantLedger(db: Db, collection: Id, user: Id, sealedKey: Blob, actor: Id, now: int)
    requires Bounded(db)
    ensures Ledger(db, FulfilGrant(db, collection, user, sealedKey, actor, now).0)
  {
    var (db', reply) := FulfilGrant(db, collection, user, sealedKey, actor, now);
    if reply.Done? { OneDraw(db, db', MemberSlot(collection, user)); } else { NoDraw(db, db'); }
  }

  lemma {:induction false} OtherLedger(db: Db, w: Write, now: int)
    requires Bounded(db) && (w.Ask? || w.Remove? || w.DropCollection? || w.Reset? || w.Purge?)
    ensures Ledger(db, Apply(db, w, now, true))
  {
    NoDraw(db, Apply(db, w, now, true));
  }

  /** Each write advances the sequence by exactly the values its rows carry, each value on one row. */
  lemma {:induction false} WriteLedger(db: Db, w: Write, now: int, commits: bool)
    requires WellFormed(w) && Bounded(db)
    ensures Ledger(db, Apply(db, w, now, commits))
  {
    if !commits {
      NoDraw(db, db);
    } else {
      match w
      case CreateItems(owner, ids, inputs) => InsertItemsLedger(db, owner, ids, inputs, now); NoDraw(db, db);
      case PutItem(id, expected, input) => UpdateItemLedger(db, id, expected, input, now);
      case DropItem(id) => DeleteItemLedger(db, id, now);
      case NewFolder(_, _, _) => FolderLedger(db, w, now);
      case PutFolder(_, _, _) => FolderLedger(db, w, now);
      case DropFolder(_) => FolderLedger(db, w, now);
      case NewCollection(id, name, creator, sealedKey) => CreateCollectionLedger(db, id, name, creator, sealedKey, now);
      case Add(collection, user, sealedKey, role, actor) =>
        AddMemberLedger(db, collection, user, sealedKey, role, actor, now);
      case Fulfil(collection, user, sealedKey, actor) => FulfilGrantLedger(db, collection, user, sealedKey, actor, now);
      case _ => OtherLedger(db, w, now);
    }
  }

  // ----- runs of writes

  datatype Timed = Timed(w: Write, now: int, commits: bool)

  ghost predicate IsHistory(dbs: seq<Db>, writes: seq<Timed>) {
    && |dbs| == |writes| + 1
    && dbs[0] == EMPTY_DB
    && forall k | 0 <= k < |writes| ::
         WellFormed(writes[k].w) && dbs[k + 1] == Apply(dbs[k], writes[k].w, writes[k].now, writes[k].commits)
  }

  lemma {:induction false} HistoryBounded(dbs: seq<Db>, writes: seq<Timed>, k: nat)
    requires IsHistory(dbs, writes) && k < |dbs|
    ensures Bounded(dbs[k])
    ensures k < |writes| ==> Ledger(dbs[k], dbs[k + 1])
  {
    if k > 0 {
      HistoryBounded(dbs, writes, k - 1);
      assert dbs[(k - 1) + 1] == dbs[k];
      LedgerKeepsBounded(dbs[k - 1], dbs[k]);
    }
    if k < |writes| {
      WriteLedger(dbs[k], writes[k].w, writes[k].now, writes[k].commits);
    }
  }

  /** All that the rest needs to know of one write. */
  ghost predicate Stepped(a: Db, b: Db) {
    a.revision <= b.revision && Ledger(a, b) && exists now :: DbStep(a, b, now)
  }

  ghost predicate Stepping(dbs: seq<Db>) {
    |dbs| > 0 && dbs[0].revision == 0 && forall k | 0 <= k < |dbs| - 1 :: Stepped(dbs[k], dbs[k + 1])
  }

  lemma {:induction false} HistoryStepped(dbs: seq<Db>, writes: seq<Timed>, k: nat)
    requires IsHistory(dbs, writes) && k < |writes|
    ensures Stepped(dbs[k], dbs[k + 1])
  {
    HistoryBounded(dbs, writes, k);
    WriteSteps(dbs[k], writes[k].w, writes[k].now, writes[k].commits);
  }

  lemma {:induction false} HistorySteps(dbs: seq<Db>, writes: seq<Timed>)
    requires IsHistory(dbs, writes)
    ensures Stepping(dbs)
  {
    forall k | 0 <= k < |dbs| - 1
      ensures Stepped(dbs[k], dbs[k + 1])
    {
      HistoryStepped(dbs, writes, k);
    }
  }

  lemma {:induction false} RevisionsGrow(dbs: seq<Db>, i: nat, j: nat)
    requires Stepping(dbs) && i <= j < |dbs|
    ensures dbs[i].revision <= dbs[j].revision
    decreases j
  {
    if i < j {
      RevisionsGrow(dbs, i, j - 1);
      assert Stepped(dbs[j - 1], dbs[(j - 1) + 1]);
    }
  }

  ghost predicate DrawnAt(dbs: seq<Db>, k: nat, s: Slot, v: nat)
    requires k + 1 < |dbs|
  {
    Draws(dbs[k], dbs[k + 1], s, v)
  }

  lemma {:induction false} DrawnNowhereElse(dbs: seq<Db>, k: nat, s: Slot, v: nat, j: nat, t: Slot)
    requires Stepping(dbs) && k + 1 < |dbs| && j + 1 < |dbs| && DrawnAt(dbs, k, s, v) && DrawnAt(dbs, j, t, v)
    ensures j == k && t == s
  {
    assert Stepped(dbs[k], dbs[k + 1]);
    if j < k {
      RevisionsGrow(dbs, j + 1, k);
    } else if j > k {
      RevisionsGrow(dbs, k + 1, j);
    }
  }

  lemma {:induction false} DrawnSomewhere(dbs: seq<Db>, n: nat, v: nat) returns (k: nat, s: Slot)
    requires Stepping(dbs) && n < |dbs| && 0 < v <= dbs[n].revision
    ensures k < n && DrawnAt(dbs, k, s, v)
  {
    k := n - 1;
    assert Stepped(dbs[k], dbs[k + 1]);
    if v <= dbs[k].revision {
      k, s := DrawnSomewhere(dbs, k, v);
    } else {
      assert Drawn(dbs[k], dbs[k + 1], v);
      s :| Draws(dbs[k], dbs[k + 1], s, v);
    }
  }

  /** In every run, each value from 1 to the current revision was drawn by one write and one row, and by no other. */
  lemma {:induction false} EveryValueDrawnOnce(dbs: seq<Db>, writes: seq<Timed>, n: nat, v: nat)
    returns (k: nat, s: Slot)
    requires IsHistory(dbs, writes) && n < |dbs| && 0 < v <= dbs[n].revision
    ensures k < n && DrawnAt(dbs, k, s, v)
    ensures forall j: nat, t: Slot | j + 1 < |dbs| && DrawnAt(dbs, j, t, v) :: j == k && t == s
  {
    HistorySteps(dbs, writes);
    k, s := DrawnSomewhere(dbs, n, v);
    forall j: nat, t: Slot | j + 1 < |dbs| && DrawnAt(dbs, j, t, v)
      ensures j == k && t == s
    {
      DrawnNowhereElse(dbs, k, s, v, j, t);
    }
  }

  // ----- a row seen at the same revision twice has not been touched in between

  ghost predicate OnlyMovedUp<B(!new)>(before: map<Id, Row<B>>, after: map<Id, Row<B>>, rev: nat) {
    forall i | i in after :: (i in before && before[i] == after[i]) || after[i].revision > rev
  }

  lemma {:induction false} MovedUpAfterStep<B(!new)>(
    first: map<Id, Row<B>>, before: map<Id, Row<B>>, after: map<Id, Row<B>>, rev: nat, revBefore: nat, revAfter: nat,
    now: int)
    requires OnlyMovedUp(first, before, rev) && rev <= revBefore
    requires TableStep(before, after, revBefore, revAfter, now)
    ensures OnlyMovedUp(first, after, rev)
  {
    forall i | i in after
      ensures (i in first && first[i] == after[i]) || after[i].revision > rev
    {
      assert RowStep(before, i, after[i], revBefore, revAfter, now);
    }
  }

  lemma {:induction false} StepMovesUp(first: Db, a: Db, b: Db)
    requires first.revision <= a.revision && Stepped(a, b)
    requires OnlyMovedUp(first.items, a.items, first.revision) && OnlyMovedUp(first.folders, a.folders, first.revision)
    ensures OnlyMovedUp(first.items, b.items, first.revision) && OnlyMovedUp(first.folders, b.folders, first.revision)
  {
    var now :| DbStep(a, b, now);
    MovedUpAfterStep(first.items, a.items, b.items, first.revision, a.revision, b.revision, now);
    MovedUpAfterStep(first.folders, a.folders, b.folders, first.revision, a.revision, b.revision, now);
  }

  lemma {:induction false} StepsMoveUp(dbs: seq<Db>, i: nat, j: nat)
    requires Stepping(dbs) && i <= j < |dbs|
    ensures OnlyMovedUp(dbs[i].items, dbs[j].items, dbs[i].revision)
    ensures OnlyMovedUp(dbs[i].folders, dbs[j].folders, dbs[i].revision)
    decreases j
  {
    if i < j {
      StepsMoveUp(dbs, i, j - 1);
      RevisionsGrow(dbs, i, j - 1);
      assert Stepped(dbs[j - 1], dbs[(j - 1) + 1]);
      StepMovesUp(dbs[i], dbs[j - 1], dbs[j]);
    }
  }

  /** Between any two snapshots of a run, a row is unchanged or carries a revision past the earlier one. */
  lemma {:induction false} RowsOnlyMoveUp(dbs: seq<Db>, writes: seq<Timed>, i: nat, j: nat)
    requires IsHistory(dbs, writes) && i <= j < |dbs|
    ensures OnlyMovedUp(dbs[i].items, dbs[j].items, dbs[i].revision)
    ensures OnlyMovedUp(dbs[i].folders, dbs[j].folders, dbs[i].revision)
  {
    HistorySteps(dbs, writes);
    StepsMoveUp(dbs, i, j);
  }

  /** An item update made from the row read at step i succeeds at step j only if every snapshot in
      between holds that very row: an edit never overwrites one it has not seen. */
  lemma {:induction false} UpdateItemOnlyIfUntouched(
    dbs: seq<Db>, writes: seq<Timed>, i: nat, j: nat, k: nat, id: Id, input: ItemInput, now: int)
    requires IsHistory(dbs, writes) && i <= k <= j < |dbs| && id in dbs[i].items
    requires UpdateItem(dbs[j], id, dbs[i].items[id].revision, input, now).1.Done?
    ensures id in dbs[k].items && dbs[k].items[id] == dbs[i].items[id]
  {
    RowsOnlyMoveUp(dbs, writes, i, j);
    RowsOnlyMoveUp(dbs, writes, k, j);
    HistorySteps(dbs, writes);
    RevisionsGrow(dbs, i, k);
    HistoryBounded(dbs, writes, i);
    assert StampAt(dbs[i], ItemSlot(id)) <= dbs[i].revision;
  }

  lemma {:induction false} UpdateFolderOnlyIfUntouched(
    dbs: seq<Db>, writes: seq<Timed>, i: nat, j: nat, k: nat, f: Id, name: Blob, now: int)
    requires IsHistory(dbs, writes) && i <= k <= j < |dbs| && f in dbs[i].folders
    requires UpdateFolder(dbs[j], f, dbs[i].folders[f].revision, name, now).1.Done?
    ensures f in dbs[k].folders && dbs[k].folders[f] == dbs[i].folders[f]
  {
    RowsOnlyMoveUp(dbs, writes, i, j);
    RowsOnlyMoveUp(dbs, writes, k, j);
    HistorySteps(dbs, writes);
    RevisionsGrow(dbs, i, k);
    HistoryBounded(dbs, writes, i);
    assert StampAt(dbs[i], FolderSlot(f)) <= dbs[i].revision;
  }
}
