/**
 The keys a session keeps in memory (packages/vault/src/session.ts) and the two operations that replace its collection
 keys (packages/vault/src/collections.ts). Keys are byte buffers on the heap, told apart by identity, and a buffer the
 session drops is overwritten with zeros.
 */
module Keyring {
  import opened Options
  import opened Bytes

  type Id = string
  type Key = array<byte>

  ghost predicate Blank(key: Key)
    reads key
  {
    forall i | 0 <= i < key.Length :: key[i] == 0
  }

  method Zeroize(key: Key)
    modifies key
    ensures Blank(key)
  {
    for i := 0 to key.Length
      invariant forall j | 0 <= j < i :: key[j] == 0
    {
      key[i] := 0;
    }
  }

  /** Zeroizes every buffer of a set. */
  method ZeroizeAll(keys: set<Key>)
    modifies keys
    ensures forall key | key in keys :: Blank(key)
  {
    var left := keys;
    while left != {}
      invariant left <= keys
      invariant forall key | key in keys && key !in left :: Blank(key)
      decreases |left|
    {
      var key :| key in left;
      Zeroize(key);
      left := left - {key};
    }
  }

  ghost predicate Injective(ring: map<Id, Key>) {
    forall a, b | a in ring && b in ring && ring[a] == ring[b] :: a == b
  }

  class Session {
    var userKey: Option<Key>
    var privateKey: Option<Key>
    var collectionKeys: map<Id, Key>

    /** Every buffer the session has ever held, with the contents it was handed over with. */
    ghost var installed: map<Key, seq<byte>>

    ghost function Held(): set<Key>
      reads this
    {
      collectionKeys.Values + Own()
    }

    ghost function Own(): set<Key>
      reads this
    {
      (if userKey.Some? then {userKey.value} else {}) + (if privateKey.Some? then {privateKey.value} else {})
    }

    /** No buffer serves two purposes. */
    ghost predicate Separate()
      reads this
    {
      && Injective(collectionKeys)
      && Own() !! collectionKeys.Values
      && (userKey.Some? && privateKey.Some? ==> userKey != privateKey)
    }

    /** What is held is intact, and what was held and dropped is blank. */
    ghost predicate Valid()
      reads this, installed.Keys
    {
      && Separate()
      && Held() <= installed.Keys
      && (forall key | key in Held() :: key[..] == installed[key])
      && (forall key | key in installed && key !in Held() :: Blank(key))
    }

    constructor ()
      ensures Valid() && Held() == {} && installed == map[]
    {
      userKey, privateKey, collectionKeys, installed := None, None, map[], map[];
    }

    /** The buffers in the session's hands. */
    function HeldBuffers(): (held: set<Key>)
      reads this
      ensures held == Held()
    {
      collectionKeys.Values + (if userKey.Some? then {userKey.value} else {})
      + (if privateKey.Some? then {privateKey.value} else {})
    }

    /** Blanks everything held and lets go of it. */
    method Drop()
      requires Valid()
      modifies this, Held()
      ensures Valid() && Held() == {} && installed == old(installed)
    {
      ZeroizeAll(HeldBuffers());
      collectionKeys := map[];
      userKey, privateKey := None, None;
    }

    method Install(user: Key, secret: Key)
      requires Valid() && Held() == {} && user != secret && user !in installed && secret !in installed
      modifies this
      ensures Valid() && userKey == Some(user) && privateKey == Some(secret) && collectionKeys == map[]
      ensures installed == old(installed)[user := user[..]][secret := secret[..]]
    {
      assert collectionKeys.Values == {};
      collectionKeys := map[];
      userKey, privateKey := Some(user), Some(secret);
      installed := installed[user := user[..]][secret := secret[..]];
    }

    method Lock()
      requires Valid()
      modifies this, Held()
      ensures Valid() && Held() == {} && installed == old(installed)
    {
      Drop();
    }

    method Open(user: Key, secret: Key)
      requires Valid() && user != secret && user !in installed && secret !in installed
      modifies this, Held()
      ensures Valid() && userKey == Some(user) && privateKey == Some(secret) && collectionKeys == map[]
      ensures installed == old(installed)[user := old(user[..])][secret := old(secret[..])]
    {
      Drop();
      Install(user, secret);
    }

    /** A ring that may replace this one: an id keeps its buffer, or takes one the session never held. */
    ghost predicate Replaces(next: map<Id, Key>)
      reads this
    {
      && Injective(next)
      && forall id | id in next :: (id in collectionKeys && collectionKeys[id] == next[id]) || next[id] !in installed
    }

    /** What the session knows of its buffers once `next` is installed. */
    ghost function With(next: map<Id, Key>): map<Key, seq<byte>>
      reads this, next.Values
    {
      installed + map key | key in next.Values && key !in installed :: key[..]
    }

    predicate CarriesOver(next: map<Id, Key>, id: Id)
      requires id in collectionKeys
      reads this
    {
      id in next && next[id] == collectionKeys[id]
    }

    method ZeroizeMissing(next: map<Id, Key>)
      requires Injective(collectionKeys)
      modifies collectionKeys.Values
      ensures forall id | id in collectionKeys ::
        if CarriesOver(next, id) then collectionKeys[id][..] == old(collectionKeys[id][..])
            else Blank(collectionKeys[id])
    {
      var left := collectionKeys.Keys;
      while left != {}
        invariant left <= collectionKeys.Keys
        invariant forall id | id in collectionKeys ::
          if id in left || CarriesOver(next, id) then collectionKeys[id][..] == old(collectionKeys[id][..])
          else Blank(collectionKeys[id])
        decreases |left|
      {
        var id :| id in left;
        if !CarriesOver(next, id) {
          Zeroize(collectionKeys[id]);
        }
        left := left - {id};
      }
    }

    method SetCollectionKeys(next: map<Id, Key>)
      requires Valid() && Replaces(next)
      modifies this, collectionKeys.Values
      ensures Valid() && collectionKeys == next && userKey == old(userKey) && privateKey == old(privateKey)
      ensures installed == old(With(next))
    {
      ghost var after := With(next);
      ghost var ring := collectionKeys;
      assert Own() !! next.Values;
      ZeroizeMissing(next);
      assert installed == old(installed);
      forall key | key in next.Values
        ensures key[..] == after[key]
      {
        var id :| id in next && next[id] == key;
        if key in installed {
          assert CarriesOver(next, id);
        } else {
          assert key !in ring.Values;
        }
      }
      forall key | key in after && key !in next.Values && key !in Own()
        ensures Blank(key)
      {
        if key in ring.Values {
          var id :| id in ring && ring[id] == key;
          assert !CarriesOver(next, id);
        }
      }
      collectionKeys := next;
      installed := after;
    }

    // ----- replacing the ring

    /** One entry of the server's list: its key is the one already held, or the sealed one if it opens. */
    method Adopt(id: Id) returns (key: Option<Key>)
      ensures id in collectionKeys ==> key == Some(collectionKeys[id])
      ensures id !in collectionKeys && key.Some? ==> fresh(key.value)
    {
      if id in collectionKeys {
        return Some(collectionKeys[id]);
      }
      key := OpenSealed();
    }

    /** The next ring, the summaries, and the keys opened on the way. */
    method Gather(wire: seq<Id>) returns (next: map<Id, Key>, summaries: seq<Summary>, ghost newKeys: set<Key>)
      requires Injective(collectionKeys)
      ensures Gathered(collectionKeys, wire, next, summaries, newKeys) && fresh(newKeys)
      ensures Injective(next)
    {
      next, summaries, newKeys := map[], [], {};
      for i := 0 to |wire|
        invariant Gathered(collectionKeys, wire[..i], next, summaries, newKeys) && fresh(newKeys)
        invariant Injective(next)
      {
        var key := Adopt(wire[i]);
        GatheredMore(collectionKeys, wire, i, next, summaries, newKeys, key);
        if key.Some? {
          if wire[i] !in collectionKeys {
            newKeys := newKeys + {key.value};
          }
          next := next[wire[i] := key.value];
        }
        summaries := summaries + [Summary(wire[i], key.Some?)];
      }
      assert wire[..|wire|] == wire;
    }

    /** A summary per listed collection, or nothing when the vault is locked. */
    method AdoptCollections(wire: seq<Id>) returns (summaries: Option<seq<Summary>>, ghost newKeys: set<Key>)
      requires Valid()
      modifies this, collectionKeys.Values
      ensures Valid() && userKey == old(userKey) && privateKey == old(privateKey)
      ensures Remembers(old(installed), installed)
      ensures summaries.None? <==> old(userKey.None? || privateKey.None?)
      ensures summaries.None? ==> collectionKeys == old(collectionKeys) && installed == old(installed)
      ensures summaries.Some? ==> Gathered(old(collectionKeys), wire, collectionKeys, summaries.value, newKeys)
      ensures fresh(newKeys) && Held() <= old(Held()) + newKeys && (Distinct(wire) ==> newKeys <= Held())
    {
      newKeys := {};
      if userKey.None? || privateKey.None? {
        return None, newKeys;
      }
      var next, listed;
      next, listed, newKeys := Gather(wire);
      GatheredValues(collectionKeys, wire, next, listed, newKeys);
      SetCollectionKeys(next);
      summaries := Some(listed);
    }

    /**
     A collection made here: its new key is sealed and posted, and `created` is the id the server answered, or nothing
     when sealing or posting failed.
     */
    method CreateCollection(created: Option<Id>) returns (key: Key)
      requires Valid()
      modifies this, collectionKeys.Values
      ensures Valid() && userKey == old(userKey) && privateKey == old(privateKey) && fresh(key)
      ensures Remembers(old(installed), installed)
      ensures created.None? ==> Blank(key) && collectionKeys == old(collectionKeys) && installed == old(installed)
      ensures created.Some? ==> collectionKeys == old(collectionKeys)[created.value := key]
      ensures Held() <= old(Held()) + {key}
    {
      key := NewKey();
      if created.None? {
        Zeroize(key);
        return;
      }
      var next := CopyRing();
      next := next[created.value := key];
      SetCollectionKeys(next);
    }

    method CopyRing() returns (next: map<Id, Key>)
      ensures next == collectionKeys
    {
      next := map[];
      var left := collectionKeys.Keys;
      while left != {}
        invariant left <= collectionKeys.Keys && next.Keys == collectionKeys.Keys - left
        invariant forall id | id in next :: next[id] == collectionKeys[id]
        decreases |left|
      {
        var id :| id in left;
        next := next[id := collectionKeys[id]];
        left := left - {id};
      }
    }

    /** Any ring that may replace this one: each id listed keeps its buffer or takes a new one. */
    method AnyRing(ids: seq<Id>) returns (next: map<Id, Key>)
      requires Injective(collectionKeys)
      ensures Injective(next) && next.Keys <= set id | id in ids
      ensures forall id | id in next :: (id in collectionKeys && collectionKeys[id] == next[id]) || fresh(next[id])
    {
      next := map[];
      for i := 0 to |ids|
        invariant Injective(next) && next.Keys <= set id | id in ids
        invariant forall id | id in next :: (id in collectionKeys && collectionKeys[id] == next[id]) || fresh(next[id])
      {
        var keep: bool := *;
        var key := if keep && ids[i] in collectionKeys then Some(collectionKeys[ids[i]]) else None;
        if key.None? {
          var made := NewKey();
          key := Some(made);
        }
        next := next[ids[i] := key.value];
      }
    }

    /** Any one operation, with any outcome. */
    method AnyStep()
      requires Valid()
      modifies this, Held()
      ensures Valid() && fresh(Held() - old(Held())) && Remembers(old(installed), installed)
    {
      var choice: int := *;
      if choice == 0 {
        var user := NewKey();
        var secret := NewKey();
        Open(user, secret);
      } else if choice == 1 {
        Lock();
      } else if choice == 2 {
        var wire: seq<Id> := *;
        var _, _ := AdoptCollections(wire);
      } else if choice == 3 {
        var ids: seq<Id> := *;
        var next := AnyRing(ids);
        SetCollectionKeys(next);
      } else {
        var created: Option<Id> := *;
        var _ := CreateCollection(created);
      }
    }

    /** Any sequence of operations on a session that is in order: it stays so, and forgets no buffer it has held. */
    method AnyRun(steps: nat)
      requires Valid()
      modifies this, Held()
      ensures Valid() && Remembers(old(installed), installed)
    {
      for i := 0 to steps
        invariant Valid() && fresh(Held() - old(Held())) && Remembers(old(installed), installed)
      {
        AnyStep();
      }
    }
  }

  ghost predicate Remembers(before: map<Key, seq<byte>>, after: map<Key, seq<byte>>) {
    forall key | key in before :: key in after && after[key] == before[key]
  }

  datatype Summary = Summary(id: Id, usable: bool)

  ghost predicate Distinct(wire: seq<Id>) {
    forall i, j | 0 <= i < j < |wire| :: wire[i] != wire[j]
  }

  /**
   The ring the listed collections make out of an earlier one: a summary for each, usable only with a key in the ring;
   no key in the ring but theirs; a key already held kept as it is and any other newly opened.
   */
  ghost predicate Gathered(
    ring: map<Id, Key>, wire: seq<Id>, next: map<Id, Key>, summaries: seq<Summary>, newKeys: set<Key>)
  {
    && |summaries| == |wire|
    && (forall i | 0 <= i < |wire| :: summaries[i].id == wire[i] && (summaries[i].usable ==> wire[i] in next))
    && (forall id | id in next :: Summary(id, true) in summaries)
    && (forall id | id in ring :: id in next <==> id in wire)
    && (forall id | id in next :: if id in ring then next[id] == ring[id] else next[id] in newKeys)
    && (Distinct(wire) ==> newKeys <= next.Values)
  }

  lemma {:induction false} GatheredMore(
    ring: map<Id, Key>, wire: seq<Id>, i: nat, next: map<Id, Key>, summaries: seq<Summary>, newKeys: set<Key>,
    key: Option<Key>)
    requires i < |wire| && Gathered(ring, wire[..i], next, summaries, newKeys)
    requires wire[i] in ring ==> key == Some(ring[wire[i]])
    ensures Gathered(ring, wire[..i + 1], if key.Some? then next[wire[i] := key.value] else next,
                     summaries + [Summary(wire[i], key.Some?)],
                     if key.Some? && wire[i] !in ring then newKeys + {key.value} else newKeys)
  {
    assert wire[..i + 1] == wire[..i] + [wire[i]];
    var more := summaries + [Summary(wire[i], key.Some?)];
    assert forall s | s in summaries :: s in more;
    assert Summary(wire[i], key.Some?) in more;
    if Distinct(wire[..i + 1]) {
      DistinctLess(wire, i);
      if key.Some? {
        NotYetListed(ring, wire[..i], next, summaries, newKeys, wire[i]);
        ValuesMore(next, wire[i], key.value);
      }
    }
  }

  lemma {:induction false} NotYetListed(
    ring: map<Id, Key>, wire: seq<Id>, next: map<Id, Key>, summaries: seq<Summary>, newKeys: set<Key>, id: Id)
    requires Gathered(ring, wire, next, summaries, newKeys) && id !in wire
    ensures id !in next
  {
  }

  lemma {:induction false} GatheredValues(
    ring: map<Id, Key>, wire: seq<Id>, next: map<Id, Key>, summaries: seq<Summary>, newKeys: set<Key>)
    requires Gathered(ring, wire, next, summaries, newKeys)
    ensures next.Values <= ring.Values + newKeys
  {
    forall key | key in next.Values
      ensures key in ring.Values + newKeys
    {
      var id :| id in next && next[id] == key;
      assert id in ring ==> ring[id] == key;
    }
  }

  lemma {:induction false} ValuesMore(ring: map<Id, Key>, id: Id, key: Key)
    requires id !in ring
    ensures ring.Values + {key} <= ring[id := key].Values
  {
    forall k | k in ring.Values
      ensures k in ring[id := key].Values
    {
      var i :| i in ring && ring[i] == k;
      assert ring[id := key][i] == k;
    }
    assert ring[id := key][id] == key;
  }

  lemma {:induction false} DistinctLess(wire: seq<Id>, i: nat)
    requires i < |wire| && Distinct(wire[..i + 1])
    ensures Distinct(wire[..i]) && wire[i] !in wire[..i]
  {
    forall j, k | 0 <= j < k < i
      ensures wire[..i][j] != wire[..i][k]
    {
      assert wire[..i + 1][j] != wire[..i + 1][k];
    }
    forall j | 0 <= j < i
      ensures wire[j] != wire[i]
    {
      assert wire[..i + 1][j] != wire[..i + 1][i];
    }
  }

  /** Thirty-two bytes in a buffer of their own. */
  method NewKey() returns (key: Key)
    ensures fresh(key) && key.Length == 32
  {
    key := new byte[32](_ => 0);
    for i := 0 to 32
      invariant fresh(key)
    {
      key[i] := *;
    }
  }

  /** A sealed key opened with the private key: a new buffer, or nothing when the blob does not open. */
  method OpenSealed() returns (key: Option<Key>)
    ensures key.Some? ==> fresh(key.value)
  {
    var opens: bool := *;
    if !opens {
      return None;
    }
    var buffer := NewKey();
    key := Some(buffer);
  }
}
