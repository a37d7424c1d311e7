/**
 The last step of an import (packages/vault/src/import/upload.ts): encrypted entries posted in chunks closed by two
 limits, against a server that may commit a chunk and never answer.
 */
module Upload {
  import opened Options
  import opened Sequences

  const MAX_ITEMS_PER_REQUEST: nat := 1000
  const MAX_BODY_BYTES: nat := 0x80_0000
  const BODY_BUDGET: nat := MAX_BODY_BYTES - 65536

  /** What the server takes in one request (internal/httpapi/items.go). */
  const MAX_BULK_ITEMS: nat := 1000
  const MAX_BULK_BODY: nat := 8 * 1024 * 1024

  /** One encrypted item as its JSON text. */
  type Entry = string

  /** What the entries take in the request: each with the comma it may need. */
  function EntryBytes(entries: seq<Entry>): nat {
    if entries == [] then 0 else EntryBytes(entries[..|entries| - 1]) + |entries[|entries| - 1]| + 1
  }

  function Commas(entries: seq<Entry>): string {
    if entries == [] then ""
    else if |entries| == 1 then entries[0]
    else Commas(entries[..|entries| - 1]) + "," + entries[|entries| - 1]
  }

  /** The request body. */
  function Body(entries: seq<Entry>): string {
    "{\"items\":[" + Commas(entries) + "]}"
  }

  lemma {:induction false} CommasSize(entries: seq<Entry>)
    requires entries != []
    ensures |Commas(entries)| + 1 == EntryBytes(entries)
  {
    if |entries| > 1 {
      CommasSize(entries[..|entries| - 1]);
    } else {
      assert entries[..0] == [];
    }
  }

  /** A request the server's limits allow, unless it is one entry too large for any request. */
  ghost predicate Sendable(chunk: seq<Entry>) {
    && 0 < |chunk| <= MAX_BULK_ITEMS
    && (|chunk| > 1 ==> |Body(chunk)| <= MAX_BULK_BODY)
  }

  lemma {:induction false} WithinBudget(chunk: seq<Entry>)
    requires 0 < |chunk| <= MAX_ITEMS_PER_REQUEST && (|chunk| > 1 ==> EntryBytes(chunk) <= BODY_BUDGET)
    ensures Sendable(chunk)
  {
    CommasSize(chunk);
  }

  ghost predicate AllSendable(chunks: seq<seq<Entry>>) {
    forall k | 0 <= k < |chunks| :: Sendable(chunks[k])
  }

  lemma {:induction false} OneMorePosted(chunks: seq<seq<Entry>>, chunk: seq<Entry>)
    requires AllSendable(chunks)
    requires 0 < |chunk| <= MAX_ITEMS_PER_REQUEST && (|chunk| > 1 ==> EntryBytes(chunk) <= BODY_BUDGET)
    ensures AllSendable(chunks + [chunk])
  {
    WithinBudget(chunk);
  }

  lemma {:induction false} PrefixSplit(
    before: seq<Entry>, done: seq<Entry>, chunk: seq<Entry>, items: seq<Entry>, i: nat)
    requires i <= |items| && done + chunk == items[..i]
    ensures items[..|done|] == done && before + done + chunk == before + items[..i]
    ensures |done| + |chunk| == i && done + chunk <= items
  {
    assert items[..i][..|done|] == items[..|done|];
    Associate(before, done, chunk);
  }

  lemma {:induction false} OneMoreEntry(done: seq<Entry>, chunk: seq<Entry>, items: seq<Entry>, i: nat)
    requires i < |items| && done + chunk == items[..i]
    ensures done + (chunk + [items[i]]) == items[..i + 1]
    ensures EntryBytes(chunk + [items[i]]) == EntryBytes(chunk) + |items[i]| + 1
  {
    assert done + (chunk + [items[i]]) == done + chunk + [items[i]];
    assert (chunk + [items[i]])[..|chunk|] == chunk;
  }

  /** The chunk could not have taken the entry: it was at one of the two limits. */
  predicate Full(chunk: seq<Entry>, next: Entry) {
    |chunk| >= MAX_ITEMS_PER_REQUEST || EntryBytes(chunk) + |next| + 1 > BODY_BUDGET
  }

  /** No chunk was closed while the entry that opens the next one still fitted. */
  ghost predicate Greedy(chunks: seq<seq<Entry>>) {
    forall k | 1 <= k < |chunks| :: chunks[k] != [] && Full(chunks[k - 1], chunks[k][0])
  }

  lemma {:induction false} GreedyGrows(chunks: seq<seq<Entry>>, chunk: seq<Entry>, entry: Entry)
    requires chunk != [] && Greedy(chunks + [chunk])
    ensures Greedy(chunks + [chunk + [entry]])
  {
    var a, b := chunks + [chunk], chunks + [chunk + [entry]];
    forall k | 1 <= k < |b|
      ensures b[k] != [] && Full(b[k - 1], b[k][0])
    {
      assert a[k] != [] && Full(a[k - 1], a[k][0]);
    }
  }

  lemma {:induction false} GreedyOpens(chunks: seq<seq<Entry>>, entry: Entry)
    requires Greedy(chunks) && (chunks != [] ==> Full(chunks[|chunks| - 1], entry))
    ensures Greedy(chunks + [[entry]])
  {
    var b := chunks + [[entry]];
    forall k | 1 <= k < |b|
      ensures b[k] != [] && Full(b[k - 1], b[k][0])
    {
      if k < |chunks| {
        assert chunks[k] != [] && Full(chunks[k - 1], chunks[k][0]);
      }
    }
  }

  // ----- the server

  /** What the client makes of a post: an answer, an API error with its status, or nothing at all. */
  datatype Reply = Confirmed | ApiError(status: int) | NoAnswer

  predicate DefinitelyNotWritten(r: Reply) {
    r.ApiError? && r.status < 500
  }

  /**
   The server as this client sees it. A batch is one transaction: all of it is written or none. A success is answered
   only after the commit and a status below 500 only without one; otherwise the commit may or may not have happened.
   */
  class Server {
    var rows: seq<Entry>

    method PostBulk(chunk: seq<Entry>) returns (reply: Reply)
      modifies this
      ensures rows == old(rows) || rows == old(rows) + chunk
      ensures reply.Confirmed? ==> rows == old(rows) + chunk
      ensures DefinitelyNotWritten(reply) ==> rows == old(rows)
    {
      reply := *;
      var commits: bool := *;
      if reply.Confirmed? || (commits && !DefinitelyNotWritten(reply)) {
        rows := rows + chunk;
      }
    }
  }

  // ----- the client

  /** Why an upload stopped: the collection's key is not on this device, or a post was not confirmed. */
  datatype Error = NoKey | Unconfirmed(reply: Reply)

  datatype Outcome = Outcome(uploaded: nat, total: nat, inDoubt: nat, error: Option<Error>)

  class Uploader {
    const server: Server
    var uploaded: nat
    var chunk: seq<Entry>
    var chunkBytes: nat
    /** The entries confirmed so far, and every chunk posted. */
    ghost var landed: seq<Entry>
    ghost var posted: seq<seq<Entry>>

    ghost predicate Valid()
      reads this
    {
      && uploaded == |landed|
      && Joined(posted) == landed && AllSendable(posted)
      && chunkBytes == EntryBytes(chunk)
      && |chunk| <= MAX_ITEMS_PER_REQUEST
      && (|chunk| > 1 ==> chunkBytes <= BODY_BUDGET)
      && Greedy(posted) && (chunk != [] ==> Greedy(posted + [chunk]))
    }

    constructor (server: Server)
      ensures Valid() && this.server == server && landed == [] && chunk == [] && uploaded == 0 && posted == []
    {
      this.server := server;
      uploaded, chunk, chunkBytes, landed, posted := 0, [], 0, [], [];
    }

    /** Posts the chunk: a confirmed one is counted and the next begins empty; any other leaves the count alone. */
    method Send() returns (reply: Reply)
      requires Valid() && chunk != []
      modifies this, server
      ensures AllSendable(posted) && Greedy(posted) && posted == old(posted) + [old(chunk)]
              && Joined(posted) == old(landed + chunk)
      ensures server.rows == old(server.rows) || server.rows == old(server.rows + chunk)
      ensures reply.Confirmed? ==>
        Valid() && landed == old(landed + chunk) && chunk == [] && server.rows == old(server.rows + chunk)
      ensures DefinitelyNotWritten(reply) ==> server.rows == old(server.rows)
      ensures !reply.Confirmed? ==> uploaded == old(uploaded) && landed == old(landed)
    {
      OneMorePosted(posted, chunk);
      JoinedMore(posted, chunk);
      posted := posted + [chunk];
      reply := server.PostBulk(chunk);
      if reply.Confirmed? {
        uploaded := uploaded + |chunk|;
        landed := landed + chunk;
        chunk, chunkBytes := [], 0;
      }
    }

    /** Everything before item `i` is confirmed or in the open chunk, in order. */
    ghost predicate Reached(before: seq<Entry>, items: seq<Entry>, i: nat)
      requires i <= |items|
      reads this, server
    {
      Valid() && landed + chunk == items[..i] && server.rows == before + landed
    }

    /** How an upload may end: what was posted, what the vault holds, and what the outcome says of it. */
    ghost predicate Ended(before: seq<Entry>, items: seq<Entry>, r: Outcome)
      reads this, server
    {
      && r.total == |items| && r.uploaded <= |items|
      && AllSendable(posted) && Greedy(posted)
      && Joined(posted) <= items
      && landed == items[..r.uploaded]
      && (exists stored: nat | r.uploaded <= stored <= r.uploaded + r.inDoubt <= |items| ::
            server.rows == before + items[..stored])
      && (r.error.None? ==> r.uploaded == |items| && r.inDoubt == 0)
      && (r.error.Some? ==> r.uploaded < |items|)
      && (r.error == Some(NoKey) ==> r.inDoubt == 0 && posted == [])
      // The post not confirmed is the last one: in doubt as a whole, or certainly not written.
      && (r.error.Some? && r.error.value.Unconfirmed? ==>
            && posted != [] && !r.error.value.reply.Confirmed?
            && (if r.error.value.reply.ApiError? && r.error.value.reply.status < 500
                then r.inDoubt == 0 && server.rows == before + items[..r.uploaded]
                else r.inDoubt == |posted[|posted| - 1]|))
    }

    /** The post that failed ends the upload. */
    method SendOrEnd(ghost before: seq<Entry>, items: seq<Entry>, i: nat) returns (end: Option<Outcome>)
      requires i <= |items| && Reached(before, items, i) && chunk != []
      modifies this, server
      ensures end.None? ==> Reached(before, items, i) && chunk == [] && posted == old(posted) + [old(chunk)]
      ensures end.Some? ==> Ended(before, items, end.value)
      ensures end.Some? ==> end.value.error != Some(NoKey)
    {
      var attempted := |chunk|;
      PrefixSplit(before, landed, chunk, items, i);
      var reply := Send();
      if reply.Confirmed? {
        return None;
      }
      var inDoubt := if DefinitelyNotWritten(reply) then 0 else attempted;
      end := Some(Outcome(uploaded, |items|, inDoubt, Some(Unconfirmed(reply))));
      ghost var stored := if server.rows == before + items[..uploaded] then uploaded else i;
      assert server.rows == before + items[..stored] && uploaded <= stored <= uploaded + inDoubt;
    }

    /** Puts the entry into the open chunk. */
    method Push(ghost before: seq<Entry>, items: seq<Entry>, i: nat)
      requires i < |items| && Reached(before, items, i) && |chunk| < MAX_ITEMS_PER_REQUEST
      requires chunk != [] ==> chunkBytes + |items[i]| + 1 <= BODY_BUDGET
      requires chunk == [] && posted != [] ==> Full(posted[|posted| - 1], items[i])
      modifies this
      ensures Reached(before, items, i + 1) && chunk != []
    {
      OneMoreEntry(landed, chunk, items, i);
      if chunk == [] {
        GreedyOpens(posted, items[i]);
        assert chunk + [items[i]] == [items[i]];
      } else {
        GreedyGrows(posted, chunk, items[i]);
      }
      chunk := chunk + [items[i]];
      chunkBytes := chunkBytes + |items[i]| + 1;
    }

    /** Opens the next chunk when the entry does not fit this one, and adds the entry. */
    method Add(ghost before: seq<Entry>, items: seq<Entry>, i: nat) returns (end: Option<Outcome>)
      requires i < |items| && Reached(before, items, i) && (chunk == [] ==> posted == [])
      modifies this, server
      ensures end.None? ==> Reached(before, items, i + 1) && chunk != []
      ensures end.Some? ==> Ended(before, items, end.value)
      ensures end.Some? ==> end.value.error != Some(NoKey)
    {
      var entryBytes := |items[i]| + 1;
      if |chunk| > 0 && (|chunk| >= MAX_ITEMS_PER_REQUEST || chunkBytes + entryBytes > BODY_BUDGET) {
        ghost var full := chunk;
        assert Full(full, items[i]);
        end := SendOrEnd(before, items, i);
        if end.Some? {
          return;
        }
        assert posted[|posted| - 1] == full;
      }
      Push(before, items, i);
      end := None;
    }

    method UploadItems(items: seq<Entry>, holdsKey: bool) returns (r: Outcome)
      requires Valid() && landed == [] && posted == [] && chunk == []
      modifies this, server
      ensures Ended(old(server.rows), items, r)
      ensures items == [] ==> r == Outcome(0, 0, 0, None) && posted == []
      ensures items != [] && !holdsKey ==> r == Outcome(0, |items|, 0, Some(NoKey)) && posted == []
      ensures holdsKey ==> r.error != Some(NoKey)
    {
      ghost var before := server.rows;
      assert before == before + items[..0];
      if items == [] {
        return Outcome(0, 0, 0, None);
      }
      if !holdsKey {
        return Outcome(0, |items|, 0, Some(NoKey));
      }
      for i := 0 to |items|
        invariant Reached(before, items, i) && (chunk == [] ==> posted == [])
      {
        var end := Add(before, items, i);
        if end.Some? {
          return end.value;
        }
      }
      if |chunk| > 0 {
        var end := SendOrEnd(before, items, |items|);
        if end.Some? {
          return end.value;
        }
      }
      assert items[..|items|] == items;
      r := Outcome(uploaded, |items|, 0, None);
    }
  }
}
