/**
 What the limiter guarantees over whole runs. Every call reads the clock once, under the lock, so a run is the calls in
 the order of their readings; requests may overlap in any way, and a failure may be recorded whatever the answer was.
 */
module LimiterRuns {
  import opened Options
  import opened Limiter

  datatype Event =
    | Ask(key: Key, now: int)
    | Fail(key: Key, now: int)
    | Success(key: Key, now: int)
    | Sweeping(olderThan: int, now: int)

  /** The clock does not go back. */
  ghost predicate Ordered(events: seq<Event>) {
    forall i, j | 0 <= i <= j < |events| :: events[i].now <= events[j].now
  }

  /** The limiter's table, and for each key in it the failures recorded since it was last cleared. */
  datatype Watched = Watched(table: Table, log: map<Key, seq<int>>)

  ghost function Logged(log: map<Key, seq<int>>, key: Key): seq<int> {
    if key in log then log[key] else []
  }

  ghost function Next(c: Config, w: Watched, e: Event): Watched {
    match e
    case Ask(_, _) => w
    case Fail(key, now) => Watched(Failed(c, w.table, key, now), w.log[key := Logged(w.log, key) + [now]])
    case Success(key, _) => Watched(w.table - {key}, w.log - {key})
    case Sweeping(olderThan, now) =>
      var kept := Swept(w.table, now - olderThan);
      Watched(kept, w.log - (w.log.Keys - kept.Keys))
  }

  ghost function Run(c: Config, events: seq<Event>): Watched {
    if events == [] then Watched(map[], map[])
    else Next(c, Run(c, events[..|events| - 1]), events[|events| - 1])
  }

  lemma {:induction false} RunOne(c: Config, events: seq<Event>, n: nat)
    requires n < |events|
    ensures Run(c, events[..n + 1]) == Next(c, Run(c, events[..n]), events[n])
  {
    assert events[..n + 1][..n] == events[..n];
  }

  // ----- every interleaving

  ghost predicate Accounted(c: Config, e: Entry, times: seq<int>) {
    && e.failures == |times| > 0 && e.lastSeen == times[|times| - 1]
    && e.blockedTo == if e.failures >= c.maxFree then Some(e.lastSeen + Wait(c, e.failures)) else None
  }

  /** Every entry is accounted for by its log, up to the present. */
  ghost predicate Invariant(c: Config, w: Watched, now: int) {
    && w.log.Keys == w.table.Keys
    && forall key | key in w.table :: Accounted(c, w.table[key], w.log[key]) && w.table[key].lastSeen <= now
  }

  lemma {:induction false} FailedAccounted(c: Config, w: Watched, key: Key, now: int, was: int)
    requires Invariant(c, w, was)
    ensures Accounted(c, Failed(c, w.table, key, now)[key], Logged(w.log, key) + [now])
  {
    if key in w.table {
      assert Accounted(c, w.table[key], w.log[key]);
    }
  }

  lemma {:induction false} NextKeeps(c: Config, w: Watched, e: Event, was: int)
    requires Invariant(c, w, was) && was <= e.now
    ensures Invariant(c, Next(c, w, e), e.now)
  {
    var x := Next(c, w, e);
    if e.Fail? {
      FailedAccounted(c, w, e.key, e.now, was);
    }
    assert x.log.Keys == x.table.Keys;
    forall key | key in x.table
      ensures Accounted(c, x.table[key], x.log[key]) && x.table[key].lastSeen <= e.now
    {
      if !(e.Fail? && e.key == key) {
        assert key in w.table && x.table[key] == w.table[key] && x.log[key] == w.log[key];
        assert Accounted(c, w.table[key], w.log[key]);
      }
    }
  }

  lemma {:induction false} EveryRunAccounted(c: Config, events: seq<Event>, n: nat, now: int)
    requires Ordered(events) && n <= |events| && (n > 0 ==> events[n - 1].now <= now)
    ensures Invariant(c, Run(c, events[..n]), now)
  {
    if n > 0 {
      EveryRunAccounted(c, events, n - 1, events[n - 1].now);
      RunOne(c, events, n - 1);
      NextKeeps(c, Run(c, events[..n - 1]), events[n - 1], events[n - 1].now);
    }
  }

  lemma {:induction false} WholeRunAccounted(c: Config, events: seq<Event>, key: Key)
    requires Ordered(events) && key in Run(c, events).table
    ensures key in Run(c, events).log && Accounted(c, Run(c, events).table[key], Run(c, events).log[key])
  {
    var n := |events|;
    EveryRunAccounted(c, events, n, if n == 0 then 0 else events[n - 1].now);
    assert events[..n] == events;
  }

  /** Any event at all, on a key that is blocked or not: if the key stays in the table its block ends no earlier. */
  lemma {:induction false} StepNeverShrinks(c: Config, w: Watched, e: Event, was: int, key: Key)
    requires Sane(c) && Invariant(c, w, was) && was <= e.now
    requires key in w.table && key in Next(c, w, e).table && w.table[key].blockedTo.Some?
    ensures Next(c, w, e).table[key].blockedTo.Some?
    ensures Next(c, w, e).table[key].blockedTo.value >= w.table[key].blockedTo.value
  {
    assert Accounted(c, w.table[key], w.log[key]);
    var n := w.table[key].failures;
    WaitMonotone(c, n, n + 1);
  }

  /** As long as a key is not cleared, its block is never shortened, however many failures follow and whenever. */
  lemma {:induction false} BlockNeverShrinks(c: Config, events: seq<Event>, i: nat, j: nat, key: Key)
    requires Sane(c) && Ordered(events) && i <= j <= |events|
    requires forall n | i <= n <= j :: key in Run(c, events[..n]).table
    requires Run(c, events[..i]).table[key].blockedTo.Some?
    ensures Run(c, events[..j]).table[key].blockedTo.Some?
    ensures Run(c, events[..j]).table[key].blockedTo.value >= Run(c, events[..i]).table[key].blockedTo.value
    decreases j
  {
    if i < j {
      var k := j - 1;
      BlockNeverShrinks(c, events, i, k, key);
      EveryRunAccounted(c, events, k, events[k].now);
      RunOne(c, events, k);
      StepNeverShrinks(c, Run(c, events[..k]), events[k], events[k].now, key);
    }
  }

  /** In every run, a sweep whose age is at least the longest wait never frees a blocked key. */
  lemma {:induction false} SweepKeepsBlocked(c: Config, events: seq<Event>, olderThan: int, now: int, key: Key)
    requires Sane(c) && Ordered(events) && olderThan >= c.maxWait
    requires key in Run(c, events).table && Blocked(Run(c, events).table[key], now)
    ensures key in Next(c, Run(c, events), Sweeping(olderThan, now)).table
    ensures Next(c, Run(c, events), Sweeping(olderThan, now)).table[key] == Run(c, events).table[key]
  {
    WholeRunAccounted(c, events, key);
    var n := Run(c, events).table[key].failures;
    WaitMonotone(c, n, n);
  }

  /**
   Whether a later sweep can free the key while it is blocked: exactly when the key is still blocked now and the age
   leaves room before the end of the block.
   */
  lemma {:induction false} SweepFreesIff(c: Config, events: seq<Event>, olderThan: int, key: Key)
    requires Ordered(events) && key in Run(c, events).table
    ensures events != []
    ensures var w, last := Run(c, events), events[|events| - 1].now;
            (exists now :: last <= now && Blocked(w.table[key], now)
                && key !in Next(c, w, Sweeping(olderThan, now)).table)
            <==> Blocked(w.table[key], last) && w.table[key].failures >= c.maxFree
                 && olderThan + 1 < Wait(c, w.table[key].failures)
  {
    var w, last := Run(c, events), events[|events| - 1].now;
    var e := w.table[key];
    WholeRunAccounted(c, events, key);
    if Blocked(e, last) && e.failures >= c.maxFree && olderThan + 1 < Wait(c, e.failures) {
      var free := e.lastSeen + olderThan + 1;
      var now := if free < last then last else free;
      assert Blocked(e, now) && key !in Next(c, w, Sweeping(olderThan, now)).table;
    }
  }

  // ----- sequential attempts on one key

  /** Event `j` follows an admitted Ask for its key with no other failure of that key between them. */
  ghost predicate AdmittedBefore(c: Config, events: seq<Event>, key: Key, i: nat, j: nat)
    requires i < |events| && j < |events|
  {
    && i < j && events[i].Ask? && events[i].key == key
    && Admits(Run(c, events[..i]).table, key, events[i].now)
    && forall k | i < k < j :: !(events[k].Fail? && events[k].key == key)
  }

  /**
   Attempts on the key come one after the other: each failure was let in after the one before it was recorded. Requests
   on other keys, sweeps and resets may fall anywhere.
   */
  ghost predicate Sequential(c: Config, events: seq<Event>, key: Key) {
    forall j | 0 <= j < |events| && events[j].Fail? && events[j].key == key ::
      exists i: nat :: i < j && AdmittedBefore(c, events, key, i, j)
  }

  /** Without a failure of its own in between, a key still in the table is as it was. */
  lemma {:induction false} EntryStays(c: Config, events: seq<Event>, key: Key, i: nat, j: nat)
    requires i <= j <= |events| && key in Run(c, events[..j]).table
    requires forall k | i <= k < j :: !(events[k].Fail? && events[k].key == key)
    ensures key in Run(c, events[..i]).table && Run(c, events[..i]).table[key] == Run(c, events[..j]).table[key]
    decreases j
  {
    if i < j {
      RunOne(c, events, j - 1);
      EntryStays(c, events, key, i, j - 1);
    }
  }

  /** What must pass before the failure after `n` others. */
  function Gap(c: Config, n: nat): int {
    if n >= c.maxFree then Wait(c, n) else 0
  }

  ghost predicate Spaced(c: Config, times: seq<int>) {
    forall n | 1 <= n < |times| :: times[n] - times[n - 1] >= Gap(c, n)
  }

  lemma {:induction false} SpacedMore(c: Config, times: seq<int>, now: int)
    requires Spaced(c, times) && (times != [] ==> now - times[|times| - 1] >= Gap(c, |times|))
    ensures Spaced(c, times + [now])
  {
    forall n | 1 <= n < |times + [now]|
      ensures (times + [now])[n] - (times + [now])[n - 1] >= Gap(c, n)
    {
      if n < |times| {
        assert times[n] - times[n - 1] >= Gap(c, n);
      }
    }
  }

  lemma {:induction false} AdmittedAfterWait(c: Config, events: seq<Event>, key: Key, j: nat)
    requires Ordered(events) && Sequential(c, events, key)
    requires j < |events| && events[j].Fail? && events[j].key == key && key in Run(c, events[..j]).table
    ensures key in Run(c, events[..j]).log && Run(c, events[..j]).log[key] != []
    ensures var times := Run(c, events[..j]).log[key];
            events[j].now - times[|times| - 1] >= Gap(c, |times|)
  {
    var i: nat :| i < j && AdmittedBefore(c, events, key, i, j);
    EntryStays(c, events, key, i, j);
    EveryRunAccounted(c, events, j, events[j].now);
    assert Accounted(c, Run(c, events[..j]).table[key], Run(c, events[..j]).log[key]);
    assert events[i].now <= events[j].now;
  }

  lemma {:induction false} LogSpaced(c: Config, events: seq<Event>, key: Key, n: nat)
    requires Ordered(events) && Sequential(c, events, key) && n <= |events|
    ensures Spaced(c, Logged(Run(c, events[..n]).log, key))
  {
    if n > 0 {
      var j := n - 1;
      LogSpaced(c, events, key, j);
      RunOne(c, events, j);
      EveryRunAccounted(c, events, j, events[j].now);
      var times := Logged(Run(c, events[..j]).log, key);
      if events[j].Fail? && events[j].key == key {
        if key in Run(c, events[..j]).table {
          AdmittedAfterWait(c, events, key, j);
        }
        SpacedMore(c, times, events[j].now);
      }
    }
  }

  /** The waits between the first failure and the n-th, added up. */
  function TotalWait(c: Config, n: nat): int {
    if n <= 1 then 0 else TotalWait(c, n - 1) + Gap(c, n - 1)
  }

  lemma {:induction false} SpacedSpan(c: Config, times: seq<int>, n: nat)
    requires Spaced(c, times) && 0 < n <= |times|
    ensures times[n - 1] - times[0] >= TotalWait(c, n)
  {
    if n > 1 {
      SpacedSpan(c, times, n - 1);
      assert times[n - 1] - times[n - 2] >= Gap(c, n - 1);
    }
  }

  /**
   Where attempts on a key are sequential, the failures recorded against it since it was last cleared span at least the
   capped doubling waits between them.
   */
  lemma {:induction false} FailuresSpanWaits(c: Config, events: seq<Event>, key: Key)
    requires Ordered(events) && Sequential(c, events, key) && key in Run(c, events).table
    ensures key in Run(c, events).log && Run(c, events).table[key].failures == |Run(c, events).log[key]| > 0
    ensures Run(c, events).table[key].lastSeen - Run(c, events).log[key][0]
         >= TotalWait(c, Run(c, events).table[key].failures)
  {
    WholeRunAccounted(c, events, key);
    LogSpaced(c, events, key, |events|);
    assert events[..|events|] == events;
    var times := Run(c, events).log[key];
    SpacedSpan(c, times, |times|);
  }
}
