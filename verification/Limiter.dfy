/**
 The failure limiter with exponential backoff (internal/auth/ratelimit.go). Each method takes the reading of the clock
 it makes. Durations and instants are nanoseconds; an instant that was never set lies before every reading.
 */
module Limiter {
  import opened Options
  import opened Bytes

  type Key = string

  const MAX_DURATION: int := 0x7fff_ffff_ffff_ffff

  datatype Entry = Entry(failures: nat, lastSeen: int, blockedTo: Option<int>)

  /**
   The settings. `overflow` is what converting a float64 too large for 64 bits gives: the language leaves it to the
   machine, and it is the most negative or the most positive value.
   */
  datatype Config = Config(maxFree: int, baseWait: int, maxWait: int, overflow: int)

  ghost predicate Sane(c: Config) {
    c.maxWait <= MAX_DURATION && (c.overflow <= 0 || c.overflow == MAX_DURATION)
  }

  function ToDuration(c: Config, x: int): int {
    if x > MAX_DURATION then c.overflow else x
  }

  /** The base wait, doubled for each failure past the free ones. */
  function Doubled(c: Config, failures: int): int
    requires failures >= c.maxFree
    decreases failures - c.maxFree
  {
    if failures == c.maxFree then c.baseWait else 2 * Doubled(c, failures - 1)
  }

  /** How long the given failure blocks the key. */
  function Wait(c: Config, failures: int): int
    requires failures >= c.maxFree
  {
    var wait := ToDuration(c, Doubled(c, failures));
    if wait > c.maxWait || wait <= 0 then c.maxWait else wait
  }

  predicate Blocked(e: Entry, now: int) {
    e.blockedTo.Some? && now < e.blockedTo.value
  }

  type Table = map<Key, Entry>

  predicate Admits(t: Table, key: Key, now: int) {
    key in t ==> !Blocked(t[key], now)
  }

  function Failed(c: Config, t: Table, key: Key, now: int): Table {
    var e := if key in t then t[key] else Entry(0, now, None);
    var n := e.failures + 1;
    t[key := Entry(n, now, if n < c.maxFree then e.blockedTo else Some(now + Wait(c, n)))]
  }

  function Swept(t: Table, cutoff: int): Table {
    map key | key in t && !(t[key].lastSeen < cutoff) :: t[key]
  }

  // ----- the methods

  class Limiter {
    const config: Config
    var entries: Table

    constructor (config: Config)
      ensures this.config == config && entries == map[]
    {
      this.config := config;
      entries := map[];
    }

    method Allow(key: Key, now: int) returns (ok: bool, wait: int)
      ensures ok == Admits(entries, key, now)
      ensures if ok then wait == 0 else wait == entries[key].blockedTo.value - now && wait > 0
    {
      if key !in entries {
        return true, 0;
      }
      var e := entries[key];
      if e.blockedTo.Some? && now < e.blockedTo.value {
        return false, e.blockedTo.value - now;
      }
      return true, 0;
    }

    method RecordFailure(key: Key, now: int)
      modifies this`entries
      ensures entries == Failed(config, old(entries), key, now)
    {
      var e := if key in entries then entries[key] else Entry(0, now, None);
      e := e.(failures := e.failures + 1, lastSeen := now);
      if e.failures >= config.maxFree {
        DoubledIsPower(config, e.failures);
        var wait := ToDuration(config, config.baseWait * Power2(e.failures - config.maxFree));
        if wait > config.maxWait || wait <= 0 {
          wait := config.maxWait;
        }
        e := e.(blockedTo := Some(now + wait));
      }
      entries := entries[key := e];
    }

    method Reset(key: Key)
      modifies this`entries
      ensures entries == old(entries) - {key}
    {
      entries := entries - {key};
    }

    method Sweep(olderThan: int, now: int)
      modifies this`entries
      ensures entries == Swept(old(entries), now - olderThan)
    {
      var cutoff := now - olderThan;
      var all := entries;
      var left := entries.Keys;
      while left != {}
        invariant left <= all.Keys
        invariant forall key :: key in entries <==> key in all && (key in left || !(all[key].lastSeen < cutoff))
        invariant forall key | key in entries :: entries[key] == all[key]
        decreases |left|
      {
        var key :| key in left;
        if all[key].lastSeen < cutoff {
          entries := entries - {key};
        }
        left := left - {key};
      }
    }
  }

  // ----- the waits

  lemma {:induction false} DoubledIsPower(c: Config, failures: int)
    requires failures >= c.maxFree
    ensures Doubled(c, failures) == c.baseWait * Power2(failures - c.maxFree)
    decreases failures - c.maxFree
  {
    if failures > c.maxFree {
      DoubledIsPower(c, failures - 1);
      var p := Power2(failures - 1 - c.maxFree);
      assert 2 * (c.baseWait * p) == c.baseWait * (2 * p);
    }
  }

  lemma {:induction false} DoubledSign(c: Config, failures: int)
    requires failures >= c.maxFree
    ensures Doubled(c, failures) > 0 <==> c.baseWait > 0
    decreases failures - c.maxFree
  {
    if failures > c.maxFree {
      DoubledSign(c, failures - 1);
    }
  }

  /** The capped doubling: the least of the doubled base and the cap, whatever the machine's conversion gives. */
  lemma {:induction false} WaitIsCappedDoubling(c: Config, failures: int)
    requires Sane(c) && failures >= c.maxFree
    ensures Wait(c, failures) == if 0 < Doubled(c, failures) <= c.maxWait then Doubled(c, failures) else c.maxWait
  {
  }

  lemma {:induction false} WaitGrows(c: Config, failures: int)
    requires Sane(c) && failures >= c.maxFree
    ensures Wait(c, failures) <= Wait(c, failures + 1) <= c.maxWait
  {
    WaitIsCappedDoubling(c, failures);
    WaitIsCappedDoubling(c, failures + 1);
    DoubledSign(c, failures);
    DoubledSign(c, failures + 1);
  }

  lemma {:induction false} WaitMonotone(c: Config, a: int, b: int)
    requires Sane(c) && c.maxFree <= a <= b
    ensures Wait(c, a) <= Wait(c, b) <= c.maxWait
    decreases b - a
  {
    if a == b {
      WaitGrows(c, a);
    } else {
      WaitMonotone(c, a, b - 1);
      WaitGrows(c, b - 1);
    }
  }
}
