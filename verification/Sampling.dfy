/**
 Drawing an index without modulo bias (packages/vault/src/generator.ts). The byte source is the tape of bytes it will
 supply; a draw that would need more bytes than the tape holds has not finished.
 */
module Sampling {
  import opened Options
  import opened Bytes
  import opened Sequences

  function Power256(n: nat): (p: nat)
    ensures p >= 1
  {
    if n == 0 then 1 else 256 * Power256(n - 1)
  }

  /** The least number of bytes, at least one, that can reach `limit` values. */
  ghost predicate IsWidth(limit: int, width: nat) {
    && width >= 1 && Power256(width) >= limit
    && forall w | 1 <= w < width :: Power256(w) < limit
  }

  function Width(limit: int): (width: nat)
    ensures IsWidth(limit, width)
  {
    WidthFrom(limit, 1)
  }

  function WidthFrom(limit: int, width: nat): (least: nat)
    requires width >= 1 && forall w | 1 <= w < width :: Power256(w) < limit
    ensures IsWidth(limit, least)
    decreases limit - Power256(width)
  {
    if Power256(width) >= limit then width else WidthFrom(limit, width + 1)
  }

  lemma {:induction false} OneWidth(limit: int, a: nat, b: nat)
    requires IsWidth(limit, a) && IsWidth(limit, b)
    ensures a == b
  {
    assert a < b ==> Power256(a) < limit;
    assert b < a ==> Power256(b) < limit;
  }

  method ByteWidthFor(limit: int) returns (width: nat)
    ensures width == Width(limit)
  {
    width := 1;
    var range := 256;
    while range < limit
      invariant width >= 1 && range == Power256(width)
      invariant forall w | 1 <= w < width :: Power256(w) < limit
      decreases limit - range
    {
      width := width + 1;
      range := range * 256;
    }
    OneWidth(limit, width, Width(limit));
  }

  /** Most significant byte first. */
  function BigEndian(bytes: seq<byte>): nat {
    if bytes == [] then 0 else 256 * BigEndian(bytes[..|bytes| - 1]) + bytes[|bytes| - 1] as int
  }

  function Spelled(v: nat, width: nat): (bytes: seq<byte>)
    ensures |bytes| == width
    decreases width
  {
    if width == 0 then [] else Spelled(v / 256, width - 1) + [v % 256]
  }

  lemma {:induction false} BigEndianBound(bytes: seq<byte>)
    ensures BigEndian(bytes) < Power256(|bytes|)
  {
    if bytes != [] {
      BigEndianBound(bytes[..|bytes| - 1]);
    }
  }

  lemma {:induction false} BigEndianOfSpelled(v: nat, width: nat)
    requires v < Power256(width)
    ensures BigEndian(Spelled(v, width)) == v
    decreases width
  {
    if width > 0 {
      BigEndianOfSpelled(v / 256, width - 1);
      assert Spelled(v, width)[..width - 1] == Spelled(v / 256, width - 1);
    }
  }

  lemma {:induction false} SpelledOfBigEndian(bytes: seq<byte>)
    ensures Spelled(BigEndian(bytes), |bytes|) == bytes
  {
    if bytes != [] {
      var n := |bytes| - 1;
      SpelledOfBigEndian(bytes[..n]);
      assert BigEndian(bytes) / 256 == BigEndian(bytes[..n]);
    }
  }

  // ----- one draw

  function Ceiling(limit: nat, width: nat): nat
    requires limit >= 1
  {
    Power256(width) / limit * limit
  }

  /** What one draw of `width` bytes comes to: an index, or nothing when it is rejected. */
  function Draw(limit: nat, bytes: seq<byte>): Option<nat>
    requires limit >= 1
  {
    if BigEndian(bytes) < Ceiling(limit, |bytes|) then Some(BigEndian(bytes) % limit) else None
  }

  /** The first accepted draw off the tape, and the tape after it. */
  function Drawn(limit: nat, width: nat, tape: seq<byte>): Option<(nat, seq<byte>)>
    requires limit >= 1 && width >= 1
    decreases |tape|
  {
    if |tape| < width then None
    else
      match Draw(limit, tape[..width])
      case Some(index) => Some((index, tape[width..]))
      case None => Drawn(limit, width, tape[width..])
  }

  /** The index is that of the first draw accepted, each draw takes its own bytes, and the rest is left over. */
  lemma {:induction false} FirstAccepted(limit: nat, width: nat, tape: seq<byte>)
    returns (rejected: seq<seq<byte>>, last: seq<byte>)
    requires limit >= 1 && width >= 1 && Drawn(limit, width, tape).Some?
    ensures forall b | b in rejected :: |b| == width && Draw(limit, b) == None
    ensures |last| == width && Draw(limit, last) == Some(Drawn(limit, width, tape).value.0)
    ensures tape == Joined(rejected) + last + Drawn(limit, width, tape).value.1
    decreases |tape|
  {
    var first, rest := tape[..width], tape[width..];
    if Draw(limit, first).Some? {
      rejected, last := [], first;
    } else {
      var others;
      others, last := FirstAccepted(limit, width, rest);
      rejected := [first] + others;
      JoinedFirst(first, others, last, rest, Drawn(limit, width, rest).value.1);
    }
    assert tape == first + rest;
  }

  lemma {:induction false} JoinedFirst(
    first: seq<byte>, others: seq<seq<byte>>, last: seq<byte>, rest: seq<byte>, left: seq<byte>)
    requires rest == Joined(others) + last + left
    ensures first + rest == Joined([first] + others) + last + left
  {
    JoinedConcat([first], others);
    assert Joined([first]) == first;
  }

  datatype Outcome<+T> = Returned(value: T) | Unfinished | Threw

  method RandomIndex(limit: int, tape: seq<byte>) returns (r: Outcome<nat>, rest: seq<byte>)
    ensures r.Threw? <==> limit < 1
    ensures r.Returned? ==> Drawn(limit, Width(limit), tape) == Some((r.value, rest))
    ensures r.Unfinished? ==> Drawn(limit, Width(limit), tape) == None
  {
    rest := tape;
    if limit < 1 {
      return Threw, rest;
    }
    var width := ByteWidthFor(limit);
    var range := Power256(width);
    var ceiling := range / limit * limit;
    while true
      invariant Drawn(limit, width, tape) == Drawn(limit, width, rest)
      decreases |rest|
    {
      if |rest| < width {
        return Unfinished, rest;
      }
      ghost var before := rest;
      var value := 0;
      for i := 0 to width
        invariant value == BigEndian(rest[..i])
      {
        assert rest[..i + 1][..i] == rest[..i];
        value := value * 256 + rest[i] as int;
      }
      rest := rest[width..];
      if value < ceiling {
        return Returned(value % limit), rest;
      }
    }
  }

  // ----- every index is equally likely

  /** n times the limit, as a sum. */
  function Times(limit: nat, n: nat): nat {
    if n == 0 then 0 else Times(limit, n - 1) + limit
  }

  lemma {:induction false} TimesIsProduct(limit: nat, n: nat)
    ensures Times(limit, n) == n * limit
  {
    if n > 0 {
      TimesIsProduct(limit, n - 1);
      assert n * limit == (n - 1) * limit + limit;
    }
  }

  /** The strings of the width that spell k, k + limit, ..., k + (n - 1) * limit. */
  function Progression(limit: nat, width: nat, k: nat, n: nat): set<seq<byte>> {
    if n == 0 then {} else Progression(limit, width, k, n - 1) + {Spelled(Times(limit, n - 1) + k, width)}
  }

  lemma {:induction false} SpelledExactly(s: seq<byte>, v: nat, width: nat)
    requires v < Power256(width)
    ensures s == Spelled(v, width) <==> |s| == width && BigEndian(s) == v
  {
    BigEndianOfSpelled(v, width);
    SpelledOfBigEndian(s);
  }

  lemma {:induction false} TimesAtLeast(d: int, limit: nat)
    requires d >= 1
    ensures d * limit >= limit
  {
    assert d * limit == (d - 1) * limit + limit;
  }

  lemma {:induction false} ModuloOf(q: nat, limit: nat, r: nat)
    requires r < limit
    ensures (q * limit + r) % limit == r
  {
    var x := q * limit + r;
    var quotient, remainder := x / limit, x % limit;
    assert x == quotient * limit + remainder;
    assert (quotient - q) * limit == quotient * limit - q * limit;
    if quotient > q {
      TimesAtLeast(quotient - q, limit);
    } else if quotient < q {
      TimesAtLeast(q - quotient, limit);
    }
  }

  lemma {:induction false} TimesModulo(limit: nat, n: nat, r: nat)
    requires r < limit
    ensures (Times(limit, n) + r) % limit == r
  {
    TimesIsProduct(limit, n);
    ModuloOf(n, limit, r);
  }

  /** The numbers below the next bound with remainder k: those below this one, and one more. */
  lemma {:induction false} InRow(v: nat, limit: nat, n: nat, less: nat, k: nat)
    requires k < limit && less == Times(limit, n)
    ensures v < less + limit && v % limit == k <==> (v < less && v % limit == k) || v == less + k
  {
    if less <= v < less + limit {
      TimesModulo(limit, n, v - less);
    }
    TimesModulo(limit, n, k);
  }

  lemma {:induction false} ProgressionHolds(limit: nat, width: nat, k: nat, n: nat, s: seq<byte>)
    requires k < limit && Times(limit, n) <= Power256(width)
    ensures s in Progression(limit, width, k, n)
       <==> |s| == width && BigEndian(s) < Times(limit, n) && BigEndian(s) % limit == k
  {
    if n > 0 {
      var less := Times(limit, n - 1);
      ProgressionHolds(limit, width, k, n - 1, s);
      SpelledExactly(s, less + k, width);
      InRow(BigEndian(s), limit, n - 1, less, k);
    }
  }

  lemma {:induction false} ProgressionSize(limit: nat, width: nat, k: nat, n: nat)
    requires k < limit && Times(limit, n) <= Power256(width)
    ensures |Progression(limit, width, k, n)| == n
  {
    if n > 0 {
      var v := Times(limit, n - 1) + k;
      ProgressionSize(limit, width, k, n - 1);
      BigEndianOfSpelled(v, width);
      ProgressionHolds(limit, width, k, n - 1, Spelled(v, width));
    }
  }

  /** The byte strings of one draw that come to index `k`. */
  function Producing(limit: nat, width: nat, k: nat): set<seq<byte>>
    requires limit >= 1
  {
    Progression(limit, width, k, Power256(width) / limit)
  }

  lemma {:induction false} QuotientFits(range: nat, limit: nat)
    requires limit >= 1
    ensures range / limit * limit <= range
    ensures range / limit * limit == range - range % limit
  {
  }

  /**
   Each index below the limit is produced by the same number of byte strings of the width: the floor of 256^width over
   the limit.
   */
  lemma {:induction false} EveryIndexEquallyOften(limit: nat, width: nat, k: nat)
    requires IsWidth(limit, width) && k < limit
    ensures forall s: seq<byte> :: s in Producing(limit, width, k) <==> |s| == width && Draw(limit, s) == Some(k)
    ensures |Producing(limit, width, k)| == Power256(width) / limit
    ensures |Producing(limit, width, k)| >= 1
  {
    var n := Power256(width) / limit;
    QuotientFits(Power256(width), limit);
    TimesIsProduct(limit, n);
    ProgressionSize(limit, width, k, n);
    forall s: seq<byte>
      ensures s in Producing(limit, width, k) <==> |s| == width && Draw(limit, s) == Some(k)
    {
      ProgressionHolds(limit, width, k, n, s);
    }
  }

  /** All byte strings of the width whose value is below the bound. */
  function Below(width: nat, bound: nat): set<seq<byte>> {
    Progression(1, width, 0, bound)
  }

  /** More than half of the byte strings of the width are accepted. */
  lemma {:induction false} MoreThanHalfAccepted(limit: nat, width: nat)
    requires limit >= 1 && IsWidth(limit, width)
    ensures forall s: seq<byte> :: s in Below(width, Power256(width)) <==> |s| == width
    ensures forall s: seq<byte> :: s in Below(width, Ceiling(limit, width)) <==> |s| == width && Draw(limit, s).Some?
    ensures 2 * |Below(width, Ceiling(limit, width))| > |Below(width, Power256(width))|
  {
    var range, ceiling := Power256(width), Ceiling(limit, width);
    QuotientFits(range, limit);
    TimesIsProduct(1, range);
    TimesIsProduct(1, ceiling);
    ProgressionSize(1, width, 0, range);
    ProgressionSize(1, width, 0, ceiling);
    RemainderSmall(range, limit);
    forall s: seq<byte>
      ensures s in Below(width, range) <==> |s| == width
      ensures s in Below(width, ceiling) <==> |s| == width && Draw(limit, s).Some?
    {
      ProgressionHolds(1, width, 0, range, s);
      ProgressionHolds(1, width, 0, ceiling, s);
      BigEndianBound(s);
    }
  }

  lemma {:induction false} RemainderSmall(range: nat, limit: nat)
    requires 1 <= limit <= range
    ensures 2 * (range % limit) < range
  {
    QuotientFits(range, limit);
    AtLeastOnce(range / limit, limit, range % limit);
  }

  lemma {:induction false} AtLeastOnce(times: nat, limit: nat, rest: nat)
    requires rest < limit <= times * limit + rest
    ensures limit <= times * limit
  {
    if times >= 1 {
      assert times * limit == limit + (times - 1) * limit;
    }
  }
}
