/**
 Base64 (packages/crypto/src/encoding.ts; section 4 of RFC 4648), with the decoder's 32-bit accumulator that is shifted
 and never masked.
 */
module Base64 {
  import opened Options
  import opened Bytes
  import opened Sequences

  const UPPER: string := "ABCDEFGHIJKLMNOPQRSTUVWXYZ"
  const LOWER: string := "abcdefghijklmnopqrstuvwxyz"
  const OTHER: string := "0123456789+/"
  const ALPHABET: string := UPPER + LOWER + OTHER

  type sextet = v: nat | v < 64

  // ----- the alphabet

  /** The first position of a character, or -1. */
  function IndexOf(s: string, c: char): (k: int)
    ensures -1 <= k < |s|
    decreases s, c
  {
    if s == "" then -1
    else if s[0] == c then 0
    else
      var k := IndexOf(s[1..], c);
      if k < 0 then -1 else k + 1
  }

  lemma {:induction false} IndexOfSound(s: string, c: char)
    ensures IndexOf(s, c) >= 0 ==> s[IndexOf(s, c)] == c
    ensures IndexOf(s, c) < 0 ==> c !in s
    decreases s
  {
    if s != "" && s[0] != c {
      IndexOfSound(s[1..], c);
    }
  }

  /** `BASE64_ALPHABET.indexOf(c)`. */
  function Lookup(c: char): (v: int)
    ensures -1 <= v < 64
  {
    IndexOf(ALPHABET, c)
  }

  function Rank(c: char): int {
    if 'A' <= c <= 'Z' then c as int - 'A' as int
    else if 'a' <= c <= 'z' then c as int - 'a' as int + 26
    else if '0' <= c <= '9' then c as int - '0' as int + 52
    else if c == '+' then 62
    else 63
  }

  lemma {:induction false} RankOfUpper(v: nat)
    requires v < 26
    ensures Rank(UPPER[v]) == v
  {
  }

  lemma {:induction false} RankOfLower(v: nat)
    requires v < 26
    ensures Rank(LOWER[v]) == v + 26
  {
  }

  lemma {:induction false} RankOfOther(v: nat)
    requires v < 12
    ensures Rank(OTHER[v]) == v + 52
  {
  }

  lemma {:induction false} RankOf(v: sextet)
    ensures |ALPHABET| == 64 && Rank(ALPHABET[v]) == v
  {
    if v < 26 {
      RankOfUpper(v);
    } else if v < 52 {
      RankOfLower(v - 26);
    } else {
      RankOfOther(v - 52);
    }
  }

  lemma {:induction false} AlphabetIndex(v: sextet)
    ensures |ALPHABET| == 64 && Lookup(ALPHABET[v]) == v && ALPHABET[v] != '='
  {
    RankOf(v);
    IndexOfSound(ALPHABET, ALPHABET[v]);
    RankOf(Lookup(ALPHABET[v]));
  }

  // ----- encoding

  function Letter(v: sextet): (c: char)
    ensures c != '=' && Lookup(c) == v
  {
    AlphabetIndex(v);
    ALPHABET[v]
  }

  // The four sextets of three bytes.
  function First(b0: byte): sextet { b0 / 4 }
  function Second(b0: byte, b1: byte): sextet { b0 % 4 * 16 + b1 / 16 }
  function Third(b1: byte, b2: byte): sextet { b1 % 16 * 4 + b2 / 64 }
  function Fourth(b2: byte): sextet { b2 % 64 }

  /** `bytes[i]`, which past the end is undefined. */
  function At(bytes: seq<byte>, i: nat): Option<byte> {
    if i < |bytes| then Some(bytes[i]) else None
  }

  function OrZero(b: Option<byte>): byte {
    if b.None? then 0 else b.value
  }

  /** The four characters for up to three bytes: missing bits are zero, characters with no bits are padding. */
  function Quad(b0: byte, b1: Option<byte>, b2: Option<byte>): string {
    [Letter(First(b0)),
     Letter(Second(b0, OrZero(b1))),
     if b1.None? then '=' else Letter(Third(b1.value, OrZero(b2))),
     if b2.None? then '=' else Letter(Fourth(b2.value))]
  }

  function Encoded(bytes: seq<byte>): string
    decreases |bytes|
  {
    if bytes == [] then ""
    else Quad(bytes[0], At(bytes, 1), At(bytes, 2)) + Encoded(if |bytes| <= 3 then [] else bytes[3..])
  }

  lemma {:induction false} EncodedGroup(left: seq<byte>, quad: string, rest: seq<byte>)
    requires left != [] && quad == Quad(left[0], At(left, 1), At(left, 2))
    requires rest == if |left| <= 3 then [] else left[3..]
    ensures Encoded(left) == quad + Encoded(rest)
  {
  }

  lemma {:induction false} AtOnward(bytes: seq<byte>, i: nat)
    requires i < |bytes|
    ensures bytes[i..][0] == bytes[i] && At(bytes[i..], 1) == At(bytes, i + 1) && At(bytes[i..], 2) == At(bytes, i + 2)
  {
  }

  function From(bytes: seq<byte>, i: nat): seq<byte> {
    if i <= |bytes| then bytes[i..] else []
  }

  lemma {:induction false} FromOnward(bytes: seq<byte>, i: nat)
    requires i < |bytes|
    ensures From(bytes, i + 3) == if |bytes[i..]| <= 3 then [] else bytes[i..][3..]
  {
  }

  lemma {:induction false} EncodedOnward(bytes: seq<byte>, i: nat, quad: string, out: string)
    requires i < |bytes| && quad == Quad(bytes[i], At(bytes, i + 1), At(bytes, i + 2))
    requires out + Encoded(From(bytes, i)) == Encoded(bytes)
    ensures out + quad + Encoded(From(bytes, i + 3)) == Encoded(bytes)
  {
    AtOnward(bytes, i);
    FromOnward(bytes, i);
    EncodedGroup(bytes[i..], quad, From(bytes, i + 3));
    Associate(out, quad, Encoded(From(bytes, i + 3)));
  }

  lemma {:induction false} EncodedFrom(bytes: seq<byte>)
    ensures "" + Encoded(From(bytes, 0)) == Encoded(bytes)
  {
    assert From(bytes, 0) == bytes;
  }

  /** The next four characters. */
  method Group(bytes: seq<byte>, i: nat, ghost out: string) returns (quad: string)
    requires i < |bytes| && out + Encoded(From(bytes, i)) == Encoded(bytes)
    ensures out + quad + Encoded(From(bytes, i + 3)) == Encoded(bytes)
  {
    quad := Quad(bytes[i], At(bytes, i + 1), At(bytes, i + 2));
    EncodedOnward(bytes, i, quad, out);
  }

  method ToBase64(bytes: seq<byte>) returns (out: string)
    ensures out == Encoded(bytes)
  {
    out := "";
    var i: nat := 0;
    EncodedFrom(bytes);
    while i < |bytes|
      invariant out + Encoded(From(bytes, i)) == Encoded(bytes)
      decreases |bytes| - i
    {
      var quad := Group(bytes, i, out);
      out := out + quad;
      i := i + 3;
    }
    assert Encoded(From(bytes, i)) == "";
  }

  // ----- decoding

  /** Trailing padding removed, however much there is. */
  function Stripped(text: string): (clean: string)
    ensures |clean| <= |text|
  {
    if text != "" && text[|text| - 1] == '=' then Stripped(text[..|text| - 1]) else text
  }

  /** Bytes produced, and the bits that have arrived since: `bits` of them, spelling `pending`. */
  datatype State = State(out: seq<byte>, bits: nat, pending: nat)

  const START: State := State([], 0, 0)

  ghost predicate Sound(s: State) {
    || (s.bits == 0 && s.pending == 0)
    || (s.bits == 2 && s.pending < 4)
    || (s.bits == 4 && s.pending < 16)
    || (s.bits == 6 && s.pending < 64)
  }

  /** `x >> left`, for the numbers of bits that can be left over. */
  function High(x: int, left: nat): int {
    if left == 0 then x else if left == 2 then x / 4 else x / 16
  }

  /** The low bits of x, as many as are waiting. */
  function Low(x: int, bits: nat): nat {
    if bits == 0 then 0 else if bits == 2 then x % 4 else if bits == 4 then x % 16 else x % 64
  }

  /** One sextet read by a decoder that keeps exactly the bits it still needs. */
  function Feed(s: State, v: sextet): State {
    var p := s.pending * 64 + v;
    if s.bits < 2 then State(s.out, s.bits + 6, p)
    else State(s.out + [High(p, s.bits - 2) % 256], s.bits - 2, Low(p, s.bits - 2))
  }

  function FeedAll(s: State, values: seq<sextet>): State
    decreases |values|
  {
    if values == [] then s else FeedAll(Feed(s, values[0]), values[1..])
  }

  predicate Known(c: char) {
    Lookup(c) >= 0
  }

  /** The sextets of a text, when every character has one. */
  function Values(clean: string): seq<sextet>
    requires forall i | 0 <= i < |clean| :: Known(clean[i])
  {
    seq(|clean|, i requires 0 <= i < |clean| => SextetOf(clean[i]))
  }

  function SextetOf(c: char): sextet
    requires Known(c)
  {
    Lookup(c)
  }

  predicate Accepted(text: string) {
    var clean := Stripped(text);
    |clean| % 4 != 1 && forall i | 0 <= i < |clean| :: Known(clean[i])
  }

  function Decoded(text: string): Option<seq<byte>> {
    if Accepted(text) then Some(FeedAll(START, Values(Stripped(text))).out) else None
  }

  // ----- the accumulator that is never masked

  /** A 32-bit signed integer holds this much of a number. */
  function Int32(x: int): int {
    var r := x % 0x1_0000_0000;
    if r >= 0x8000_0000 then r - 0x1_0000_0000 else r
  }

  /** `(acc << 6) | value`: the shift leaves the low six bits zero, so the or adds. */
  function ShiftOr(acc: int, v: sextet): int {
    Int32(acc * 64) + v
  }

  /** Wrapping changes a number by whole multiples of 2^32. */
  lemma {:induction false} Int32Wraps(x: int) returns (k: int)
    ensures Int32(x) == x - 0x1_0000_0000 * k
    ensures -0x8000_0000 <= Int32(x) < 0x8000_0000
  {
    var q := x / 0x1_0000_0000;
    assert x == 0x1_0000_0000 * q + x % 0x1_0000_0000;
    k := if x % 0x1_0000_0000 >= 0x8000_0000 then q + 1 else q;
  }

  /** The accumulator's low bits are the pending ones; above them is whatever has not been pushed out yet. */
  ghost predicate Holds(acc: int, s: State) {
    Low(acc, s.bits) == s.pending
  }

  /** The accumulator after a sextet: the pending bits and the new ones, below a multiple of their weight. */
  lemma {:induction false} ShiftedHolds(acc: int, s: State, v: sextet) returns (m: int)
    requires Sound(s) && Holds(acc, s)
    ensures s.bits == 0 ==> ShiftOr(acc, v) == 64 * m + (s.pending * 64 + v)
    ensures s.bits == 2 ==> ShiftOr(acc, v) == 256 * m + (s.pending * 64 + v)
    ensures s.bits == 4 ==> ShiftOr(acc, v) == 1024 * m + (s.pending * 64 + v)
    ensures s.bits == 6 ==> ShiftOr(acc, v) == 4096 * m + (s.pending * 64 + v)
  {
    var k := Int32Wraps(acc * 64);
    if s.bits == 0 {
      m := acc - 0x400_0000 * k;
    } else if s.bits == 2 {
      m := acc / 4 - 0x100_0000 * k;
      assert acc == 4 * (acc / 4) + s.pending;
    } else if s.bits == 4 {
      m := acc / 16 - 0x40_0000 * k;
      assert acc == 16 * (acc / 16) + s.pending;
    } else {
      m := acc / 64 - 0x10_0000 * k;
      assert acc == 64 * (acc / 64) + s.pending;
    }
  }

  lemma {:induction false} ByteOf(m: int, b: byte)
    ensures (256 * m + b as int) % 256 == b
  {
  }

  lemma {:induction false} ExtractNone(x: int, m: int, p: nat)
    requires x == 256 * m + p && p < 256
    ensures High(x, 0) % 256 == High(p, 0) % 256 && Low(x, 0) == Low(p, 0)
  {
    ByteOf(m, p);
  }

  lemma {:induction false} ExtractTwo(x: int, m: int, p: nat)
    requires x == 1024 * m + p && p < 1024
    ensures High(x, 2) % 256 == High(p, 2) % 256 && Low(x, 2) == Low(p, 2)
  {
    assert p == 4 * (p / 4) + p % 4;
    assert x == 4 * (256 * m + p / 4) + p % 4;
    assert x / 4 == 256 * m + p / 4;
    ByteOf(m, p / 4);
  }

  lemma {:induction false} ExtractFour(x: int, m: int, p: nat)
    requires x == 4096 * m + p && p < 4096
    ensures High(x, 4) % 256 == High(p, 4) % 256 && Low(x, 4) == Low(p, 4)
  {
    assert p == 16 * (p / 16) + p % 16;
    assert x == 16 * (256 * m + p / 16) + p % 16;
    assert x / 16 == 256 * m + p / 16;
    ByteOf(m, p / 16);
  }

  lemma {:induction false} FedByte(x: int, s: State, v: sextet, p: nat)
    requires s.bits >= 2 && p == s.pending * 64 + v
    requires High(x, s.bits - 2) % 256 == High(p, s.bits - 2) % 256 && Low(x, s.bits - 2) == Low(p, s.bits - 2)
    ensures Holds(x, Feed(s, v)) && Feed(s, v).out == s.out + [High(x, s.bits - 2) % 256]
  {
  }

  lemma {:induction false} FedNone(x: int, s: State, v: sextet, m: int)
    requires s.bits == 0 && s.pending == 0 && x == 64 * m + v
    ensures Holds(x, Feed(s, v))
  {
    assert x % 64 == v;
  }

  /** What a sextet does to any accumulator whose low bits are the pending ones and the new ones. */
  lemma {:induction false} FedFrom(x: int, s: State, v: sextet, m: int, p: nat)
    requires Sound(s) && s.bits >= 2 && p == s.pending * 64 + v
    requires s.bits == 2 ==> x == 256 * m + p
    requires s.bits == 4 ==> x == 1024 * m + p
    requires s.bits == 6 ==> x == 4096 * m + p
    ensures Holds(x, Feed(s, v)) && Feed(s, v).out == s.out + [High(x, s.bits - 2) % 256]
  {
    if s.bits == 2 {
      ExtractNone(x, m, p);
    } else if s.bits == 4 {
      ExtractTwo(x, m, p);
    } else {
      ExtractFour(x, m, p);
    }
    FedByte(x, s, v, p);
  }

  /** No bit still needed is lost: the byte taken from the accumulator is the exact one, and the rest stays there. */
  lemma {:induction false} FeedHolds(acc: int, s: State, v: sextet)
    requires Sound(s) && Holds(acc, s)
    ensures Holds(ShiftOr(acc, v), Feed(s, v))
    ensures s.bits >= 2 ==> Feed(s, v).out == s.out + [High(ShiftOr(acc, v), s.bits - 2) % 256]
  {
    var m := ShiftedHolds(acc, s, v);
    if s.bits == 0 {
      FedNone(ShiftOr(acc, v), s, v, m);
    } else {
      FedFrom(ShiftOr(acc, v), s, v, m, s.pending * 64 + v);
    }
  }

  lemma {:induction false} FeedAllSnoc(s: State, values: seq<sextet>, v: sextet)
    ensures FeedAll(s, values + [v]) == Feed(FeedAll(s, values), v)
    decreases |values|
  {
    if values != [] {
      assert (values + [v])[1..] == values[1..] + [v];
      FeedAllSnoc(Feed(s, values[0]), values[1..], v);
    }
  }

  /** Every bit fed is in a byte produced or pending. */
  lemma {:induction false} FeedAllCounts(s: State, values: seq<sextet>)
    requires Sound(s)
    ensures Sound(FeedAll(s, values))
    ensures 8 * |FeedAll(s, values).out| + FeedAll(s, values).bits == 8 * |s.out| + s.bits + 6 * |values|
    decreases |values|
  {
    if values != [] {
      FeedSound(s, values[0]);
      FeedAllCounts(Feed(s, values[0]), values[1..]);
    }
  }

  lemma {:induction false} FeedSound(s: State, v: sextet)
    requires Sound(s)
    ensures Sound(Feed(s, v))
    ensures 8 * |Feed(s, v).out| + Feed(s, v).bits == 8 * |s.out| + s.bits + 6
  {
  }

  /** An accepted text fills the output buffer exactly. */
  lemma {:induction false} FilledExactly(text: string)
    requires Accepted(text)
    ensures |Decoded(text).value| == |Stripped(text)| * 6 / 8
  {
    FeedAllCounts(START, Values(Stripped(text)));
  }

  /** Where the decoder is after `i` characters. */
  ghost predicate Reached(clean: string, i: nat, s: State, acc: int)
    requires i <= |clean|
  {
    && (forall j | 0 <= j < i :: Known(clean[j]))
    && s == FeedAll(START, Values(clean[..i])) && Sound(s) && Holds(acc, s)
    && 8 * |s.out| + s.bits == 6 * i
  }

  lemma {:induction false} ReachedStart(clean: string)
    ensures Reached(clean, 0, START, 0)
  {
  }

  lemma {:induction false} ReachedNext(clean: string, i: nat, s: State, acc: int)
    requires i < |clean| && Reached(clean, i, s, acc) && Known(clean[i])
    ensures Reached(clean, i + 1, Feed(s, SextetOf(clean[i])), ShiftOr(acc, SextetOf(clean[i])))
    ensures s.bits >= 2 ==>
      Feed(s, SextetOf(clean[i])).out == s.out + [High(ShiftOr(acc, SextetOf(clean[i])), s.bits - 2) % 256]
  {
    var v := SextetOf(clean[i]);
    FedOneMore(clean, i);
    FeedSound(s, v);
    FeedHolds(acc, s, v);
  }

  lemma {:induction false} ReachedEnd(text: string, clean: string, s: State, acc: int)
    requires clean == Stripped(text) && |clean| % 4 != 1 && Reached(clean, |clean|, s, acc)
    ensures Decoded(text) == Some(s.out) && |s.out| == |clean| * 6 / 8
  {
    assert clean[..|clean|] == clean;
  }

  lemma {:induction false} Rejected(text: string, i: nat)
    requires i < |Stripped(text)| && !Known(Stripped(text)[i])
    ensures Decoded(text) == None
  {
  }

  /** A buffer for all the whole bytes of so many sextets. */
  predicate Sized(bytes: nat, sextets: nat) {
    8 * bytes <= 6 * sextets < 8 * bytes + 8
  }

  lemma {:induction false} Room(clean: string, i: nat, s: State, acc: int, size: nat)
    requires i < |clean| && Reached(clean, i, s, acc) && Sized(size, |clean|)
    ensures |s.out| <= size && (s.bits >= 2 ==> |s.out| < size)
  {
  }

  /** One turn of the loop: a sextet into the accumulator, and a byte out of it when there are eight bits. */
  method Take(out: array<byte>, acc: int, bits: nat, index: nat, value: sextet, ghost s: State, ghost t: State)
    returns (acc': int, bits': nat, index': nat)
    requires bits == s.bits && index == |s.out| <= out.Length && out[..index] == s.out && Sound(s)
    requires s.bits >= 2 ==> index < out.Length
    requires t == Feed(s, value)
    requires s.bits >= 2 ==> t.out == s.out + [High(ShiftOr(acc, value), s.bits - 2) % 256]
    modifies out
    ensures acc' == ShiftOr(acc, value) && bits' == t.bits && index' == |t.out| <= out.Length && out[..index'] == t.out
  {
    acc' := ShiftOr(acc, value);
    bits' := bits + 6;
    index' := index;
    if bits' >= 8 {
      bits' := bits' - 8;
      out[index'] := High(acc', bits') % 256;
      index' := index' + 1;
    }
  }

  /** The buffer holds what has been produced so far. */
  ghost predicate Holding(out: array<byte>, bits: nat, index: nat, s: State)
    reads out
  {
    bits == s.bits && index == |s.out| <= out.Length && out[..index] == s.out
  }

  method Turn(clean: string, i: nat, out: array<byte>, acc: int, bits: nat, index: nat, value: sextet, ghost s: State)
    returns (acc': int, bits': nat, index': nat, ghost t: State)
    requires i < |clean| && Reached(clean, i, s, acc) && Holding(out, bits, index, s) && Sized(out.Length, |clean|)
    requires value == Lookup(clean[i])
    modifies out
    ensures Reached(clean, i + 1, t, acc') && Holding(out, bits', index', t)
  {
    Room(clean, i, s, acc, out.Length);
    ReachedNext(clean, i, s, acc);
    t := Feed(s, value);
    acc', bits', index' := Take(out, acc, bits, index, value, s, t);
  }

  /** The loop: the first unknown character stops it; otherwise the buffer holds all that the text produces. */
  method DecodeInto(clean: string, out: array<byte>) returns (bad: Option<nat>, ghost s: State, ghost last: int)
    requires Sized(out.Length, |clean|)
    modifies out
    ensures bad.Some? ==> bad.value < |clean| && !Known(clean[bad.value])
    ensures bad.None? ==> Reached(clean, |clean|, s, last) && Holding(out, s.bits, |s.out|, s)
  {
    var bits: nat, acc, index: nat := 0, 0, 0;
    s := START;
    ReachedStart(clean);
    for i := 0 to |clean|
      invariant Reached(clean, i, s, acc) && Holding(out, bits, index, s)
    {
      var value := Lookup(clean[i]);
      if value < 0 {
        return Some(i), s, acc;
      }
      acc, bits, index, s := Turn(clean, i, out, acc, bits, index, value, s);
    }
    bad, last := None, acc;
  }

  method FromBase64(text: string) returns (r: Option<seq<byte>>)
    ensures r == Decoded(text)
  {
    var clean := Strip(text);
    if |clean| % 4 == 1 {
      return None;
    }
    var out := new byte[|clean| * 6 / 8](_ => 0);
    var bad, s, acc := DecodeInto(clean, out);
    if bad.Some? {
      Rejected(text, bad.value);
      return None;
    }
    ReachedEnd(text, clean, s, acc);
    r := Whole(out, s);
  }

  method Whole(out: array<byte>, ghost s: State) returns (r: Option<seq<byte>>)
    requires Holding(out, s.bits, |s.out|, s) && |s.out| == out.Length
    ensures r == Some(s.out)
  {
    assert out[..] == out[..|s.out|];
    r := Some(out[..]);
  }

  method Strip(text: string) returns (clean: string)
    ensures clean == Stripped(text)
  {
    clean := text;
    while clean != "" && clean[|clean| - 1] == '='
      invariant Stripped(clean) == Stripped(text)
      decreases |clean|
    {
      clean := clean[..|clean| - 1];
    }
  }

  lemma {:induction false} FedOneMore(clean: string, i: nat)
    requires i < |clean| && forall j | 0 <= j <= i :: Known(clean[j])
    ensures FeedAll(START, Values(clean[..i + 1])) == Feed(FeedAll(START, Values(clean[..i])), SextetOf(clean[i]))
  {
    assert Values(clean[..i + 1]) == Values(clean[..i]) + [SextetOf(clean[i])];
    FeedAllSnoc(START, Values(clean[..i]), SextetOf(clean[i]));
  }

  // ----- round trip

  /** The sextets of a byte string. */
  function Sextets(bytes: seq<byte>): seq<sextet>
    decreases |bytes|
  {
    if bytes == [] then []
    else if |bytes| == 1 then [First(bytes[0]), Second(bytes[0], 0)]
    else if |bytes| == 2 then [First(bytes[0]), Second(bytes[0], bytes[1]), Third(bytes[1], 0)]
    else
      [First(bytes[0]), Second(bytes[0], bytes[1]), Third(bytes[1], bytes[2]), Fourth(bytes[2])] + Sextets(bytes[3..])
  }

  lemma {:induction false} TwoBits(b0: byte, r: nat)
    requires r < 16
    ensures (b0 / 4) * 64 + (b0 % 4 * 16 + r) == 16 * b0 as int + r
    ensures (16 * b0 as int + r) / 16 == b0 && (16 * b0 as int + r) % 16 == r
  {
    assert b0 == 4 * (b0 / 4) + b0 % 4;
  }

  lemma {:induction false} FourBits(b1: byte, r: nat)
    requires r < 4
    ensures (b1 / 16) * 64 + (b1 % 16 * 4 + r) == 4 * b1 as int + r
    ensures (4 * b1 as int + r) / 4 == b1 && (4 * b1 as int + r) % 4 == r
  {
    assert b1 == 16 * (b1 / 16) + b1 % 16;
  }

  lemma {:induction false} FeedFirst(out: seq<byte>, b0: byte)
    ensures Feed(State(out, 0, 0), First(b0)) == State(out, 6, b0 / 4)
  {
  }

  /** A sextet that completes a byte. */
  lemma {:induction false} FeedByte(s: State, v: sextet, p: nat, b: byte, r: nat)
    requires s.bits >= 2 && p == s.pending * 64 + v
    requires High(p, s.bits - 2) == b && Low(p, s.bits - 2) == r
    ensures Feed(s, v) == State(s.out + [b], s.bits - 2, r)
  {
    assert b % 256 == b;
  }

  lemma {:induction false} FeedSecond(out: seq<byte>, b0: byte, b1: byte)
    ensures Feed(State(out, 6, b0 / 4), Second(b0, b1)) == State(out + [b0], 4, b1 / 16)
  {
    TwoBits(b0, b1 / 16);
    FeedByte(State(out, 6, b0 / 4), Second(b0, b1), 16 * b0 as int + b1 / 16, b0, b1 / 16);
  }

  lemma {:induction false} FeedOne(out: seq<byte>, b0: byte, b1: byte)
    ensures Feed(Feed(State(out, 0, 0), First(b0)), Second(b0, b1)) == State(out + [b0], 4, b1 / 16)
  {
    FeedFirst(out, b0);
    FeedSecond(out, b0, b1);
  }

  lemma {:induction false} FeedMiddle(out: seq<byte>, b1: byte, b2: byte)
    ensures Feed(State(out, 4, b1 / 16), Third(b1, b2)) == State(out + [b1], 2, b2 / 64)
  {
    FourBits(b1, b2 / 64);
    FeedByte(State(out, 4, b1 / 16), Third(b1, b2), 4 * b1 as int + b2 / 64, b1, b2 / 64);
  }

  lemma {:induction false} FeedLast(out: seq<byte>, b2: byte)
    ensures Feed(State(out, 2, b2 / 64), Fourth(b2)) == State(out + [b2], 0, 0)
  {
    assert b2 == 64 * (b2 / 64) + b2 % 64;
    FeedByte(State(out, 2, b2 / 64), Fourth(b2), b2, b2, 0);
  }

  lemma {:induction false} FeedFour(s: State, values: seq<sextet>)
    requires |values| >= 4
    ensures FeedAll(s, values)
            == FeedAll(Feed(Feed(Feed(Feed(s, values[0]), values[1]), values[2]), values[3]), values[4..])
  {
    var t := Feed(Feed(s, values[0]), values[1]);
    FeedPair(s, values);
    FeedPair(t, values[2..]);
    assert values[2..][2..] == values[4..];
  }

  lemma {:induction false} FeedPair(s: State, values: seq<sextet>)
    requires |values| >= 2
    ensures FeedAll(s, values) == FeedAll(Feed(Feed(s, values[0]), values[1]), values[2..])
  {
    assert values[1..][1..] == values[2..];
  }

  lemma {:induction false} FeedsThree(out: seq<byte>, b0: byte, b1: byte, b2: byte, rest: seq<sextet>)
    ensures FeedAll(State(out, 0, 0), [First(b0), Second(b0, b1), Third(b1, b2), Fourth(b2)] + rest)
         == FeedAll(State(out + [b0] + [b1] + [b2], 0, 0), rest)
  {
    var values := [First(b0), Second(b0, b1), Third(b1, b2), Fourth(b2)] + rest;
    FeedFour(State(out, 0, 0), values);
    FeedOne(out, b0, b1);
    FeedMiddle(out + [b0], b1, b2);
    FeedLast(out + [b0] + [b1], b2);
    assert values[4..] == rest;
  }

  lemma {:induction false} FeedsTwo(out: seq<byte>, b0: byte, b1: byte)
    ensures FeedAll(State(out, 0, 0), [First(b0), Second(b0, b1), Third(b1, 0)]).out == out + [b0] + [b1]
  {
    var values := [First(b0), Second(b0, b1), Third(b1, 0)];
    FeedPair(State(out, 0, 0), values);
    FeedOne(out, b0, b1);
    FeedMiddle(out + [b0], b1, 0);
    var t := State(out + [b0], 4, b1 / 16);
    assert values[2..] == [values[2]] && FeedAll(t, [values[2]]) == Feed(t, values[2]);
  }

  lemma {:induction false} FeedsOne(out: seq<byte>, b0: byte)
    ensures FeedAll(State(out, 0, 0), [First(b0), Second(b0, 0)]).out == out + [b0]
  {
    FeedPair(State(out, 0, 0), [First(b0), Second(b0, 0)]);
    FeedOne(out, b0, 0);
  }

  lemma {:induction false} FeedSextetsLast(out: seq<byte>, bytes: seq<byte>)
    requires |bytes| < 3
    ensures FeedAll(State(out, 0, 0), Sextets(bytes)).out == out + bytes
  {
    if |bytes| == 0 {
      assert out + bytes == out;
    } else if |bytes| == 1 {
      FeedsOne(out, bytes[0]);
      assert bytes == [bytes[0]];
    } else {
      FeedsTwo(out, bytes[0], bytes[1]);
      assert out + [bytes[0]] + [bytes[1]] == out + bytes;
    }
  }

  lemma {:induction false} FeedSextetsMore(out: seq<byte>, bytes: seq<byte>, more: seq<byte>)
    requires |bytes| >= 3 && more == out + [bytes[0]] + [bytes[1]] + [bytes[2]]
    ensures FeedAll(State(out, 0, 0), Sextets(bytes)) == FeedAll(State(more, 0, 0), Sextets(bytes[3..]))
    ensures more + bytes[3..] == out + bytes
  {
    FeedsThree(out, bytes[0], bytes[1], bytes[2], Sextets(bytes[3..]));
    ThreeInFront(out, bytes);
  }

  lemma {:induction false} ThreeInFront(out: seq<byte>, bytes: seq<byte>)
    requires |bytes| >= 3
    ensures out + [bytes[0]] + [bytes[1]] + [bytes[2]] + bytes[3..] == out + bytes
  {
  }

  /** The sextets of a byte string feed back into it. */
  lemma {:induction false} FeedSextets(out: seq<byte>, bytes: seq<byte>)
    ensures FeedAll(State(out, 0, 0), Sextets(bytes)).out == out + bytes
    decreases |bytes|
  {
    if |bytes| < 3 {
      FeedSextetsLast(out, bytes);
    } else {
      var more := out + [bytes[0]] + [bytes[1]] + [bytes[2]];
      FeedSextetsMore(out, bytes, more);
      FeedSextets(more, bytes[3..]);
    }
  }

  function Letters(values: seq<sextet>): (s: string)
    ensures |s| == |values|
  {
    seq(|values|, i requires 0 <= i < |values| => Letter(values[i]))
  }

  lemma {:induction false} ValuesOfLetters(values: seq<sextet>)
    ensures forall i | 0 <= i < |values| :: Known(Letters(values)[i])
    ensures Values(Letters(values)) == values
  {
  }

  lemma {:induction false} StrippedConcat(a: string, b: string)
    requires Stripped(b) != ""
    ensures Stripped(a + b) == a + Stripped(b)
    decreases |b|
  {
    var n := |b| - 1;
    assert (a + b)[|a + b| - 1] == b[n];
    if b[n] == '=' {
      assert (a + b)[..|a + b| - 1] == a + b[..n];
      StrippedConcat(a, b[..n]);
    }
  }

  lemma {:induction false} StrippedBare(a: string)
    requires a != "" && a[|a| - 1] != '='
    ensures Stripped(a) == a && Stripped(a + "=") == a && Stripped(a + "==") == a
  {
    assert (a + "=")[..|a|] == a;
    assert (a + "==")[..|a| + 1] == a + "=";
  }

  lemma {:induction false} LettersConcat(a: seq<sextet>, b: seq<sextet>)
    ensures Letters(a + b) == Letters(a) + Letters(b)
  {
    forall i | 0 <= i < |a| + |b|
      ensures Letters(a + b)[i] == (Letters(a) + Letters(b))[i]
    {
      assert (a + b)[i] == if i < |a| then a[i] else b[i - |a|];
    }
  }

  lemma {:induction false} LettersBare(values: seq<sextet>)
    requires values != []
    ensures Stripped(Letters(values)) == Letters(values)
    ensures Stripped(Letters(values) + "=") == Letters(values) && Stripped(Letters(values) + "==") == Letters(values)
  {
    StrippedBare(Letters(values));
  }

  lemma {:induction false} QuadOfOne(b0: byte)
    ensures Quad(b0, None, None) == Letters([First(b0), Second(b0, 0)]) + "=="
  {
  }

  lemma {:induction false} QuadOfTwo(b0: byte, b1: byte)
    ensures Quad(b0, Some(b1), None) == Letters([First(b0), Second(b0, b1), Third(b1, 0)]) + "="
  {
  }

  lemma {:induction false} QuadOfThree(b0: byte, b1: byte, b2: byte)
    ensures Quad(b0, Some(b1), Some(b2)) == Letters([First(b0), Second(b0, b1), Third(b1, b2), Fourth(b2)])
  {
  }

  lemma {:induction false} EncodedLast(bytes: seq<byte>)
    requires 0 < |bytes| <= 3
    ensures Encoded(bytes) == Quad(bytes[0], At(bytes, 1), At(bytes, 2))
  {
    assert Encoded([]) == "";
  }

  lemma {:induction false} StrippedMore(quad: string, four: seq<sextet>, rest: string, values: seq<sextet>)
    requires quad == Letters(four) && Stripped(rest) == Letters(values) && values != []
    ensures Stripped(quad + rest) == Letters(four + values)
  {
    LettersConcat(four, values);
    StrippedConcat(quad, rest);
  }

  lemma {:induction false} SextetsMore(bytes: seq<byte>, four: seq<sextet>, rest: seq<byte>)
    requires |bytes| > 3 && rest == bytes[3..]
    requires four == [First(bytes[0]), Second(bytes[0], bytes[1]), Third(bytes[1], bytes[2]), Fourth(bytes[2])]
    ensures Sextets(bytes) == four + Sextets(rest) && Sextets(rest) != []
  {
  }

  lemma {:induction false} FourMore(n: nat)
    requires n % 4 != 1
    ensures (4 + n) % 4 != 1
  {
  }

  lemma {:induction false} SextetsSize(bytes: seq<byte>)
    ensures |bytes| == 0 ==> |Sextets(bytes)| == 0
    ensures |bytes| == 1 ==> |Sextets(bytes)| == 2
    ensures |bytes| == 2 ==> |Sextets(bytes)| == 3
    ensures |bytes| >= 3 ==> |Sextets(bytes)| == 4 + |Sextets(bytes[3..])|
  {
  }

  lemma {:induction false} SextetsCount(bytes: seq<byte>)
    ensures |Sextets(bytes)| % 4 != 1
    decreases |bytes|
  {
    SextetsSize(bytes);
    if |bytes| >= 3 {
      SextetsCount(bytes[3..]);
      FourMore(|Sextets(bytes[3..])|);
    }
  }

  /** Without its padding an encoding is the letters of its sextets. */
  lemma {:induction false} StrippedEncoded(bytes: seq<byte>)
    ensures Stripped(Encoded(bytes)) == Letters(Sextets(bytes))
    decreases |bytes|
  {
    if |bytes| == 0 {
    } else if |bytes| <= 3 {
      StrippedLast(bytes);
    } else {
      var four := [First(bytes[0]), Second(bytes[0], bytes[1]), Third(bytes[1], bytes[2]), Fourth(bytes[2])];
      var rest := bytes[3..];
      StrippedEncoded(rest);
      QuadOfThree(bytes[0], bytes[1], bytes[2]);
      EncodedGroup(bytes, Letters(four), rest);
      SextetsMore(bytes, four, rest);
      StrippedMore(Letters(four), four, Encoded(rest), Sextets(rest));
    }
  }

  lemma {:induction false} StrippedLast(bytes: seq<byte>)
    requires 0 < |bytes| <= 3
    ensures Stripped(Encoded(bytes)) == Letters(Sextets(bytes))
  {
    EncodedLast(bytes);
    LettersBare(Sextets(bytes));
    if |bytes| == 1 {
      QuadOfOne(bytes[0]);
    } else if |bytes| == 2 {
      QuadOfTwo(bytes[0], bytes[1]);
    } else {
      QuadOfThree(bytes[0], bytes[1], bytes[2]);
      assert Sextets(bytes)
          == [First(bytes[0]), Second(bytes[0], bytes[1]), Third(bytes[1], bytes[2]), Fourth(bytes[2])];
    }
  }

  /** Decoding an encoding returns the original bytes. */
  lemma {:induction false} RoundTrip(bytes: seq<byte>)
    ensures Decoded(Encoded(bytes)) == Some(bytes)
  {
    StrippedEncoded(bytes);
    SextetsCount(bytes);
    ValuesOfLetters(Sextets(bytes));
    FeedSextets([], bytes);
    assert [] + bytes == bytes;
  }
}
