/**
 What base64 does to bits (section 4 of RFC 4648): a text is the bits of its bytes read six at a time. Bits go in pairs
 here, four to a byte and three to a character, most significant first. Said of every byte string and of every text the
 decoder accepts, whoever wrote it.
 */
module Base64Bits {
  import opened Bytes
  import opened Sequences
  import opened Base64

  function OfByte(b: byte): (pairs: seq<nat>)
    ensures |pairs| == 4
  {
    [b / 64, b / 16 % 4, b / 4 % 4, b % 4]
  }

  function OfSextet(v: sextet): (pairs: seq<nat>)
    ensures |pairs| == 3
  {
    [v / 16, v / 4 % 4, v % 4]
  }

  function OfBytes(bytes: seq<byte>): (pairs: seq<nat>)
    ensures |pairs| == 4 * |bytes|
  {
    if bytes == [] then [] else OfBytes(bytes[..|bytes| - 1]) + OfByte(bytes[|bytes| - 1])
  }

  function OfSextets(values: seq<sextet>): (pairs: seq<nat>)
    ensures |pairs| == 3 * |values|
  {
    if values == [] then [] else OfSextets(values[..|values| - 1]) + OfSextet(values[|values| - 1])
  }

  lemma {:induction false} OfBytesMore(bytes: seq<byte>, b: byte)
    ensures OfBytes(bytes + [b]) == OfBytes(bytes) + OfByte(b)
  {
    assert (bytes + [b])[..|bytes|] == bytes;
  }

  lemma {:induction false} OfSextetsMore(values: seq<sextet>, v: sextet)
    ensures OfSextets(values + [v]) == OfSextets(values) + OfSextet(v)
  {
    assert (values + [v])[..|values|] == values;
  }

  // ----- decoding

  /** The pairs that have arrived since the last whole byte. */
  function Waiting(s: State): seq<nat> {
    if s.bits == 0 then []
    else if s.bits == 2 then [s.pending]
    else if s.bits == 4 then [s.pending / 4, s.pending % 4]
    else [s.pending / 16, s.pending / 4 % 4, s.pending % 4]
  }

  /** All that the decoder has seen: what was made into bytes, and what waits. */
  function Seen(s: State): seq<nat> {
    OfBytes(s.out) + Waiting(s)
  }

  lemma {:induction false} FeedWaits(s: State, v: sextet)
    requires Sound(s) && s.bits == 0
    ensures Feed(s, v).out == s.out && Waiting(Feed(s, v)) == OfSextet(v)
  {
  }

  lemma {:induction false} DigitsAfterOne(p: nat, v: nat, b: nat)
    requires p < 4 && v < 64 && b == p * 64 + v
    ensures b < 256 && b / 64 == p && b / 16 % 4 == v / 16 && b / 4 % 4 == v / 4 % 4 && b % 4 == v % 4
  {
    assert b / 16 == p * 4 + v / 16;
    assert b / 4 == (p * 4 + v / 16) * 4 + v / 4 % 4;
  }

  lemma {:induction false} DigitsAfterTwo(p: nat, v: nat, b: nat)
    requires p < 16 && v < 64 && b == p * 16 + v / 4
    ensures b < 256 && b / 64 == p / 4 && b / 16 % 4 == p % 4 && b / 4 % 4 == v / 16 && b % 4 == v / 4 % 4
  {
    assert b / 16 == p && b / 4 == p * 4 + v / 16;
  }

  lemma {:induction false} DigitsAfterThree(p: nat, v: nat, b: nat)
    requires p < 64 && v < 64 && b == p * 4 + v / 16
    ensures b < 256 && b / 64 == p / 16 && b / 16 % 4 == p / 4 % 4 && b / 4 % 4 == p % 4 && b % 4 == v / 16
  {
    assert b / 4 == p && b / 16 == p / 4 && b / 64 == p / 16;
  }

  lemma {:induction false} LastTwo(v: nat)
    ensures v % 16 / 4 == v / 4 % 4 && v % 16 % 4 == v % 4
  {
  }

  /** The number that comes out, with two, four or six bits waiting before. */
  lemma {:induction false} MadeNumber(s: State, v: sextet) returns (b: byte)
    requires Sound(s) && s.bits > 0
    ensures Feed(s, v).out == s.out + [b] && Feed(s, v).bits == s.bits - 2
    ensures s.bits == 2 ==> b == s.pending * 64 + v
    ensures s.bits == 4 ==> b == s.pending * 16 + v / 4 && Feed(s, v).pending == v % 4
    ensures s.bits == 6 ==> b == s.pending * 4 + v / 16 && Feed(s, v).pending == v % 16
  {
    var p := s.pending * 64 + v;
    b := High(p, s.bits - 2) % 256;
    if s.bits == 4 {
      assert p / 4 == s.pending * 16 + v / 4 && p % 4 == v % 4;
    } else if s.bits == 6 {
      assert p / 16 == s.pending * 4 + v / 16 && p % 16 == v % 16;
    }
  }

  /** The byte that comes out, and what is left waiting. */
  lemma {:induction false} FeedMakes(s: State, v: sextet) returns (b: byte)
    requires Sound(s) && s.bits > 0
    ensures Feed(s, v).out == s.out + [b]
    ensures OfByte(b) + Waiting(Feed(s, v)) == Waiting(s) + OfSextet(v)
  {
    b := MadeNumber(s, v);
    if s.bits == 2 {
      DigitsAfterOne(s.pending, v, b);
    } else if s.bits == 4 {
      DigitsAfterTwo(s.pending, v, b);
    } else {
      DigitsAfterThree(s.pending, v, b);
      LastTwo(v);
    }
  }

  lemma {:induction false} FeedSees(s: State, v: sextet)
    requires Sound(s)
    ensures Seen(Feed(s, v)) == Seen(s) + OfSextet(v)
  {
    if s.bits == 0 {
      FeedWaits(s, v);
    } else {
      var b := FeedMakes(s, v);
      OfBytesMore(s.out, b);
      Associate(OfBytes(s.out), OfByte(b), Waiting(Feed(s, v)));
      Associate(OfBytes(s.out), Waiting(s), OfSextet(v));
    }
  }

  lemma {:induction false} OfSextetsFirst(values: seq<sextet>)
    requires values != []
    ensures OfSextets(values) == OfSextet(values[0]) + OfSextets(values[1..])
  {
    if |values| > 1 {
      var init, last := values[..|values| - 1], values[|values| - 1];
      OfSextetsFirst(init);
      assert values[1..] == init[1..] + [last];
      OfSextetsMore(init[1..], last);
      Associate(OfSextet(values[0]), OfSextets(init[1..]), OfSextet(last));
    }
  }

  lemma {:induction false} FeedAllSees(s: State, values: seq<sextet>)
    requires Sound(s)
    ensures Sound(FeedAll(s, values)) && Seen(FeedAll(s, values)) == Seen(s) + OfSextets(values)
    decreases |values|
  {
    if values != [] {
      FeedSound(s, values[0]);
      FeedSees(s, values[0]);
      FeedAllSees(Feed(s, values[0]), values[1..]);
      OfSextetsFirst(values);
      Associate(Seen(s), OfSextet(values[0]), OfSextets(values[1..]));
    }
  }

  /** Whatever an accepted text decodes to is the text's bits, eight at a time, fewer than eight being left over. */
  lemma {:induction false} DecodedBits(text: string)
    requires Accepted(text)
    ensures Decoded(text).Some?
    ensures var pairs, bytes := OfSextets(Values(Stripped(text))), Decoded(text).value;
            4 * |bytes| <= |pairs| < 4 * |bytes| + 4 && OfBytes(bytes) == pairs[..4 * |bytes|]
  {
    var s := FeedAll(START, Values(Stripped(text)));
    FeedAllSees(START, Values(Stripped(text)));
    SeenBytes(s, OfSextets(Values(Stripped(text))));
  }

  lemma {:induction false} SeenBytes(s: State, pairs: seq<nat>)
    requires Sound(s) && Seen(s) == Seen(START) + pairs
    ensures 4 * |s.out| <= |pairs| < 4 * |s.out| + 4 && OfBytes(s.out) == pairs[..4 * |s.out|]
  {
    assert Seen(START) + pairs == pairs;
    assert Seen(s)[..4 * |s.out|] == OfBytes(s.out);
  }

  // ----- encoding

  /** The zero bits that fill up the last character of `n` bytes. */
  function Filling(n: nat): seq<nat> {
    if n % 3 == 0 then [] else if n % 3 == 1 then [0, 0] else [0]
  }

  /** The padding of the last group: two signs after one byte, one after two, none after three. */
  function Padding(n: nat): string {
    if n % 3 == 1 then "==" else if n % 3 == 2 then "=" else ""
  }

  lemma {:induction false} ThreeFewer(n: nat)
    requires n >= 3
    ensures Filling(n - 3) == Filling(n) && Padding(n - 3) == Padding(n)
  {
    assert n % 3 == (n - 3) % 3;
  }

  lemma {:induction false} FirstSpells(b0: byte)
    ensures OfSextet(First(b0)) == [b0 / 64, b0 / 16 % 4, b0 / 4 % 4]
  {
  }

  lemma {:induction false} SecondSpells(b0: byte, b1: byte)
    ensures OfSextet(Second(b0, b1)) == [b0 % 4, b1 / 64, b1 / 16 % 4]
  {
    var v: nat := Second(b0, b1);
    var q: nat := b1 / 16;
    assert v / 16 == b0 % 4;
    assert v / 4 == b0 % 4 * 4 + q / 4 && q / 4 == b1 / 64;
    assert v % 4 == q % 4;
  }

  lemma {:induction false} ThirdSpells(b1: byte, b2: byte)
    ensures OfSextet(Third(b1, b2)) == [b1 / 4 % 4, b1 % 4, b2 / 64]
  {
    var low: nat, top: nat := b1 % 16, b2 / 64;
    assert Third(b1, b2) == 4 * low + top;
    LowestDigit(low, top);
    assert (4 * low + top) / 4 == low && (4 * low + top) / 16 == low / 4 && low < 16;
    assert b1 == 16 * (b1 / 16) + low;
    assert b1 / 4 == 4 * (b1 / 16) + low / 4;
    LowestDigit(b1 / 16, low / 4);
  }

  lemma {:induction false} FourthSpells(b2: byte)
    ensures OfSextet(Fourth(b2)) == [b2 / 16 % 4, b2 / 4 % 4, b2 % 4]
  {
    var v: nat, top: nat := b2 % 64, b2 / 64;
    assert b2 == 64 * top + v;
    assert b2 / 16 == 4 * top + v / 16;
    LowestDigit(top, v / 16);
    assert b2 / 4 == 4 * (4 * top) + v / 4;
    LowestDigit(4 * top, v / 4 % 4);
    assert v / 4 == 4 * (v / 16) + v / 4 % 4;
    LowestDigit(4 * top + v / 16, v / 4 % 4);
  }

  lemma {:induction false} LowestDigit(high: nat, low: nat)
    requires low < 4
    ensures (4 * high + low) % 4 == low
  {
  }

  lemma {:induction false} OneByte(b0: byte)
    ensures OfSextet(First(b0)) + OfSextet(Second(b0, 0)) == OfByte(b0) + [0, 0]
  {
    FirstSpells(b0);
    SecondSpells(b0, 0);
  }

  lemma {:induction false} TwoBytes(b0: byte, b1: byte)
    ensures OfSextet(First(b0)) + OfSextet(Second(b0, b1)) + OfSextet(Third(b1, 0)) == OfByte(b0) + OfByte(b1) + [0]
  {
    FirstSpells(b0);
    SecondSpells(b0, b1);
    ThirdSpells(b1, 0);
    Regroup(OfByte(b0), OfByte(b1), [0, 0, 0, 0]);
  }

  lemma {:induction false} ThreeBytes(b0: byte, b1: byte, b2: byte)
    ensures OfSextet(First(b0)) + OfSextet(Second(b0, b1)) + OfSextet(Third(b1, b2)) + OfSextet(Fourth(b2))
            == OfByte(b0) + OfByte(b1) + OfByte(b2)
  {
    FirstSpells(b0);
    SecondSpells(b0, b1);
    ThirdSpells(b1, b2);
    FourthSpells(b2);
    Regroup(OfByte(b0), OfByte(b1), OfByte(b2));
  }

  /** Three fours are four threes. */
  lemma {:induction false} Regroup(a: seq<nat>, b: seq<nat>, c: seq<nat>)
    requires |a| == |b| == |c| == 4
    ensures [a[0], a[1], a[2]] + [a[3], b[0], b[1]] + [b[2], b[3], c[0]] + [c[1], c[2], c[3]] == a + b + c
    ensures [a[0], a[1], a[2]] + [a[3], b[0], b[1]] + [b[2], b[3], c[0]] == a + b + [c[0]]
  {
  }

  lemma {:induction false} SextetsSpelled(a: sextet, b: sextet, c: sextet, d: sextet)
    ensures OfSextets([a, b]) == OfSextet(a) + OfSextet(b)
    ensures OfSextets([a, b, c]) == OfSextet(a) + OfSextet(b) + OfSextet(c)
    ensures OfSextets([a, b, c, d]) == OfSextet(a) + OfSextet(b) + OfSextet(c) + OfSextet(d)
  {
    OfSextetsMore([], a);
    OfSextetsMore([a], b);
    OfSextetsMore([a, b], c);
    OfSextetsMore([a, b, c], d);
    assert [] + [a] == [a] && [a] + [b] == [a, b] && [a, b] + [c] == [a, b, c] && [a, b, c] + [d] == [a, b, c, d];
  }

  lemma {:induction false} BytesSpelled(a: byte, b: byte, c: byte)
    ensures OfBytes([a]) == OfByte(a) && OfBytes([a, b]) == OfByte(a) + OfByte(b)
    ensures OfBytes([a, b, c]) == OfByte(a) + OfByte(b) + OfByte(c)
  {
    OfBytesMore([], a);
    OfBytesMore([a], b);
    OfBytesMore([a, b], c);
    assert [] + [a] == [a] && [a] + [b] == [a, b] && [a, b] + [c] == [a, b, c];
  }

  lemma {:induction false} OfSextetsConcat(a: seq<sextet>, b: seq<sextet>)
    ensures OfSextets(a + b) == OfSextets(a) + OfSextets(b)
  {
    if b == [] {
      assert a + b == a;
    } else {
      var init, last := b[..|b| - 1], b[|b| - 1];
      OfSextetsConcat(a, init);
      assert a + b == a + init + [last] && b == init + [last];
      OfSextetsMore(a + init, last);
      Associate(OfSextets(a), OfSextets(init), OfSextet(last));
    }
  }

  lemma {:induction false} OfBytesConcat(a: seq<byte>, b: seq<byte>)
    ensures OfBytes(a + b) == OfBytes(a) + OfBytes(b)
  {
    if b == [] {
      assert a + b == a;
    } else {
      var init, last := b[..|b| - 1], b[|b| - 1];
      OfBytesConcat(a, init);
      assert a + b == a + init + [last] && b == init + [last];
      OfBytesMore(a + init, last);
      Associate(OfBytes(a), OfBytes(init), OfByte(last));
    }
  }

  lemma {:induction false} SextetBitsLast(bytes: seq<byte>)
    requires |bytes| <= 2
    ensures OfSextets(Sextets(bytes)) == OfBytes(bytes) + Filling(|bytes|)
  {
    if |bytes| == 1 {
      OneByte(bytes[0]);
      SextetsSpelled(First(bytes[0]), Second(bytes[0], 0), 0, 0);
      BytesSpelled(bytes[0], 0, 0);
      assert bytes == [bytes[0]];
    } else if |bytes| == 2 {
      TwoBytes(bytes[0], bytes[1]);
      SextetsSpelled(First(bytes[0]), Second(bytes[0], bytes[1]), Third(bytes[1], 0), 0);
      BytesSpelled(bytes[0], bytes[1], 0);
      assert bytes == [bytes[0], bytes[1]];
    }
  }

  lemma {:induction false} GroupBits(bytes: seq<byte>, rest: seq<byte>)
    requires |bytes| >= 3 && rest == bytes[3..]
    ensures exists first: seq<nat> ::
      OfBytes(bytes) == first + OfBytes(rest) && OfSextets(Sextets(bytes)) == first + OfSextets(Sextets(rest))
  {
    var four := [First(bytes[0]), Second(bytes[0], bytes[1]), Third(bytes[1], bytes[2]), Fourth(bytes[2])];
    var three := [bytes[0], bytes[1], bytes[2]];
    ThreeBytes(bytes[0], bytes[1], bytes[2]);
    SextetsSpelled(First(bytes[0]), Second(bytes[0], bytes[1]), Third(bytes[1], bytes[2]), Fourth(bytes[2]));
    BytesSpelled(bytes[0], bytes[1], bytes[2]);
    OfSextetsConcat(four, Sextets(rest));
    OfBytesConcat(three, rest);
    assert bytes == three + rest;
    assert OfBytes(bytes) == OfBytes(three) + OfBytes(rest);
  }

  lemma {:induction false} SextetBits(bytes: seq<byte>)
    ensures OfSextets(Sextets(bytes)) == OfBytes(bytes) + Filling(|bytes|)
    decreases |bytes|
  {
    if |bytes| <= 2 {
      SextetBitsLast(bytes);
    } else {
      var rest := bytes[3..];
      SextetBits(rest);
      GroupBits(bytes, rest);
      var first: seq<nat> :| OfBytes(bytes) == first + OfBytes(rest)
                             && OfSextets(Sextets(bytes)) == first + OfSextets(Sextets(rest));
      ThreeFewer(|bytes|);
      Associate(first, OfBytes(rest), Filling(|rest|));
    }
  }

  /** The characters of an encoding spell the bits of its bytes, filled up with zeros to a multiple of six. */
  lemma {:induction false} EncodedBits(bytes: seq<byte>)
    ensures var clean := Stripped(Encoded(bytes));
            && (forall i | 0 <= i < |clean| :: Known(clean[i]))
            && OfSextets(Values(clean)) == OfBytes(bytes) + Filling(|bytes|)
  {
    StrippedEncoded(bytes);
    ValuesOfLetters(Sextets(bytes));
    SextetBits(bytes);
  }

  /** An encoding is whole groups of four characters, the last one completed by padding. */
  lemma {:induction false} EncodedShape(bytes: seq<byte>)
    ensures 3 * |Encoded(bytes)| == 4 * (|bytes| + |Padding(|bytes|)|)
    ensures Encoded(bytes) == Stripped(Encoded(bytes)) + Padding(|bytes|)
    decreases |bytes|
  {
    StrippedEncoded(bytes);
    if bytes == [] {
      assert Encoded(bytes) == "";
    } else if |bytes| <= 3 {
      ShapeLast(bytes);
    } else {
      var rest := bytes[3..];
      EncodedShape(rest);
      ThreeFewer(|bytes|);
      ShapeMore(bytes, rest, Padding(|rest|));
    }
  }

  lemma {:induction false} ShapeLast(bytes: seq<byte>)
    requires 0 < |bytes| <= 3
    ensures |Encoded(bytes)| == 4 && Encoded(bytes) == Letters(Sextets(bytes)) + Padding(|bytes|)
  {
    EncodedLast(bytes);
    if |bytes| == 1 {
      QuadOfOne(bytes[0]);
    } else if |bytes| == 2 {
      QuadOfTwo(bytes[0], bytes[1]);
    } else {
      QuadOfThree(bytes[0], bytes[1], bytes[2]);
      assert bytes[3..] == [];
    }
  }

  lemma {:induction false} ShapeMore(bytes: seq<byte>, rest: seq<byte>, pad: string)
    requires |bytes| > 3 && rest == bytes[3..] && Encoded(rest) == Stripped(Encoded(rest)) + pad
    ensures |Encoded(bytes)| == 4 + |Encoded(rest)| && Encoded(bytes) == Letters(Sextets(bytes)) + pad
  {
    var four := [First(bytes[0]), Second(bytes[0], bytes[1]), Third(bytes[1], bytes[2]), Fourth(bytes[2])];
    QuadOfThree(bytes[0], bytes[1], bytes[2]);
    EncodedGroup(bytes, Letters(four), rest);
    StrippedEncoded(rest);
    SextetsMore(bytes, four, rest);
    LettersConcat(four, Sextets(rest));
    Associate(Letters(four), Letters(Sextets(rest)), pad);
  }

  // ----- the alphabet, and padding in what is read

  /** Table 1 of RFC 4648. */
  lemma {:induction false} AlphabetOfRfc(v: sextet)
    ensures Letter(v) ==
      if v < 26 then 'A' + v as char else if v < 52 then 'a' + (v - 26) as char
      else if v < 62 then '0' + (v - 52) as char else if v == 62 then '+' else '/'
  {
    RankOf(v);
  }

  /** Only signs at the end are taken off a text, and all of them. */
  lemma {:induction false} StrippedIff(text: string, clean: string)
    ensures clean == Stripped(text)
            <==> && clean <= text && (forall i | |clean| <= i < |text| :: text[i] == '=')
                 && (clean != "" ==> clean[|clean| - 1] != '=')
    decreases |text|
  {
    if text != "" && text[|text| - 1] == '=' {
      StrippedIff(text[..|text| - 1], clean);
    }
  }
}
