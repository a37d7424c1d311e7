/**
 CRC-32 as the ZIP reader computes it (packages/vault/src/import/zip.ts): a 256-entry table consumed a byte at a
 time, against the shift register that divides the message by the polynomial one bit at a time
 (section 8 of RFC 1952). A 32-bit word is its bits, least significant first.
 */
module Crc {
  import opened Bytes

  type Word = w: seq<bool> | |w| == 32 witness ZERO

  const ZERO: seq<bool> := [
    false, false, false, false, false, false, false, false, false, false, false, false, false, false, false, false,
    false, false, false, false, false, false, false, false, false, false, false, false, false, false, false, false]

  const ONES: seq<bool> := [
    true, true, true, true, true, true, true, true, true, true, true, true, true, true, true, true,
    true, true, true, true, true, true, true, true, true, true, true, true, true, true, true, true]

  /** 0xedb88320. */
  const POLYNOMIAL: seq<bool> := [
    false, false, false, false, false, true, false, false, true, true, false, false, false, false, false, true,
    false, false, false, true, true, true, false, true, true, false, true, true, false, true, true, true]

  function Xor(a: Word, b: Word): (r: Word)
    ensures forall i | 0 <= i < 32 :: r[i] == (a[i] != b[i])
  {
    seq(32, i requires 0 <= i < 32 => a[i] != b[i])
  }

  /** v >>> 1 */
  function Shr(v: Word): (r: Word)
    ensures forall i | 0 <= i < 31 :: r[i] == v[i + 1]
    ensures !r[31]
  {
    v[1..] + [false]
  }

  function Iterate(f: Word -> Word, v: Word, n: nat): Word
    decreases n, v
  {
    if n == 0 then v else f(Iterate(f, v, n - 1))
  }

  lemma {:induction false} IterateFirst(f: Word -> Word, v: Word, n: nat)
    requires n > 0
    ensures Iterate(f, v, n) == Iterate(f, f(v), n - 1)
    decreases n
  {
    if n > 1 {
      IterateFirst(f, v, n - 1);
    }
  }

  /** v >>> n */
  function ShrBy(v: Word, n: nat): Word {
    Iterate(Shr, v, n)
  }

  /** A short bit sequence as a word. */
  function Pad(bits: seq<bool>): (r: Word)
    requires |bits| <= 32
    ensures forall i | 0 <= i < 32 :: r[i] == (i < |bits| && bits[i])
  {
    seq(32, i requires 0 <= i < 32 => i < |bits| && bits[i])
  }

  // ----- the reference: polynomial division, one message bit at a time

  function ShiftIn(register: Word, bit: bool): Word {
    if register[0] != bit then Xor(POLYNOMIAL, Shr(register)) else Shr(register)
  }

  function Divide(register: Word, bits: seq<bool>): Word
    decreases |bits|
  {
    if bits == [] then register else Divide(ShiftIn(register, bits[0]), bits[1..])
  }

  function MessageBits(bytes: seq<byte>): seq<bool> {
    if bytes == [] then [] else Bits(bytes[0], 8) + MessageBits(bytes[1..])
  }

  function PolynomialCrc(bytes: seq<byte>): Word {
    Xor(Divide(ONES, MessageBits(bytes)), ONES)
  }

  // ----- the table and the byte-wise register

  function BitStep(v: Word): Word {
    if v[0] then Xor(POLYNOMIAL, Shr(v)) else Shr(v)
  }

  function Steps(v: Word, n: nat): Word {
    Iterate(BitStep, v, n)
  }

  function Entry(n: nat, bits: nat): Word {
    Steps(Pad(Bits(n, 8)), bits)
  }

  /** The table index: the low byte of the register with the byte folded in. */
  function Index(register: Word, b: byte): (n: byte)
  {
    var low := Xor(register, Pad(Bits(b, 8)))[..8];
    ValueBound(low);
    Value(low)
  }

  function TableStep(register: Word, b: byte): Word {
    Xor(Entry(Index(register, b), 8), ShrBy(register, 8))
  }

  function Register(start: Word, bytes: seq<byte>): Word
    decreases |bytes|
  {
    if bytes == [] then start else Register(TableStep(start, bytes[0]), bytes[1..])
  }

  function Crc32(bytes: seq<byte>): Word {
    Xor(Register(ONES, bytes), ONES)
  }

  // ----- linearity

  lemma {:induction false} BitStepXorEven(a: Word, b: Word)
    requires !b[0]
    ensures BitStep(Xor(a, b)) == Xor(BitStep(a), Shr(b))
  {
  }

  /** The step `f` can be taken on one side of the operation, with `g` on the other. */
  ghost predicate Distributes(f: Word -> Word, g: Word -> Word, op: (Word, Word) -> Word, x: Word, y: Word) {
    f(op(x, y)) == op(f(x), g(y))
  }

  /** Then so can any number of steps. */
  lemma {:induction false} IterateApart(
    f: Word -> Word, g: Word -> Word, op: (Word, Word) -> Word, a: Word, b: Word, n: nat)
    requires forall k | 0 <= k < n :: Distributes(f, g, op, Iterate(f, a, k), Iterate(g, b, k))
    ensures Iterate(f, op(a, b), n) == op(Iterate(f, a, n), Iterate(g, b, n))
    decreases n
  {
    if n > 0 {
      IterateApart(f, g, op, a, b, n - 1);
      assert Distributes(f, g, op, Iterate(f, a, n - 1), Iterate(g, b, n - 1));
    }
  }

  lemma {:induction false} ShrByAt(v: Word, n: nat)
    ensures forall i | 0 <= i < 32 :: ShrBy(v, n)[i] == (i + n < 32 && v[i + n])
    decreases n
  {
    if n > 0 {
      ShrByAt(v, n - 1);
      assert ShrBy(v, n) == Shr(ShrBy(v, n - 1));
    }
  }

  /** Bits that have not reached the low end only shift. */
  lemma {:induction false} StepsXorHigh(a: Word, b: Word, n: nat)
    requires n <= 32 && forall i | 0 <= i < n :: !b[i]
    ensures Steps(Xor(a, b), n) == Xor(Steps(a, n), ShrBy(b, n))
  {
    forall k | 0 <= k < n
      ensures Distributes(BitStep, Shr, Xor, Iterate(BitStep, a, k), Iterate(Shr, b, k))
    {
      ShrByAt(b, k);
      assert !ShrBy(b, k)[0];
      BitStepXorEven(Steps(a, k), ShrBy(b, k));
    }
    IterateApart(BitStep, Shr, Xor, a, b, n);
  }

  lemma {:induction false} StepsTo(v: Word, w: Word, n: nat)
    requires n > 0 && BitStep(v) == w
    ensures Steps(v, n) == Steps(w, n - 1)
  {
    IterateFirst(BitStep, v, n);
  }

  lemma {:induction false} FoldIn(register: Word, bits: seq<bool>)
    requires 0 < |bits| <= 32
    ensures BitStep(Xor(register, Pad(bits))) == Xor(ShiftIn(register, bits[0]), Pad(bits[1..]))
  {
  }

  lemma {:induction false} PadNothing(register: Word, bits: seq<bool>)
    requires bits == []
    ensures Xor(register, Pad(bits)) == register
  {
  }

  /** Dividing by some bits is folding them all in first and shifting as often. */
  lemma {:induction false} DivideIsSteps(register: Word, bits: seq<bool>)
    requires |bits| <= 32
    ensures Divide(register, bits) == Steps(Xor(register, Pad(bits)), |bits|)
    decreases |bits|
  {
    if bits == [] {
      PadNothing(register, bits);
    } else {
      var next := ShiftIn(register, bits[0]);
      FoldIn(register, bits);
      StepsTo(Xor(register, Pad(bits)), Xor(next, Pad(bits[1..])), |bits|);
      DivideIsSteps(next, bits[1..]);
    }
  }

  // ----- the table form is the division

  /** The low bits go through the polynomial, the high bits only move down. */
  lemma {:induction false} StepsSplit(x: Word, n: nat)
    requires n <= 32
    ensures Steps(x, n) == Xor(Steps(Pad(x[..n]), n), ShrBy(x, n))
  {
    var low := Pad(x[..n]);
    var high := Xor(x, low);
    assert x == Xor(low, high);
    StepsXorHigh(low, high, n);
    ShrByAt(high, n);
    ShrByAt(x, n);
    assert ShrBy(high, n) == ShrBy(x, n);
  }

  /** The index into the table spells the low byte of the register with the byte folded in. */
  lemma {:induction false} IndexSpells(register: Word, b: byte, bits: seq<bool>)
    requires bits == Bits(b, 8)
    ensures Bits(Index(register, b), 8) == Xor(register, Pad(bits))[..8]
  {
    BitsOfValue(Xor(register, Pad(bits))[..8]);
  }

  /** Folding in a byte leaves the bits above it alone. */
  lemma {:induction false} HighUnchanged(register: Word, bits: seq<bool>)
    requires |bits| <= 32
    ensures ShrBy(Xor(register, Pad(bits)), |bits|) == ShrBy(register, |bits|)
  {
    ShrByAt(Xor(register, Pad(bits)), |bits|);
    ShrByAt(register, |bits|);
  }

  lemma {:induction false} TableStepDivides(register: Word, b: byte, bits: seq<bool>)
    requires bits == Bits(b, 8)
    ensures TableStep(register, b) == Divide(register, bits)
  {
    DivideIsSteps(register, bits);
    StepsSplit(Xor(register, Pad(bits)), |bits|);
    IndexSpells(register, b, bits);
    HighUnchanged(register, bits);
  }

  lemma {:induction false} DivideConcat(register: Word, a: seq<bool>, b: seq<bool>)
    ensures Divide(register, a + b) == Divide(Divide(register, a), b)
    decreases |a|
  {
    if a == [] {
      assert a + b == b;
    } else {
      assert (a + b)[1..] == a[1..] + b;
      DivideConcat(ShiftIn(register, a[0]), a[1..], b);
    }
  }

  lemma {:induction false} RegisterDivides(start: Word, bytes: seq<byte>)
    ensures Register(start, bytes) == Divide(start, MessageBits(bytes))
    decreases |bytes|
  {
    if bytes != [] {
      var bits := Bits(bytes[0], 8);
      TableStepDivides(start, bytes[0], bits);
      RegisterDivides(TableStep(start, bytes[0]), bytes[1..]);
      DivideConcat(start, bits, MessageBits(bytes[1..]));
    }
  }

  /** The table-driven CRC is the polynomial CRC of every byte string. */
  lemma {:induction false} TableIsPolynomial(bytes: seq<byte>)
    ensures Crc32(bytes) == PolynomialCrc(bytes)
  {
    RegisterDivides(ONES, bytes);
  }

  // ----- what the checksum detects

  lemma {:induction false} XorCancels(a: Word, b: Word, c: Word)
    requires Xor(a, c) == Xor(b, c)
    ensures a == b
  {
    forall i | 0 <= i < 32
      ensures a[i] == b[i]
    {
      assert Xor(a, c)[i] == Xor(b, c)[i];
    }
  }

  lemma {:induction false} XorCommutes(a: Word, b: Word)
    ensures Xor(a, b) == Xor(b, a)
  {
  }

  lemma {:induction false} ShrKeepsRest(a: Word, b: Word)
    requires Shr(a) == Shr(b) && a[0] == b[0]
    ensures a == b
  {
    assert Shr(a)[..31] == a[1..] && Shr(b)[..31] == b[1..];
    assert a == [a[0]] + a[1..] && b == [b[0]] + b[1..];
  }

  /** The polynomial's top bit records which bit was shifted out, so the step can be undone. */
  lemma {:induction false} BitStepInjective(a: Word, b: Word)
    requires BitStep(a) == BitStep(b)
    ensures a == b
  {
    assert BitStep(a)[31] == a[0] && BitStep(b)[31] == b[0];
    if a[0] {
      XorCommutes(POLYNOMIAL, Shr(a));
      XorCommutes(POLYNOMIAL, Shr(b));
      XorCancels(Shr(a), Shr(b), POLYNOMIAL);
    }
    ShrKeepsRest(a, b);
  }

  lemma {:induction false} ShiftInIsBitStep(register: Word, bit: bool)
    ensures ShiftIn(register, bit) == BitStep(Xor(register, Pad([bit])))
  {
    FoldIn(register, [bit]);
    assert Xor(ShiftIn(register, bit), Pad([bit][1..])) == ShiftIn(register, bit);
  }

  /** Registers that have parted never meet again on the same input. */
  lemma {:induction false} DivideKeepsApart(a: Word, b: Word, bits: seq<bool>)
    requires Divide(a, bits) == Divide(b, bits)
    ensures a == b
    decreases |bits|
  {
    if bits != [] {
      var m := Pad([bits[0]]);
      ShiftInIsBitStep(a, bits[0]);
      ShiftInIsBitStep(b, bits[0]);
      DivideKeepsApart(ShiftIn(a, bits[0]), ShiftIn(b, bits[0]), bits[1..]);
      BitStepInjective(Xor(a, m), Xor(b, m));
      XorCancels(a, b, m);
    }
  }

  lemma {:induction false} StepsDivideZeros(v: Word, zeros: seq<bool>)
    requires |zeros| <= 32 && forall i | 0 <= i < |zeros| :: !zeros[i]
    ensures Steps(v, |zeros|) == Divide(v, zeros)
  {
    assert Xor(v, Pad(zeros)) == v;
    DivideIsSteps(v, zeros);
  }

  lemma {:induction false} PadInjective(x: seq<bool>, y: seq<bool>)
    requires |x| == |y| <= 32 && Pad(x) == Pad(y)
    ensures x == y
  {
    forall i | 0 <= i < |x|
      ensures x[i] == y[i]
    {
      assert Pad(x)[i] == Pad(y)[i];
    }
  }

  /** Up to 32 bits of input can be told apart by the register they leave. */
  lemma {:induction false} DivideTellsApart(register: Word, x: seq<bool>, y: seq<bool>)
    requires |x| == |y| <= 32
    requires Divide(register, x) == Divide(register, y)
    ensures x == y
  {
    var a, b := Xor(Pad(x), register), Xor(Pad(y), register);
    var zeros := seq(|x|, i => false);
    XorCommutes(register, Pad(x));
    XorCommutes(register, Pad(y));
    DivideIsSteps(register, x);
    DivideIsSteps(register, y);
    StepsDivideZeros(a, zeros);
    StepsDivideZeros(b, zeros);
    DivideKeepsApart(a, b, zeros);
    XorCancels(Pad(x), Pad(y), register);
    PadInjective(x, y);
  }

  lemma {:induction false} MessageBitsConcat(a: seq<byte>, b: seq<byte>)
    ensures MessageBits(a + b) == MessageBits(a) + MessageBits(b)
  {
    if a == [] {
      assert a + b == b;
    } else {
      assert (a + b)[1..] == a[1..] + b;
      MessageBitsConcat(a[1..], b);
      assert Bits(a[0], 8) + (MessageBits(a[1..]) + MessageBits(b))
          == Bits(a[0], 8) + MessageBits(a[1..]) + MessageBits(b);
    }
  }

  lemma {:induction false} MessageBitsLength(a: seq<byte>)
    ensures |MessageBits(a)| == 8 * |a|
  {
    if a != [] {
      MessageBitsLength(a[1..]);
    }
  }

  lemma {:induction false} BitsInjective(a: byte, b: byte, n: nat)
    requires n == 8 && Bits(a, n) == Bits(b, n)
    ensures a == b
  {
    assert Power2(8) == 256;
    ValueOfBits(a, n);
    ValueOfBits(b, n);
  }

  lemma {:induction false} MessageBitsInjective(a: seq<byte>, b: seq<byte>)
    requires |a| == |b| && MessageBits(a) == MessageBits(b)
    ensures a == b
  {
    if a != [] {
      var n := 8;
      assert MessageBits(a)[..n] == Bits(a[0], n) && MessageBits(b)[..n] == Bits(b[0], n);
      assert MessageBits(a)[n..] == MessageBits(a[1..]) && MessageBits(b)[n..] == MessageBits(b[1..]);
      BitsInjective(a[0], b[0], n);
      MessageBitsInjective(a[1..], b[1..]);
      assert a == [a[0]] + a[1..] && b == [b[0]] + b[1..];
    }
  }

  /**
   Two contents of one length that differ within four consecutive bytes, and nowhere else, have different CRCs. One
   changed byte is the case of |x| == 1.
   */
  lemma {:induction false} BurstChangesCrc(before: seq<byte>, x: seq<byte>, y: seq<byte>, after: seq<byte>)
    requires |x| == |y| <= 4 && x != y
    ensures Crc32(before + x + after) != Crc32(before + y + after)
  {
    if Crc32(before + x + after) == Crc32(before + y + after) {
      DivideParts(before, x, after);
      DivideParts(before, y, after);
      XorCancels(Register(ONES, before + x + after), Register(ONES, before + y + after), ONES);
      var r := Divide(ONES, MessageBits(before));
      DivideKeepsApart(Divide(r, MessageBits(x)), Divide(r, MessageBits(y)), MessageBits(after));
      MessageBitsLength(x);
      MessageBitsLength(y);
      DivideTellsApart(r, MessageBits(x), MessageBits(y));
      MessageBitsInjective(x, y);
    }
  }

  lemma {:induction false} DivideParts(before: seq<byte>, x: seq<byte>, after: seq<byte>)
    ensures Register(ONES, before + x + after)
         == Divide(Divide(Divide(ONES, MessageBits(before)), MessageBits(x)), MessageBits(after))
  {
    RegisterDivides(ONES, before + x + after);
    MessageBitsConcat(before + x, after);
    MessageBitsConcat(before, x);
    DivideConcat(ONES, MessageBits(before) + MessageBits(x), MessageBits(after));
    DivideConcat(ONES, MessageBits(before), MessageBits(x));
  }

  /** Contents of one length that differ in exactly one byte have different CRCs. */
  lemma {:induction false} OneByteChangesCrc(a: seq<byte>, b: seq<byte>, k: nat)
    requires |a| == |b| && k < |a| && a[k] != b[k]
    requires forall i | 0 <= i < |a| :: i != k ==> a[i] == b[i]
    ensures Crc32(a) != Crc32(b)
  {
    assert a == a[..k] + [a[k]] + a[k + 1..];
    assert b == a[..k] + [b[k]] + a[k + 1..];
    BurstChangesCrc(a[..k], [a[k]], [b[k]], a[k + 1..]);
  }

  /**
   The division is by the generator of section 8 of RFC 1952: x^32 and the powers listed, the highest in the lowest
   bit.
   */
  lemma {:induction false} PolynomialPowers(i: nat)
    requires i < 32
    ensures POLYNOMIAL[31 - i] == (i in {26, 23, 22, 16, 12, 11, 10, 8, 7, 5, 4, 2, 1, 0})
  {
    if i < 16 {
      if i < 8 {
      }
    } else if i < 24 {
    }
  }

  // ----- the loops

  /** The reader's checksum code, with the table it builds on first use and keeps. */
  class Checksummer {
    var table: array?<Word>

    ghost predicate Valid()
      reads this, table
    {
      table != null ==> table.Length == 256 && forall n | 0 <= n < 256 :: table[n] == Entry(n, 8)
    }

    constructor ()
      ensures Valid()
    {
      table := null;
    }

    method TableEntry(n: byte, bits: nat) returns (value: Word)
      ensures value == Entry(n, bits)
    {
      value := Pad(Bits(n, 8));
      for bit := 0 to bits
        invariant value == Entry(n, bit)
      {
        value := BitStep(value);
      }
    }

    method CrcTable() returns (built: array<Word>)
      requires Valid()
      modifies this
      ensures Valid() && table == built
      ensures old(table) != null ==> built == old(table)
      ensures old(table) == null ==> fresh(built)
    {
      if table != null {
        return table;
      }
      built := new Word[256];
      var n := 0;
      while n < 256
        invariant 0 <= n <= 256 == built.Length
        invariant fresh(built) && table == old(table)
        invariant forall m | 0 <= m < n :: built[m] == Entry(m, 8)
      {
        var value := TableEntry(n, 8);
        built[n] := value;
        n := n + 1;
      }
      table := built;
    }

    method Crc32Of(bytes: seq<byte>) returns (checksum: Word)
      requires Valid()
      modifies this
      ensures Valid()
      ensures checksum == Crc32(bytes)
      ensures old(table) != null ==> table == old(table)
    {
      var lookup := CrcTable();
      var value: Word := ONES;
      for i := 0 to |bytes|
        invariant table == lookup && Valid()
        invariant Register(value, bytes[i..]) == Register(ONES, bytes)
      {
        var n := Index(value, bytes[i]);
        assert bytes[i..][1..] == bytes[i + 1..];
        value := Xor(lookup[n], ShrBy(value, 8));
      }
      checksum := Xor(value, ONES);
    }
  }

  // ----- how the register starts and what is made of it

  /** Section 8 of RFC 1952: the register starts with every bit set, and the sum is its complement. */
  lemma {:induction false} ComplementFromOnes(bytes: seq<byte>, start: Word)
    requires forall i | 0 <= i < 32 :: start[i]
    ensures forall i | 0 <= i < 32 :: Crc32(bytes)[i] == !Divide(start, MessageBits(bytes))[i]
    ensures forall i | 0 <= i < 32 :: PolynomialCrc(bytes)[i] == !Divide(start, MessageBits(bytes))[i]
  {
    AllOnes();
    assert start == ONES;
    TableIsPolynomial(bytes);
  }

  lemma {:induction false} AllOnes()
    ensures forall i | 0 <= i < 32 :: ONES[i]
  {
  }

  /** A zero bit shifts the register, and folds the polynomial in when a set bit falls out. */
  lemma {:induction false} ZeroShifted(w: Word, i: nat)
    requires i < 31
    ensures ShiftIn(w, false)[i] == (w[i + 1] != (w[0] && POLYNOMIAL[i]))
  {
  }

  lemma {:induction false} ZeroBits(n: nat)
    ensures forall k | 0 <= k < n :: !Bits(0, n)[k]
  {
    if n > 0 {
      ZeroBits(n - 1);
    }
  }

  lemma {:induction false} DivideOne(w: Word, bits: seq<bool>)
    requires bits != [] && !bits[0]
    ensures Divide(w, bits) == Divide(ShiftIn(w, false), bits[1..])
  {
  }

  lemma {:induction false} DivideThree(w: Word, bits: seq<bool>)
    requires |bits| >= 3 && !bits[0] && !bits[1] && !bits[2]
    ensures Divide(w, bits) == Divide(ShiftIn(ShiftIn(ShiftIn(w, false), false), false), bits[3..])
  {
    var a, b := ShiftIn(w, false), ShiftIn(ShiftIn(w, false), false);
    DivideOne(w, bits);
    DivideOne(a, bits[1..]);
    DivideOne(b, bits[2..]);
    assert bits[1..][1..] == bits[2..] && bits[2..][1..] == bits[3..];
  }

  /** A clear bit comes down unchanged where the polynomial has no low powers. */
  lemma {:induction false} ClearBitFalls(w: Word, zero: seq<bool>)
    requires |zero| <= 5 && (forall k | 0 <= k < |zero| :: !zero[k]) && !w[|zero|]
    ensures !Divide(w, zero)[0]
    decreases |zero|
  {
    if zero != [] {
      var j := |zero| - 1;
      assert !POLYNOMIAL[j];
      ZeroShifted(w, j);
      DivideOne(w, zero);
      ClearBitFalls(ShiftIn(w, false), zero[1..]);
    }
  }

  lemma {:induction false} LowTaps()
    ensures !POLYNOMIAL[0] && !POLYNOMIAL[1] && POLYNOMIAL[5] && !POLYNOMIAL[6] && !POLYNOMIAL[7]
  {
  }

  lemma {:induction false} TwoShifted(w: Word, i: nat)
    requires i < 30 && !POLYNOMIAL[i + 1] && !POLYNOMIAL[i]
    ensures ShiftIn(ShiftIn(w, false), false)[i] == w[i + 2]
  {
    ZeroShifted(w, i + 1);
    ZeroShifted(ShiftIn(w, false), i);
  }

  /** Three zero bits clear the fifth bit of a register full of ones. */
  lemma {:induction false} FifthCleared(w: Word)
    requires forall i | 0 <= i < 32 :: w[i]
    ensures !ShiftIn(ShiftIn(ShiftIn(w, false), false), false)[5]
  {
    LowTaps();
    TwoShifted(w, 0);
    TwoShifted(w, 6);
    ZeroShifted(ShiftIn(ShiftIn(w, false), false), 5);
  }

  /** Eight zero bits do not leave the register full of ones: the lowest bit is clear afterwards. */
  lemma {:induction false} OnesMove(ones: Word, zero: seq<bool>)
    requires (forall i | 0 <= i < 32 :: ones[i]) && |zero| == 8 && forall k | 0 <= k < 8 :: !zero[k]
    ensures !Divide(ones, zero)[0]
  {
    FifthCleared(ones);
    DivideThree(ones, zero);
    ClearBitFalls(ShiftIn(ShiftIn(ShiftIn(ones, false), false), false), zero[3..]);
  }

  /** Which is why zero bytes in front of a message change its sum. */
  lemma {:induction false} LeadingZeroCounts(bytes: seq<byte>)
    ensures Crc32([0] + bytes) != Crc32(bytes)
  {
    var zero := Bits(0, 8);
    ZeroBits(8);
    AllOnes();
    OnesMove(ONES, zero);
    TableIsPolynomial([0] + bytes);
    TableIsPolynomial(bytes);
    assert ([0] + bytes)[1..] == bytes;
    assert MessageBits([0] + bytes) == zero + MessageBits(bytes);
    DivideConcat(ONES, zero, MessageBits(bytes));
    if Crc32([0] + bytes) == Crc32(bytes) {
      XorCancels(Divide(ONES, MessageBits([0] + bytes)), Divide(ONES, MessageBits(bytes)), ONES);
      DivideKeepsApart(Divide(ONES, zero), ONES, MessageBits(bytes));
    }
  }
}
