/** Bytes, and numbers as little-endian bits. */
module Bytes {

  type byte = x: nat | x < 256

  /** The number a little-endian bit sequence spells. */
  function Value(bits: seq<bool>): nat {
    if bits == [] then 0 else (if bits[0] then 1 else 0) + 2 * Value(bits[1..])
  }

  /** The low `n` bits of a number, least significant first. */
  function Bits(x: nat, n: nat): (bits: seq<bool>)
    ensures |bits| == n
    decreases n, x
  {
    if n == 0 then [] else [x % 2 == 1] + Bits(x / 2, n - 1)
  }

  function Power2(n: nat): (p: nat)
    ensures p > 0
  {
    if n == 0 then 1 else 2 * Power2(n - 1)
  }

  lemma {:induction false} ValueBound(bits: seq<bool>)
    ensures Value(bits) < Power2(|bits|)
  {
    if bits != [] {
      ValueBound(bits[1..]);
    }
  }

  lemma {:induction false} PowerOfSum(a: nat, b: nat)
    ensures Power2(a + b) == Power2(a) * Power2(b)
  {
    if a > 0 {
      PowerOfSum(a - 1, b);
      assert Power2(a + b) == 2 * Power2(a - 1 + b);
    }
  }

  lemma {:induction false} PowerOf32()
    ensures Power2(32) == 0x1_0000_0000
  {
    assert Power2(8) == 0x100;
    PowerOfSum(8, 8);
    PowerOfSum(16, 16);
  }

  lemma {:induction false} WordBound(bits: seq<bool>)
    requires |bits| == 32
    ensures Value(bits) <= 0xffff_ffff
  {
    ValueBound(bits);
    PowerOf32();
  }

  lemma {:induction false} BitsOfValue(bits: seq<bool>)
    ensures Bits(Value(bits), |bits|) == bits
  {
    if bits != [] {
      BitsOfValue(bits[1..]);
      assert Value(bits) / 2 == Value(bits[1..]);
    }
  }

  lemma {:induction false} ValueOfBits(x: nat, n: nat)
    requires x < Power2(n)
    ensures Value(Bits(x, n)) == x
    decreases n
  {
    if n > 0 {
      ValueOfBits(x / 2, n - 1);
      assert Bits(x, n)[1..] == Bits(x / 2, n - 1);
    }
  }

  // ----- little-endian fields

  function U16(s: seq<byte>, at: nat): (v: nat)
    requires at + 2 <= |s|
    ensures v <= 0xffff
  {
    s[at] as int + 0x100 * s[at + 1] as int
  }

  function U32(s: seq<byte>, at: nat): (v: nat)
    requires at + 4 <= |s|
    ensures v <= 0xffff_ffff
  {
    s[at] as int + 0x100 * s[at + 1] as int + 0x1_0000 * s[at + 2] as int + 0x100_0000 * s[at + 3] as int
  }

  function Le16(v: nat): (s: seq<byte>)
    ensures |s| == 2
  {
    [v % 0x100, v / 0x100 % 0x100]
  }

  function Le32(v: nat): (s: seq<byte>)
    ensures |s| == 4
  {
    [v % 0x100, v / 0x100 % 0x100, v / 0x1_0000 % 0x100, v / 0x100_0000 % 0x100]
  }

  lemma {:induction false} ReadLe16(v: nat)
    requires v <= 0xffff
    ensures U16(Le16(v), 0) == v
  {
  }

  lemma {:induction false} ReadLe32(v: nat)
    requires v <= 0xffff_ffff
    ensures U32(Le32(v), 0) == v
  {
    var a := v / 0x100;
    var b := a / 0x100;
    var c := b / 0x100;
    assert v / 0x1_0000 == b && v / 0x100_0000 == c;
    assert v == 0x100 * a + v % 0x100 && a == 0x100 * b + a % 0x100 && b == 0x100 * c + b % 0x100;
    assert c < 0x100;
  }

  /** A field can be read out of the slice that holds it. */
  lemma {:induction false} FieldInSlice(s: seq<byte>, part: seq<byte>, from: nat, k: nat)
    requires from + |part| <= |s| && s[from..from + |part|] == part
    ensures k + 2 <= |part| ==> U16(s, from + k) == U16(part, k)
    ensures k + 4 <= |part| ==> U32(s, from + k) == U32(part, k)
  {
    assert forall i | 0 <= i < |part| :: s[from + i] == part[i];
  }
}
