/**
 The archive writer beside the reader's tests (packages/vault/src/testing/zip-fixture.ts): local headers and bodies,
 then the central directory, then the end record.
 */
module ZipWriter {
  import opened Bytes
  import opened Sequences
  import opened ZipReader
  import opened ZipFormat

  /** A member under construction, its defaults filled in: method STORED, no flags, no local extra field. */
  datatype Member = Member(name: string, body: seq<byte>, compression: nat, flags: nat, localExtra: seq<byte>)

  function Stored(p: Platform, m: Member): seq<byte> {
    if m.compression == DEFLATED then p.deflate(m.body) else m.body
  }

  // ----- the layout; bytes the writer does not set are zero

  function LocalOf(p: Platform, m: Member): Local {
    Local([20, 0], Le16(m.flags), Le16(m.compression), [0, 0, 0, 0], Le32(p.crc32(m.body)), Le32(|Stored(p, m)|),
          Le32(|m.body|), p.encode(m.name), m.localExtra)
  }

  function LocalHeader(p: Platform, m: Member): seq<byte> {
    LocalBytes(LocalOf(p, m))
  }

  function CentralOf(p: Platform, m: Member, offset: nat): Central {
    Central([20, 0, 20, 0], Le16(m.flags), Le16(m.compression), [0, 0, 0, 0], Le32(p.crc32(m.body)),
            Le32(|Stored(p, m)|), Le32(|m.body|), [0, 0, 0, 0, 0, 0, 0, 0], Le32(offset), p.encode(m.name), [], [])
  }

  function CentralEntry(p: Platform, m: Member, offset: nat): seq<byte> {
    CentralBytes(CentralOf(p, m, offset))
  }

  function EndOf(count: nat, size: nat, offset: nat): End {
    End([0, 0, 0, 0], Le16(count), Le16(count), Le32(size), Le32(offset), [])
  }

  function EndRecord(count: nat, size: nat, offset: nat): seq<byte> {
    EndBytes(EndOf(count, size, offset))
  }

  /** Header and body of each member, in order. */
  function LocalParts(p: Platform, members: seq<Member>): (parts: seq<seq<byte>>)
    ensures |parts| == 2 * |members|
  {
    seq(2 * |members|, i requires 0 <= i < 2 * |members| =>
      if i % 2 == 0 then LocalHeader(p, members[i / 2]) else Stored(p, members[i / 2]))
  }

  /** Where the local header of member `i` begins. */
  function Offset(p: Platform, members: seq<Member>, i: nat): nat
    requires i <= |members|
  {
    Start(LocalParts(p, members), 2 * i)
  }

  function CentralParts(p: Platform, members: seq<Member>): (parts: seq<seq<byte>>)
    ensures |parts| == |members|
  {
    seq(|members|, i requires 0 <= i < |members| => CentralEntry(p, members[i], Offset(p, members, i)))
  }

  function Assembled(local: seq<seq<byte>>, central: seq<seq<byte>>, count: nat): seq<byte> {
    Joined(local) + Joined(central) + EndRecord(count, |Joined(central)|, |Joined(local)|)
  }

  function Written(p: Platform, members: seq<Member>): seq<byte> {
    Assembled(LocalParts(p, members), CentralParts(p, members), |members|)
  }

  method TotalLength(parts: seq<seq<byte>>) returns (total: nat)
    ensures total == |Joined(parts)|
  {
    total := 0;
    for i := 0 to |parts|
      invariant total == |Joined(parts[..i])|
    {
      JoinedOne(parts, i);
      total := total + |parts[i]|;
    }
    assert parts[..|parts|] == parts;
  }

  method Concat(parts: seq<seq<byte>>) returns (merged: array<byte>)
    ensures fresh(merged) && merged[..] == Joined(parts)
  {
    var total := TotalLength(parts);
    merged := new byte[total];
    var at := 0;
    for i := 0 to |parts|
      invariant at == |Joined(parts[..i])| <= merged.Length
      invariant merged[..at] == Joined(parts[..i])
    {
      JoinedOne(parts, i);
      JoinedAt(parts, i);
      StartIsLength(parts, i);
      forall k | 0 <= k < |parts[i]| {
        merged[at + k] := parts[i][k];
      }
      at := at + |parts[i]|;
    }
    assert parts[..|parts|] == parts;
  }

  lemma {:induction false} PartsAt(p: Platform, members: seq<Member>, i: nat)
    requires i < |members|
    ensures LocalParts(p, members)[2 * i] == LocalHeader(p, members[i])
    ensures LocalParts(p, members)[2 * i + 1] == Stored(p, members[i])
    ensures CentralParts(p, members)[i] == CentralEntry(p, members[i], Offset(p, members, i))
  {
    assert 2 * i / 2 == i && (2 * i + 1) / 2 == i;
  }

  ghost predicate LaidOut(
    p: Platform, members: seq<Member>, i: nat, local: seq<seq<byte>>, central: seq<seq<byte>>, offset: nat)
    requires i <= |members|
  {
    && local == LocalParts(p, members)[..2 * i]
    && central == CentralParts(p, members)[..i]
    && offset == Offset(p, members, i)
  }

  lemma {:induction false} OneMore(a: seq<seq<byte>>, b: seq<seq<byte>>, i: nat)
    requires i < |b| && 2 * i + 1 < |a|
    ensures a[..2 * (i + 1)] == a[..2 * i] + [a[2 * i], a[2 * i + 1]]
    ensures b[..i + 1] == b[..i] + [b[i]]
    ensures Start(a, 2 * (i + 1)) == Start(a, 2 * i) + |a[2 * i]| + |a[2 * i + 1]|
  {
    assert Start(a, 2 * i + 2) == Start(a, 2 * i + 1) + |a[2 * i + 1]|;
  }

  lemma {:induction false} LayOneMore(
    p: Platform, members: seq<Member>, i: nat, local: seq<seq<byte>>, central: seq<seq<byte>>, offset: nat,
    header: seq<byte>, body: seq<byte>, entry: seq<byte>)
    requires i < |members| && LaidOut(p, members, i, local, central, offset)
    requires header == LocalHeader(p, members[i]) && body == Stored(p, members[i])
    requires entry == CentralEntry(p, members[i], offset)
    ensures LaidOut(p, members, i + 1, local + [header, body], central + [entry], offset + |header| + |body|)
  {
    PartsAt(p, members, i);
    OneMore(LocalParts(p, members), CentralParts(p, members), i);
  }

  method LayOut(p: Platform, members: seq<Member>) returns (local: seq<seq<byte>>, central: seq<seq<byte>>, offset: nat)
    ensures LaidOut(p, members, |members|, local, central, offset)
  {
    local, central, offset := [], [], 0;
    for i := 0 to |members|
      invariant LaidOut(p, members, i, local, central, offset)
    {
      var header := LocalHeader(p, members[i]);
      var body := Stored(p, members[i]);
      var entry := CentralEntry(p, members[i], offset);
      LayOneMore(p, members, i, local, central, offset, header, body, entry);
      local, central := local + [header, body], central + [entry];
      offset := offset + |header| + |body|;
    }
  }

  lemma {:induction false} JoinedThree(a: seq<seq<byte>>, b: seq<seq<byte>>, c: seq<byte>)
    ensures Joined(a + b + [c]) == Joined(a) + Joined(b) + c
  {
    JoinedConcat(a, b);
    JoinedConcat(a + b, [c]);
    assert Joined([c]) == c;
  }

  lemma {:induction false} LaidOutAll(
    p: Platform, members: seq<Member>, local: seq<seq<byte>>, central: seq<seq<byte>>, offset: nat)
    requires LaidOut(p, members, |members|, local, central, offset)
    ensures local == LocalParts(p, members) && central == CentralParts(p, members) && offset == |Joined(local)|
  {
    StartAtEnd(LocalParts(p, members));
  }

  method ZipOf(p: Platform, members: seq<Member>) returns (bytes: array<byte>)
    ensures fresh(bytes) && bytes[..] == Written(p, members)
  {
    var local, central, offset := LayOut(p, members);
    LaidOutAll(p, members, local, central, offset);
    bytes := Assemble(local, central, offset, |members|);
  }

  method Assemble(local: seq<seq<byte>>, central: seq<seq<byte>>, offset: nat, count: nat) returns (bytes: array<byte>)
    requires offset == |Joined(local)|
    ensures fresh(bytes) && bytes[..] == Assembled(local, central, count)
  {
    var size := TotalLength(central);
    var end := EndRecord(count, size, offset);
    JoinedThree(local, central, end);
    bytes := Concat(local + central + [end]);
  }
}
