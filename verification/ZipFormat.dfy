/**
 The records of a ZIP file as their fields laid end to end (sections 4.3.7, 4.3.12 and 4.3.16 of the ZIP APPNOTE), with
 everything a reader may ignore left open.
 */
module ZipFormat {
  import opened Bytes

  /** Each field is as many bytes as its name says in the APPNOTE: two, or four for the sum and the sizes. */
  datatype Local = Local(
    version: seq<byte>, flags: seq<byte>, coding: seq<byte>, stamp: seq<byte>, sum: seq<byte>, size: seq<byte>,
    plain: seq<byte>, name: seq<byte>, extra: seq<byte>)

  datatype Central = Central(
    made: seq<byte>, flags: seq<byte>, coding: seq<byte>, stamp: seq<byte>, sum: seq<byte>, size: seq<byte>,
    plain: seq<byte>, attributes: seq<byte>, offset: seq<byte>, name: seq<byte>, extra: seq<byte>, comment: seq<byte>)

  datatype End = End(
    disks: seq<byte>, onDisk: seq<byte>, count: seq<byte>, size: seq<byte>, offset: seq<byte>, comment: seq<byte>)

  predicate GoodLocal(h: Local) {
    && |h.version| == 2 && |h.flags| == 2 && |h.coding| == 2 && |h.stamp| == 4
    && |h.sum| == 4 && |h.size| == 4 && |h.plain| == 4 && |h.name| <= 0xffff && |h.extra| <= 0xffff
  }

  /** Versions made by and needed, and disk, internal and external attributes, are one field each here. */
  predicate GoodCentral(c: Central) {
    && |c.made| == 4 && |c.flags| == 2 && |c.coding| == 2 && |c.stamp| == 4
    && |c.sum| == 4 && |c.size| == 4 && |c.plain| == 4 && |c.attributes| == 8 && |c.offset| == 4
    && |c.name| <= 0xffff && |c.extra| <= 0xffff && |c.comment| <= 0xffff
  }

  predicate GoodEnd(e: End) {
    && |e.disks| == 4 && |e.onDisk| == 2 && |e.count| == 2 && |e.size| == 4 && |e.offset| == 4
    && |e.comment| <= 0xffff
  }

  const LOCAL_SIGNATURE: seq<byte> := [0x50, 0x4b, 0x03, 0x04]
  const CENTRAL_SIGNATURE: seq<byte> := [0x50, 0x4b, 0x01, 0x02]
  const END_SIGNATURE: seq<byte> := [0x50, 0x4b, 0x05, 0x06]

  function LocalHead(h: Local, name: seq<byte>, extra: seq<byte>): seq<byte> {
    LOCAL_SIGNATURE + h.version + h.flags + h.coding + h.stamp + h.sum + h.size + h.plain + name + extra
  }

  function LocalBytes(h: Local): seq<byte> {
    LocalHead(h, Le16(|h.name|), Le16(|h.extra|)) + (h.name + h.extra)
  }

  function CentralHead(c: Central, name: seq<byte>, extra: seq<byte>, comment: seq<byte>): seq<byte> {
    CENTRAL_SIGNATURE + c.made + c.flags + c.coding + c.stamp + c.sum + c.size + c.plain + name + extra + comment
    + c.attributes + c.offset
  }

  function CentralBytes(c: Central): seq<byte> {
    CentralHead(c, Le16(|c.name|), Le16(|c.extra|), Le16(|c.comment|)) + (c.name + (c.extra + c.comment))
  }

  function EndHead(e: End, comment: seq<byte>): seq<byte> {
    END_SIGNATURE + e.disks + e.onDisk + e.count + e.size + e.offset + comment
  }

  function EndBytes(e: End): seq<byte> {
    EndHead(e, Le16(|e.comment|)) + e.comment
  }

  // ----- where the fields stand

  lemma {:induction false} LocalHeadRead(h: Local, name: seq<byte>, extra: seq<byte>, rest: seq<byte>, all: seq<byte>)
    requires GoodLocal(h) && |name| == 2 && |extra| == 2 && all == LocalHead(h, name, extra) + rest
    ensures |all| == 30 + |rest| && all[30..] == rest
    ensures U32(all, 0) == 0x04034b50 && U16(all, 26) == U16(name, 0) && U16(all, 28) == U16(extra, 0)
  {
  }

  lemma {:induction false} CentralHeadRead(
    c: Central, name: seq<byte>, extra: seq<byte>, comment: seq<byte>, rest: seq<byte>, all: seq<byte>)
    requires GoodCentral(c) && |name| == 2 && |extra| == 2 && |comment| == 2
    requires all == CentralHead(c, name, extra, comment) + rest
    ensures |all| == 46 + |rest| && all[46..] == rest
    ensures U32(all, 0) == 0x02014b50 && U16(all, 8) == U16(c.flags, 0) && U16(all, 10) == U16(c.coding, 0)
    ensures U32(all, 16) == U32(c.sum, 0) && U32(all, 20) == U32(c.size, 0) && U32(all, 24) == U32(c.plain, 0)
    ensures U16(all, 28) == U16(name, 0) && U16(all, 30) == U16(extra, 0) && U16(all, 32) == U16(comment, 0)
    ensures U32(all, 42) == U32(c.offset, 0)
  {
  }

  lemma {:induction false} EndHeadRead(e: End, comment: seq<byte>, rest: seq<byte>, all: seq<byte>)
    requires GoodEnd(e) && |comment| == 2 && all == EndHead(e, comment) + rest
    ensures |all| == 22 + |rest| && all[22..] == rest
    ensures U32(all, 0) == 0x06054b50 && U16(all, 10) == U16(e.count, 0)
    ensures U32(all, 12) == U32(e.size, 0) && U32(all, 16) == U32(e.offset, 0) && U16(all, 20) == U16(comment, 0)
  {
  }

  /** Likewise for a directory record. */
  lemma {:induction false} CentralSignatureOnly(s: seq<byte>, at: nat)
    requires at + 4 <= |s|
    ensures U32(s, at) == 0x02014b50 <==> s[at..at + 4] == CENTRAL_SIGNATURE
  {
    if s[at..at + 4] == CENTRAL_SIGNATURE {
      assert s[at..at + 4][0] == 0x50 && s[at..at + 4][1] == 0x4b && s[at..at + 4][2] == 0x01;
      assert s[at..at + 4][3] == 0x02;
    }
  }

  predicate SignatureAt(s: seq<byte>, at: nat) {
    at + 4 <= |s| && s[at..at + 4] == END_SIGNATURE
  }

  /** Four bytes with the value of the end record's signature are the signature. */
  lemma {:induction false} SignatureOnly(s: seq<byte>, at: nat)
    requires at + 4 <= |s| && U32(s, at) == 0x06054b50
    ensures SignatureAt(s, at)
  {
  }

  // ----- the numbers they hold

  lemma {:induction false} LocalRead(h: Local)
    requires GoodLocal(h)
    ensures var all := LocalBytes(h);
            && |all| == 30 + |h.name| + |h.extra|
            && U32(all, 0) == 0x04034b50 && U16(all, 26) == |h.name| && U16(all, 28) == |h.extra|
  {
    LocalHeadRead(h, Le16(|h.name|), Le16(|h.extra|), h.name + h.extra, LocalBytes(h));
    ReadLe16(|h.name|);
    ReadLe16(|h.extra|);
  }

  lemma {:induction false} CentralRead(c: Central)
    requires GoodCentral(c)
    ensures var all := CentralBytes(c);
            && |all| == 46 + |c.name| + |c.extra| + |c.comment| && all[46..46 + |c.name|] == c.name
            && U32(all, 0) == 0x02014b50 && U16(all, 8) == U16(c.flags, 0) && U16(all, 10) == U16(c.coding, 0)
            && U32(all, 16) == U32(c.sum, 0) && U32(all, 20) == U32(c.size, 0) && U32(all, 24) == U32(c.plain, 0)
            && U16(all, 28) == |c.name| && U16(all, 30) == |c.extra| && U16(all, 32) == |c.comment|
            && U32(all, 42) == U32(c.offset, 0)
  {
    var all, rest := CentralBytes(c), c.name + (c.extra + c.comment);
    CentralHeadRead(c, Le16(|c.name|), Le16(|c.extra|), Le16(|c.comment|), rest, all);
    ReadLe16(|c.name|);
    ReadLe16(|c.extra|);
    ReadLe16(|c.comment|);
    NameFirst(all, c.name, c.extra + c.comment);
  }

  lemma {:induction false} NameFirst(all: seq<byte>, name: seq<byte>, rest: seq<byte>)
    requires |all| >= 46 && all[46..] == name + rest
    ensures |all| >= 46 + |name| && all[46..46 + |name|] == name
  {
    assert all[46..46 + |name|] == all[46..][..|name|];
  }

  lemma {:induction false} EndRead(e: End)
    requires GoodEnd(e)
    ensures var all := EndBytes(e);
            && |all| == 22 + |e.comment|
            && U32(all, 0) == 0x06054b50 && U16(all, 10) == U16(e.count, 0)
            && U32(all, 12) == U32(e.size, 0) && U32(all, 16) == U32(e.offset, 0) && U16(all, 20) == |e.comment|
  {
    EndHeadRead(e, Le16(|e.comment|), e.comment, EndBytes(e));
    ReadLe16(|e.comment|);
  }
}
