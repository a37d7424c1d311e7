/** What the reader makes of an archive the writer produced, intact or with a damaged body. */
module ZipRoundTrip {
  import opened Options
  import opened Bytes
  import opened Sequences
  import opened Crc
  import opened ZipReader
  import opened ZipWriter
  import opened ZipFormat

  // ----- what the reader needs of each part, whatever wrote it

  ghost predicate IsLocalHeader(h: seq<byte>) {
    && |h| >= LOCAL_HEADER_LENGTH
    && U32(h, 0) == LOCAL_HEADER
    && |h| == LOCAL_HEADER_LENGTH + U16(h, 26) + U16(h, 28)
  }

  ghost predicate IsDirectoryRecord(p: Platform, e: seq<byte>, entry: Entry) {
    && |e| >= CENTRAL_ENTRY_LENGTH
    && U32(e, 0) == CENTRAL_HEADER
    && |e| == CENTRAL_ENTRY_LENGTH + U16(e, 28) + U16(e, 30) + U16(e, 32)
    && entry == Entry(p.decode(e[CENTRAL_ENTRY_LENGTH..CENTRAL_ENTRY_LENGTH + U16(e, 28)]),
                      U16(e, 8), U16(e, 10), U32(e, 16), U32(e, 20), U32(e, 24), U32(e, 42))
  }

  ghost predicate IsEndRecordOf(end: seq<byte>, count: nat, size: nat, offset: nat) {
    && |end| >= END_RECORD_LENGTH
    && U32(end, 0) == END_OF_CENTRAL_DIRECTORY && |end| == END_RECORD_LENGTH + U16(end, 20)
    && U16(end, 10) == count && U32(end, 12) == size && U32(end, 16) == offset
  }

  /** From here on, no signature of an end record that would fit into the file. */
  ghost predicate NoneFrom(bytes: seq<byte>, from: nat) {
    forall k | from <= k <= |bytes| - 22 :: !SignatureAt(bytes, k)
  }

  /** Directory records that spell a list of entries. */
  ghost predicate Records(p: Platform, central: seq<seq<byte>>, entries: seq<Entry>) {
    |central| == |entries| && forall i | 0 <= i < |entries| :: IsDirectoryRecord(p, central[i], entries[i])
  }

  /** Local headers and bodies where a list of entries says they are. */
  ghost predicate Bodies(local: seq<seq<byte>>, entries: seq<Entry>) {
    |local| == 2 * |entries| && forall i | 0 <= i < |entries| :: BodyAt(local, entries[i], i)
  }

  ghost predicate BodyAt(local: seq<seq<byte>>, entry: Entry, i: nat)
    requires 2 * i + 1 < |local|
  {
    && IsLocalHeader(local[2 * i])
    && entry.compressedSize == |local[2 * i + 1]|
    && entry.localHeaderOffset == Start(local, 2 * i)
  }

  // ----- opening

  /** The walk reads a directory record wherever in a file it stands. */
  lemma {:induction false} RecordInPlace(p: Platform, e: seq<byte>, entry: Entry, bytes: seq<byte>, at: nat, end: nat)
    requires IsDirectoryRecord(p, e, entry)
    requires at + |e| <= end <= |bytes| && bytes[at..at + |e|] == e
    ensures !DamagedAt(bytes, at, end)
    ensures NextAt(bytes, at) == at + |e| && EntryAt(p, bytes, at, NameEnd(bytes, at)) == entry
  {
    FieldInSlice(bytes, e, at, 0);
    FieldInSlice(bytes, e, at, 28);
    FieldInSlice(bytes, e, at, 30);
    FieldInSlice(bytes, e, at, 32);
    FieldInSlice(bytes, e, at, 8);
    FieldInSlice(bytes, e, at, 10);
    FieldInSlice(bytes, e, at, 16);
    FieldInSlice(bytes, e, at, 20);
    FieldInSlice(bytes, e, at, 24);
    FieldInSlice(bytes, e, at, 42);
    SliceOfSlice(bytes, e, at, CENTRAL_ENTRY_LENGTH, CENTRAL_ENTRY_LENGTH + U16(e, 28));
  }

  lemma {:induction false} SliceOfSlice(bytes: seq<byte>, whole: seq<byte>, start: nat, a: nat, b: nat)
    requires start + |whole| <= |bytes| && bytes[start..start + |whole|] == whole && a <= b <= |whole|
    ensures bytes[start + a..start + b] == whole[a..b]
  {
    forall k | 0 <= k < b - a
      ensures bytes[start + a..start + b][k] == whole[a..b][k]
    {
      assert bytes[start..start + |whole|][a + k] == whole[a + k];
    }
  }

  /** The directory from `at` on lists exactly these entries. */
  ghost predicate Listed(p: Platform, bytes: seq<byte>, at: nat, end: nat, entries: seq<Entry>) {
    end <= |bytes| && Directory(p, bytes, at, end, |entries|) == Ok(entries)
  }

  lemma {:induction false} ListedOne(
    p: Platform, e: seq<byte>, bytes: seq<byte>, at: nat, next: nat, end: nat, first: Entry, rest: seq<Entry>)
    requires next == at + |e| <= end <= |bytes| && bytes[at..next] == e
    requires IsDirectoryRecord(p, e, first) && Listed(p, bytes, next, end, rest)
    ensures Listed(p, bytes, at, end, [first] + rest)
  {
    RecordInPlace(p, e, first, bytes, at, end);
    DirectoryUnfolds(p, bytes, at, next, end, |[first] + rest|, first);
  }

  lemma {:induction false} DirectoryUnfolds(
    p: Platform, bytes: seq<byte>, at: nat, next: nat, end: nat, count: nat, first: Entry)
    requires end <= |bytes| && count > 0 && !DamagedAt(bytes, at, end)
    requires NextAt(bytes, at) == next && EntryAt(p, bytes, at, NameEnd(bytes, at)) == first
    ensures Directory(p, bytes, at, end, count) == After([first], Directory(p, bytes, next, end, count - 1))
  {
  }

  lemma {:induction false} PartInFile(bytes: seq<byte>, parts: seq<seq<byte>>, start: nat, i: nat)
    requires start + |Joined(parts)| <= |bytes| && bytes[start..start + |Joined(parts)|] == Joined(parts)
    requires i < |parts|
    ensures Start(parts, i + 1) == Start(parts, i) + |parts[i]| <= |Joined(parts)|
    ensures bytes[start + Start(parts, i)..start + Start(parts, i + 1)] == parts[i]
  {
    JoinedAt(parts, i);
    SliceOfSlice(bytes, Joined(parts), start, Start(parts, i), Start(parts, i + 1));
  }

  lemma {:induction false} PartAt(bytes: seq<byte>, parts: seq<seq<byte>>, start: nat, i: nat, at: nat)
    returns (next: nat)
    requires start + |Joined(parts)| <= |bytes| && bytes[start..start + |Joined(parts)|] == Joined(parts)
    requires i < |parts| && at == start + Start(parts, i)
    ensures next == start + Start(parts, i + 1) == at + |parts[i]| <= start + |Joined(parts)|
    ensures bytes[at..next] == parts[i]
  {
    PartInFile(bytes, parts, start, i);
    next := start + Start(parts, i + 1);
  }

  lemma {:induction false} ListedHead(
    p: Platform, e: seq<byte>, bytes: seq<byte>, at: nat, next: nat, end: nat, entries: seq<Entry>)
    requires next == at + |e| <= end <= |bytes| && bytes[at..next] == e && entries != []
    requires IsDirectoryRecord(p, e, entries[0]) && Listed(p, bytes, next, end, entries[1..])
    ensures Listed(p, bytes, at, end, entries)
  {
    ListedOne(p, e, bytes, at, next, end, entries[0], entries[1..]);
    assert entries == [entries[0]] + entries[1..];
  }

  /** The records from the `i`-th on list the entries left, `rest`. */
  lemma {:induction false} ListedFrom(
    p: Platform, central: seq<seq<byte>>, entries: seq<Entry>, bytes: seq<byte>, start: nat, end: nat, i: nat, at: nat,
    rest: seq<Entry>)
    requires Records(p, central, entries) && i <= |entries|
    requires end == start + |Joined(central)| <= |bytes| && bytes[start..end] == Joined(central)
    requires at == start + Start(central, i) && rest == entries[i..]
    ensures Listed(p, bytes, at, end, rest)
    decreases |rest|
  {
    if rest != [] {
      var next := PartAt(bytes, central, start, i, at);
      assert rest[1..] == entries[i + 1..] && rest[0] == entries[i];
      ListedFrom(p, central, entries, bytes, start, end, i + 1, next, rest[1..]);
      ListedHead(p, central[i], bytes, at, next, end, rest);
    }
  }

  /** No later signature: the record at `at` is the one found. */
  lemma {:induction false} LastRecordEnds(bytes: seq<byte>, end: seq<byte>, at: nat, count: nat, size: nat, offset: nat)
    requires IsEndRecordOf(end, count, size, offset) && at + |end| == |bytes| && bytes[at..] == end
    requires NoneFrom(bytes, at + 1)
    ensures IsEndRecord(bytes, at)
    ensures U16(bytes, at + 10) == count && U32(bytes, at + 12) == size && U32(bytes, at + 16) == offset
  {
    FieldInSlice(bytes, end, at, 0);
    FieldInSlice(bytes, end, at, 20);
    FieldInSlice(bytes, end, at, 10);
    FieldInSlice(bytes, end, at, 12);
    FieldInSlice(bytes, end, at, 16);
    forall k | at < k
      ensures !EndRecordAt(bytes, k)
    {
      if EndRecordAt(bytes, k) {
        SignatureOnly(bytes, k);
        assert false;
      }
    }
  }

  lemma {:induction false} OpenedWith(
    p: Platform, bytes: seq<byte>, end: nat, close: nat, count: nat, size: nat, offset: nat, entries: seq<Entry>)
    requires IsEndRecord(bytes, end) && close == offset + size <= |bytes|
    requires U16(bytes, end + 10) == count && U32(bytes, end + 12) == size && U32(bytes, end + 16) == offset
    requires Directory(p, bytes, offset, close, count) == Ok(entries)
    ensures Opens(p, bytes, Ok(Archive(bytes, entries)))
  {
    assert OpenedAt(p, bytes, end) == Ok(Archive(bytes, entries));
  }

  /** A directory anywhere in the file, and an end record that names it. */
  lemma {:induction false} OpensParts(
    p: Platform, central: seq<seq<byte>>, directory: seq<byte>, entries: seq<Entry>, bytes: seq<byte>, start: nat,
    close: nat, at: nat, end: seq<byte>)
    requires Records(p, central, entries) && directory == Joined(central)
    requires close == start + |directory| <= |bytes| && bytes[start..close] == directory
    requires IsEndRecordOf(end, |entries|, |directory|, start)
    requires at + |end| == |bytes| && bytes[at..] == end && NoneFrom(bytes, at + 1)
    ensures Opens(p, bytes, Ok(Archive(bytes, entries)))
  {
    DirectoryWhole(p, central, directory, entries, bytes, start, close);
    LastRecordEnds(bytes, end, at, |entries|, |directory|, start);
    OpenedWith(p, bytes, at, close, |entries|, |directory|, start, entries);
  }

  /** What a directory record of the format says. */
  function EntryOf(p: Platform, c: Central): Entry
    requires GoodCentral(c)
  {
    Entry(p.decode(c.name), U16(c.flags, 0), U16(c.coding, 0), U32(c.sum, 0), U32(c.size, 0), U32(c.plain, 0),
          U32(c.offset, 0))
  }

  lemma {:induction false} CentralSpells(p: Platform, c: Central)
    requires GoodCentral(c)
    ensures IsDirectoryRecord(p, CentralBytes(c), EntryOf(p, c))
  {
    CentralRead(c);
  }

  function AllCentral(directory: seq<Central>): (parts: seq<seq<byte>>)
    ensures |parts| == |directory|
  {
    seq(|directory|, i requires 0 <= i < |directory| => CentralBytes(directory[i]))
  }

  /**
   Any archive of the format opens with the entries of its directory, in order: whatever extra fields and comments the
   records have, wherever the directory stands, whatever comes between and before, and with any archive comment that
   does not hold the end record's signature.
   */
  lemma {:induction false} AnyArchiveOpens(
    p: Platform, directory: seq<Central>, end: End, entries: seq<Entry>, bytes: seq<byte>, start: nat, close: nat,
    at: nat)
    requires (forall i | 0 <= i < |directory| :: GoodCentral(directory[i])) && GoodEnd(end)
    requires |entries| == |directory| == U16(end.count, 0)
    requires forall i | 0 <= i < |directory| :: entries[i] == EntryOf(p, directory[i])
    requires start == U32(end.offset, 0) && close == start + U32(end.size, 0)
    requires start <= close <= |bytes| && bytes[start..close] == Joined(AllCentral(directory))
    requires at <= |bytes| && bytes[at..] == EndBytes(end) && NoneFrom(bytes, at + 1)
    ensures Opens(p, bytes, Ok(Archive(bytes, entries)))
  {
    AllSpelled(p, directory, entries);
    EndSpells(end);
    var central := AllCentral(directory);
    OpensParts(p, central, Joined(central), entries, bytes, start, close, at, EndBytes(end));
  }

  lemma {:induction false} AllSpelled(p: Platform, directory: seq<Central>, entries: seq<Entry>)
    requires (forall i | 0 <= i < |directory| :: GoodCentral(directory[i])) && |entries| == |directory|
    requires forall i | 0 <= i < |directory| :: entries[i] == EntryOf(p, directory[i])
    ensures Records(p, AllCentral(directory), entries)
  {
    forall i | 0 <= i < |entries|
      ensures IsDirectoryRecord(p, AllCentral(directory)[i], entries[i])
    {
      CentralSpells(p, directory[i]);
    }
  }

  /** A whole record up to the end of its name, by its own lengths and inside the directory. */
  ghost predicate RecordStands(p: Platform, bytes: seq<byte>, at: nat, end: nat, entry: Entry) {
    && at + 46 <= end <= |bytes| && bytes[at..at + 4] == CENTRAL_SIGNATURE
    && at + 46 + U16(bytes, at + 28) <= end
    && entry == Entry(p.decode(bytes[at + 46..at + 46 + U16(bytes, at + 28)]), U16(bytes, at + 8), U16(bytes, at + 10),
                      U32(bytes, at + 16), U32(bytes, at + 20), U32(bytes, at + 24), U32(bytes, at + 42))
  }

  /** Records one after the other, each beginning where the lengths of the one before end it. */
  ghost predicate Walks(p: Platform, bytes: seq<byte>, at: nat, end: nat, entries: seq<Entry>)
    decreases |entries|
  {
    entries != [] ==>
      && RecordStands(p, bytes, at, end, entries[0])
      && Walks(p, bytes, at + 46 + U16(bytes, at + 28) + U16(bytes, at + 30) + U16(bytes, at + 32), end, entries[1..])
  }

  lemma {:induction false} StandsIff(p: Platform, bytes: seq<byte>, at: nat, end: nat, entry: Entry)
    requires end <= |bytes|
    ensures RecordStands(p, bytes, at, end, entry)
            <==> !DamagedAt(bytes, at, end) && entry == EntryAt(p, bytes, at, NameEnd(bytes, at))
  {
    if at + 46 <= end {
      CentralSignatureOnly(bytes, at);
    }
  }

  /** A directory is listed if and only if it is one: as many whole records as were asked for, end to end. */
  lemma {:induction false} ListedIff(p: Platform, bytes: seq<byte>, at: nat, end: nat, count: nat, entries: seq<Entry>)
    requires end <= |bytes|
    ensures Directory(p, bytes, at, end, count) == Ok(entries)
            <==> |entries| == count && Walks(p, bytes, at, end, entries)
    decreases count
  {
    if count > 0 && entries != [] {
      if !DamagedAt(bytes, at, end) {
        ListedIff(p, bytes, NextAt(bytes, at), end, count - 1, entries[1..]);
      }
      OneMoreListed(p, bytes, at, end, count, entries);
    }
  }

  lemma {:induction false} OneMoreListed(
    p: Platform, bytes: seq<byte>, at: nat, end: nat, count: nat, entries: seq<Entry>)
    requires end <= |bytes| && count > 0 && entries != []
    requires !DamagedAt(bytes, at, end) ==>
      (Directory(p, bytes, NextAt(bytes, at), end, count - 1) == Ok(entries[1..])
       <==> |entries[1..]| == count - 1 && Walks(p, bytes, NextAt(bytes, at), end, entries[1..]))
    ensures Directory(p, bytes, at, end, count) == Ok(entries)
            <==> |entries| == count && Walks(p, bytes, at, end, entries)
  {
    StandsIff(p, bytes, at, end, entries[0]);
    if !DamagedAt(bytes, at, end) {
      var first := EntryAt(p, bytes, at, NameEnd(bytes, at));
      var rest := Directory(p, bytes, NextAt(bytes, at), end, count - 1);
      assert Directory(p, bytes, at, end, count) == After([first], rest);
      AfterOne(first, rest, entries);
      WalksOn(p, bytes, at, end, entries);
    }
  }

  lemma {:induction false} WalksOn(p: Platform, bytes: seq<byte>, at: nat, end: nat, entries: seq<Entry>)
    requires entries != [] && at + 46 <= end <= |bytes|
    ensures Walks(p, bytes, at, end, entries)
            <==> RecordStands(p, bytes, at, end, entries[0]) && Walks(p, bytes, NextAt(bytes, at), end, entries[1..])
  {
  }

  lemma {:induction false} AfterOne(first: Entry, rest: Result<seq<Entry>>, entries: seq<Entry>)
    requires entries != []
    ensures After([first], rest) == Ok(entries) <==> first == entries[0] && rest == Ok(entries[1..])
  {
    if rest.Ok? {
      assert ([first] + rest.value)[0] == first && ([first] + rest.value)[1..] == rest.value;
    }
    assert entries == [entries[0]] + entries[1..];
  }

  lemma {:induction false} EndSpells(end: End)
    requires GoodEnd(end)
    ensures IsEndRecordOf(EndBytes(end), U16(end.count, 0), U32(end.size, 0), U32(end.offset, 0))
  {
    EndRead(end);
  }

  lemma {:induction false} DirectoryWhole(
    p: Platform, central: seq<seq<byte>>, directory: seq<byte>, entries: seq<Entry>, bytes: seq<byte>, start: nat,
        end: nat)
    requires Records(p, central, entries) && directory == Joined(central)
    requires end == start + |directory| <= |bytes| && bytes[start..end] == directory
    ensures Directory(p, bytes, start, end, |entries|) == Ok(entries)
  {
    ListedFrom(p, central, entries, bytes, start, end, 0, start, entries);
  }

  // ----- reading one body

  lemma {:induction false} BodyInPlace(bytes: seq<byte>, h: seq<byte>, body: seq<byte>, entry: Entry)
    requires IsLocalHeader(h) && entry.compressedSize == |body|
    requires entry.localHeaderOffset + |h| + |body| <= |bytes|
    requires bytes[entry.localHeaderOffset..entry.localHeaderOffset + |h|] == h
    requires bytes[entry.localHeaderOffset + |h|..entry.localHeaderOffset + |h| + |body|] == body
    ensures BodyStart(bytes, entry.localHeaderOffset) == entry.localHeaderOffset + |h|
    ensures CompressedBytes(bytes, entry) == Ok(body)
  {
    var at := entry.localHeaderOffset;
    FieldInSlice(bytes, h, at, 0);
    FieldInSlice(bytes, h, at, 26);
    FieldInSlice(bytes, h, at, 28);
  }

  lemma {:induction false} BodyFound(local: seq<seq<byte>>, entries: seq<Entry>, bytes: seq<byte>, i: nat)
    requires Bodies(local, entries) && i < |entries|
    requires |Joined(local)| <= |bytes| && bytes[..|Joined(local)|] == Joined(local)
    ensures CompressedBytes(bytes, entries[i]) == Ok(local[2 * i + 1])
    ensures entries[i].localHeaderOffset + LOCAL_HEADER_LENGTH <= |bytes|
    ensures BodyStart(bytes, entries[i].localHeaderOffset) == Start(local, 2 * i + 1)
  {
    assert BodyAt(local, entries[i], i);
    PartInFile(bytes, local, 0, 2 * i);
    PartInFile(bytes, local, 0, 2 * i + 1);
    BodyInPlace(bytes, local[2 * i], local[2 * i + 1], entries[i]);
  }

  // ----- the writer's parts

  /** zlib's checksum is the polynomial one. */
  ghost predicate SoundCrc(p: Platform) {
    forall bytes: seq<byte> :: p.crc32(bytes) == Value(PolynomialCrc(bytes))
  }

  /** The 16- and 32-bit fields hold what is written into them. */
  ghost predicate FitsFields(p: Platform, m: Member) {
    && m.flags <= 0xffff && m.compression <= 0xffff
    && |p.encode(m.name)| <= 0xffff && |m.localExtra| <= 0xffff
    && |m.body| <= 0xffff_ffff && |Stored(p, m)| <= 0xffff_ffff
  }

  ghost predicate Fits(p: Platform, members: seq<Member>) {
    && |members| <= 0xffff
    && |Joined(LocalParts(p, members))| <= 0xffff_ffff && |Joined(CentralParts(p, members))| <= 0xffff_ffff
    && forall i | 0 <= i < |members| :: FitsFields(p, members[i])
  }

  /** The directory entry that describes a member written at the offset. */
  function Described(p: Platform, m: Member, offset: nat): Entry {
    Entry(p.decode(p.encode(m.name)), m.flags, m.compression, p.crc32(m.body), |Stored(p, m)|, |m.body|, offset)
  }

  function AllDescribed(p: Platform, members: seq<Member>): (entries: seq<Entry>)
    ensures |entries| == |members|
  {
    seq(|members|, i requires 0 <= i < |members| => Described(p, members[i], Offset(p, members, i)))
  }

  lemma {:induction false} SumFits(p: Platform, bytes: seq<byte>)
    requires SoundCrc(p)
    ensures p.crc32(bytes) <= 0xffff_ffff
  {
    WordBound(PolynomialCrc(bytes));
  }

  lemma {:induction false} WrittenLocalHeader(p: Platform, m: Member)
    requires FitsFields(p, m)
    ensures IsLocalHeader(LocalHeader(p, m))
  {
    LocalRead(LocalOf(p, m));
  }

  lemma {:induction false} ReadFields(a: nat, b: nat, c: nat, d: nat, e: nat, g: nat)
    requires a <= 0xffff && b <= 0xffff
    requires c <= 0xffff_ffff && d <= 0xffff_ffff && e <= 0xffff_ffff && g <= 0xffff_ffff
    ensures U16(Le16(a), 0) == a && U16(Le16(b), 0) == b
    ensures U32(Le32(c), 0) == c && U32(Le32(d), 0) == d && U32(Le32(e), 0) == e && U32(Le32(g), 0) == g
  {
    ReadLe16(a);
    ReadLe16(b);
    ReadLe32(c);
    ReadLe32(d);
    ReadLe32(e);
    ReadLe32(g);
  }

  lemma {:induction false} WrittenRecord(p: Platform, m: Member, offset: nat)
    requires FitsFields(p, m) && p.crc32(m.body) <= 0xffff_ffff && offset <= 0xffff_ffff
    ensures GoodCentral(CentralOf(p, m, offset)) && EntryOf(p, CentralOf(p, m, offset)) == Described(p, m, offset)
    ensures IsDirectoryRecord(p, CentralEntry(p, m, offset), Described(p, m, offset))
  {
    CentralSpells(p, CentralOf(p, m, offset));
    ReadFields(m.flags, m.compression, p.crc32(m.body), |Stored(p, m)|, |m.body|, offset);
  }

  lemma {:induction false} WrittenEnd(count: nat, size: nat, offset: nat)
    requires count <= 0xffff && size <= 0xffff_ffff && offset <= 0xffff_ffff
    ensures IsEndRecordOf(EndRecord(count, size, offset), count, size, offset)
    ensures |EndRecord(count, size, offset)| == END_RECORD_LENGTH
  {
    EndRead(EndOf(count, size, offset));
    ReadLe16(count);
    ReadLe32(size);
    ReadLe32(offset);
  }

  lemma {:induction false} StartWithin(parts: seq<seq<byte>>, i: nat)
    requires i <= |parts|
    ensures Start(parts, i) <= |Joined(parts)|
  {
    if i < |parts| {
      JoinedAt(parts, i);
    } else {
      StartAtEnd(parts);
    }
  }

  lemma {:induction false} WrittenRecords(p: Platform, members: seq<Member>)
    requires Fits(p, members) && SoundCrc(p)
    ensures Records(p, CentralParts(p, members), AllDescribed(p, members))
  {
    forall i | 0 <= i < |members|
      ensures IsDirectoryRecord(p, CentralParts(p, members)[i], AllDescribed(p, members)[i])
    {
      assert FitsFields(p, members[i]);
      SumFits(p, members[i].body);
      StartWithin(LocalParts(p, members), 2 * i);
      WrittenRecord(p, members[i], Offset(p, members, i));
      PartsAt(p, members, i);
    }
  }

  lemma {:induction false} WrittenBodies(p: Platform, members: seq<Member>)
    requires Fits(p, members)
    ensures Bodies(LocalParts(p, members), AllDescribed(p, members))
  {
    forall i | 0 <= i < |members|
      ensures BodyAt(LocalParts(p, members), AllDescribed(p, members)[i], i)
    {
      assert FitsFields(p, members[i]);
      WrittenLocalHeader(p, members[i]);
      PartsAt(p, members, i);
    }
  }

  // ----- round trip

  /**
   An archive the writer made opens, and lists its members in order. The statement is about every file with the
   writer's directory and end record behind anything as long as its headers and bodies, so that it also serves for
   damaged bodies.
   */
  lemma {:induction false} WrittenOpens(p: Platform, members: seq<Member>, front: seq<byte>, bytes: seq<byte>)
    requires Fits(p, members) && SoundCrc(p)
    requires |front| == |Joined(LocalParts(p, members))|
    requires bytes == front + Written(p, members)[|front|..]
    ensures Opens(p, bytes, Ok(Archive(bytes, AllDescribed(p, members))))
  {
    var central := CentralParts(p, members);
    var directory := Joined(central);
    var end := EndRecord(|members|, |directory|, |front|);
    WrittenRecords(p, members);
    WrittenEnd(|members|, |directory|, |front|);
    TailAssembled(LocalParts(p, members), central, |members|, front, bytes);
    var at := |front| + |directory|;
    ThreeParts(front, directory, end, bytes);
    OpensParts(p, central, directory, AllDescribed(p, members), bytes, |front|, at, at, end);
  }

  lemma {:induction false} ThreeParts(a: seq<byte>, b: seq<byte>, c: seq<byte>, whole: seq<byte>)
    requires whole == a + b + c
    ensures whole[|a|..|a| + |b|] == b && whole[|a| + |b|..] == c
  {
  }

  lemma {:induction false} TailAssembled(
    local: seq<seq<byte>>, central: seq<seq<byte>>, count: nat, front: seq<byte>, bytes: seq<byte>)
    requires |front| == |Joined(local)| && bytes == front + Assembled(local, central, count)[|front|..]
    ensures bytes == front + Joined(central) + EndRecord(count, |Joined(central)|, |front|)
  {
    BehindFront(Joined(local), Joined(central), EndRecord(count, |Joined(central)|, |front|), front);
  }

  lemma {:induction false} BehindFront(a: seq<byte>, b: seq<byte>, c: seq<byte>, front: seq<byte>)
    requires |front| == |a|
    ensures front + (a + b + c)[|front|..] == front + b + c
  {
    TailOfThree(a, b, c);
    assert front + (b + c) == front + b + c;
  }

  lemma {:induction false} TailOfThree(a: seq<byte>, b: seq<byte>, c: seq<byte>)
    ensures (a + b + c)[|a|..] == b + c
    ensures (a + b + c)[..|a|] == a
  {
  }

  ghost predicate Faithful(p: Platform, members: seq<Member>) {
    forall i | 0 <= i < |members| :: p.decode(p.encode(members[i].name)) == members[i].name
  }

  /** The names listed are the members' names, in order. */
  lemma {:induction false} NamesInOrder(p: Platform, members: seq<Member>, bytes: seq<byte>)
    requires Faithful(p, members)
    ensures |Archive(bytes, AllDescribed(p, members)).Names()| == |members|
    ensures forall i | 0 <= i < |members| :: Archive(bytes, AllDescribed(p, members)).Names()[i] == members[i].name
  {
  }

  lemma {:induction false} FirstAt(entries: seq<Entry>, name: string, i: nat)
    requires i < |entries| && entries[i].name == name
    requires forall j | 0 <= j < i :: entries[j].name != name
    ensures First(entries, name) == Some(entries[i])
  {
    if i > 0 {
      FirstAt(entries[1..], name, i - 1);
    }
  }

  lemma {:induction false} FirstNone(entries: seq<Entry>, name: string)
    requires forall j | 0 <= j < |entries| :: entries[j].name != name
    ensures First(entries, name).None?
  {
    if entries != [] {
      FirstNone(entries[1..], name);
    }
  }

  /** What reading a member back must answer. */
  function ReadBack(p: Platform, m: Member): Result<seq<byte>> {
    if m.flags % 2 == 1 then Refused(Encrypted)
    else if |m.body| == ZIP64_MARKER || |Stored(p, m)| == ZIP64_MARKER then Refused(Zip64)
    else if m.compression != STORED && m.compression != DEFLATED then Refused(UnknownMethod)
    else Ok(m.body)
  }

  /** The first member of its name reads back as the bytes put in; only a flag, a size or a method refuses it. */
  lemma {:induction false} WrittenReadsBack(p: Platform, members: seq<Member>, i: nat)
    requires Fits(p, members) && SoundCrc(p) && Faithful(p, members)
    requires i < |members| && forall j | 0 <= j < i :: members[j].name != members[i].name
    requires members[i].compression == DEFLATED ==> p.inflate(p.deflate(members[i].body)) == Some(members[i].body)
    ensures ReadName(p, Archive(Written(p, members), AllDescribed(p, members)), members[i].name)
            == ReadBack(p, members[i])
  {
    var entries, bytes := AllDescribed(p, members), Written(p, members);
    FirstAt(entries, members[i].name, i);
    WrittenPlace(p, members, i);
    DescribedReads(p, bytes, members[i], Offset(p, members, i));
  }

  lemma {:induction false} DescribedReads(p: Platform, bytes: seq<byte>, m: Member, offset: nat)
    requires SoundCrc(p) && (m.compression == DEFLATED ==> p.inflate(p.deflate(m.body)) == Some(m.body))
    requires CompressedBytes(bytes, Described(p, m, offset)) == Ok(Stored(p, m))
    ensures ReadEntry(p, bytes, Described(p, m, offset)) == ReadBack(p, m)
  {
    var entry := Described(p, m, offset);
    ReadEntryOf(p, bytes, entry, Stored(p, m));
    if entry.KnownMethod() {
      ExpandedBack(p, m, offset);
    }
  }

  lemma {:induction false} ReadEntryOf(p: Platform, bytes: seq<byte>, entry: Entry, stored: seq<byte>)
    requires CompressedBytes(bytes, entry) == Ok(stored)
    ensures ReadEntry(p, bytes, entry)
         == if entry.IsEncrypted() then Refused(Encrypted)
            else if entry.IsZip64() then Refused(Zip64)
            else if !entry.KnownMethod() then Refused(UnknownMethod)
            else Expanded(p, entry, stored)
  {
  }

  lemma {:induction false} ExpandedBack(p: Platform, m: Member, offset: nat)
    requires SoundCrc(p) && (m.compression == DEFLATED ==> p.inflate(p.deflate(m.body)) == Some(m.body))
    requires m.compression == STORED || m.compression == DEFLATED
    ensures Expanded(p, Described(p, m, offset), Stored(p, m)) == Ok(m.body)
  {
    TableIsPolynomial(m.body);
  }

  /** The contents a body stands for, if the method is known. */
  function Contents(p: Platform, coding: nat, body: seq<byte>): Option<seq<byte>> {
    if coding == 0 then Some(body) else if coding == 8 then p.inflate(body) else None
  }

  /**
   In any file of the format, whatever local name and extra field its header has: a member that is not encrypted and not
   of Zip64 size reads if and only if its body stands for contents of the recorded length and sum, and reads as those.
   */
  lemma {:induction false} AnyMemberReads(p: Platform, bytes: seq<byte>, entry: Entry, h: Local, body: seq<byte>)
    requires entry.flags % 2 == 0 && |body| == entry.compressedSize != 0xffff_ffff
    requires entry.uncompressedSize != 0xffff_ffff
    requires var at := entry.localHeaderOffset;
             && GoodLocal(h) && at + |LocalBytes(h)| + |body| <= |bytes|
             && bytes[at..at + |LocalBytes(h)|] == LocalBytes(h)
             && bytes[at + |LocalBytes(h)|..at + |LocalBytes(h)| + |body|] == body
    ensures var contents := Contents(p, entry.compression, body);
            ReadEntry(p, bytes, entry).Ok?
            <==> && contents.Some? && |contents.value| == entry.uncompressedSize
                 && Value(PolynomialCrc(contents.value)) == entry.checksum
    ensures ReadEntry(p, bytes, entry).Ok?
            ==> ReadEntry(p, bytes, entry) == Ok(Contents(p, entry.compression, body).value)
  {
    LocalRead(h);
    BodyInPlace(bytes, LocalBytes(h), body, entry);
    BodyReads(p, bytes, entry, body);
  }

  lemma {:induction false} BodyReads(p: Platform, bytes: seq<byte>, entry: Entry, body: seq<byte>)
    requires entry.flags % 2 == 0 && !entry.IsZip64() && CompressedBytes(bytes, entry) == Ok(body)
    ensures var contents := Contents(p, entry.compression, body);
            ReadEntry(p, bytes, entry).Ok?
            <==> && contents.Some? && |contents.value| == entry.uncompressedSize
                 && Value(PolynomialCrc(contents.value)) == entry.checksum
    ensures ReadEntry(p, bytes, entry).Ok?
            ==> ReadEntry(p, bytes, entry) == Ok(Contents(p, entry.compression, body).value)
  {
    ReadEntryOf(p, bytes, entry, body);
    var contents := Contents(p, entry.compression, body);
    if contents.Some? {
      TableIsPolynomial(contents.value);
    }
  }

  lemma {:induction false} AbsentName(p: Platform, members: seq<Member>, bytes: seq<byte>, name: string)
    requires Faithful(p, members) && forall j | 0 <= j < |members| :: members[j].name != name
    ensures ReadName(p, Archive(bytes, AllDescribed(p, members)), name) == Refused(NoSuchMember)
  {
    FirstNone(AllDescribed(p, members), name);
  }

  // ----- damage

  /** The files differ, and only inside `[k, k + n)`. */
  ghost predicate DamagedWithin(bytes: seq<byte>, damaged: seq<byte>, k: nat, n: nat) {
    && |damaged| == |bytes| && damaged != bytes && k + n <= |bytes|
    && forall j | 0 <= j < |bytes| && !(k <= j < k + n) :: damaged[j] == bytes[j]
  }

  lemma {:induction false} SumsDiffer(a: seq<byte>, b: seq<byte>)
    requires Crc32(a) != Crc32(b)
    ensures Value(Crc32(a)) != Value(Crc32(b))
  {
    BitsOfValue(Crc32(a));
    BitsOfValue(Crc32(b));
  }

  lemma {:induction false} DamageParts(a: seq<byte>, b: seq<byte>, k: nat, n: nat)
    requires DamagedWithin(a, b, k, n)
    ensures a == a[..k] + a[k..k + n] + a[k + n..]
    ensures b == a[..k] + b[k..k + n] + a[k + n..]
    ensures a[k..k + n] != b[k..k + n]
  {
    assert b == a[..k] + b[k..k + n] + a[k + n..];
  }

  lemma {:induction false} BurstIn(a: seq<byte>, b: seq<byte>, k: nat, n: nat)
    requires DamagedWithin(a, b, k, n) && n <= 4
    ensures Value(Crc32(a)) != Value(Crc32(b))
  {
    DamageParts(a, b, k, n);
    BurstChangesCrc(a[..k], a[k..k + n], b[k..k + n], a[k + n..]);
    SumsDiffer(a, b);
  }

  lemma {:induction false} WithinSlice(bytes: seq<byte>, damaged: seq<byte>, k: nat, n: nat, start: nat, end: nat)
    requires DamagedWithin(bytes, damaged, k, n) && start <= k && k + n <= end <= |bytes|
    ensures DamagedWithin(bytes[start..end], damaged[start..end], k - start, n)
  {
    var a, b := bytes[start..end], damaged[start..end];
    if a == b {
      forall j | 0 <= j < |bytes|
        ensures bytes[j] == damaged[j]
      {
        if start <= j < end {
          assert a[j - start] == b[j - start];
        }
      }
      assert false;
    }
  }

  lemma {:induction false} HeaderUndamaged(bytes: seq<byte>, damaged: seq<byte>, k: nat, n: nat, at: nat)
    requires DamagedWithin(bytes, damaged, k, n) && at + LOCAL_HEADER_LENGTH <= k
    ensures U32(damaged, at) == U32(bytes, at) && BodyStart(damaged, at) == BodyStart(bytes, at)
  {
  }

  lemma {:induction false} DamagedBody(bytes: seq<byte>, damaged: seq<byte>, entry: Entry, k: nat, n: nat, start: nat)
    requires CompressedBytes(bytes, entry).Ok? && DamagedWithin(bytes, damaged, k, n)
    requires start == BodyStart(bytes, entry.localHeaderOffset) <= k && k + n <= start + entry.compressedSize
    ensures CompressedBytes(damaged, entry).Ok?
    ensures DamagedWithin(CompressedBytes(bytes, entry).value, CompressedBytes(damaged, entry).value, k - start, n)
  {
    HeaderUndamaged(bytes, damaged, k, n, entry.localHeaderOffset);
    WithinSlice(bytes, damaged, k, n, start, start + entry.compressedSize);
  }

  lemma {:induction false} DamagedContents(entry: Entry, a: seq<byte>, b: seq<byte>, k: nat, n: nat)
    requires DamagedWithin(a, b, k, n) && n <= 4 && Checked(entry, a).Ok?
    ensures Checked(entry, b) == Refused(Mismatch)
  {
    BurstIn(a, b, k, n);
  }

  /**
   A stored member that reads, with up to four consecutive bytes of its body changed, is refused: its checksum no
   longer matches. This holds in any archive.
   */
  lemma {:induction false} DamageRefused(
    p: Platform, bytes: seq<byte>, damaged: seq<byte>, entry: Entry, k: nat, n: nat, start: nat)
    requires ReadEntry(p, bytes, entry).Ok? && entry.compression == STORED
    requires DamagedWithin(bytes, damaged, k, n) && n <= 4
    requires start == BodyStart(bytes, entry.localHeaderOffset) <= k && k + n <= start + entry.compressedSize
    ensures ReadEntry(p, damaged, entry) == Refused(Mismatch)
  {
    DamagedBody(bytes, damaged, entry, k, n, start);
    var a, b := CompressedBytes(bytes, entry).value, CompressedBytes(damaged, entry).value;
    ReadEntryOf(p, bytes, entry, a);
    ReadEntryOf(p, damaged, entry, b);
    DamagedContents(entry, a, b, k - start, n);
  }

  /** Damage inside the body of a stored member leaves the written archive opening with the same members. */
  lemma {:induction false} DamagedOpens(p: Platform, members: seq<Member>, damaged: seq<byte>, i: nat, k: nat, n: nat)
    requires Fits(p, members) && SoundCrc(p) && i < |members| && members[i].compression == STORED
    requires DamagedWithin(Written(p, members), damaged, k, n)
    requires k + n <= Start(LocalParts(p, members), 2 * i + 1) + |members[i].body|
    ensures Opens(p, damaged, Ok(Archive(damaged, AllDescribed(p, members))))
  {
    var front := |Joined(LocalParts(p, members))|;
    BodyInFront(p, members, i);
    FrontFits(p, members);
    FrontDamaged(Written(p, members), damaged, k, n, front);
    WrittenOpens(p, members, damaged[..front], damaged);
  }

  lemma {:induction false} BodyInFront(p: Platform, members: seq<Member>, i: nat)
    requires i < |members| && members[i].compression == STORED
    ensures Start(LocalParts(p, members), 2 * i + 1) + |members[i].body| <= |Joined(LocalParts(p, members))|
  {
    JoinedAt(LocalParts(p, members), 2 * i + 1);
    PartsAt(p, members, i);
  }

  lemma {:induction false} FrontFits(p: Platform, members: seq<Member>)
    ensures |Joined(LocalParts(p, members))| <= |Written(p, members)|
  {
  }

  /** And where up to four consecutive bytes of that body changed, reading the member is refused. */
  lemma {:induction false} WrittenDamageRefused(
    p: Platform, members: seq<Member>, damaged: seq<byte>, i: nat, k: nat, n: nat, start: nat)
    requires Fits(p, members) && SoundCrc(p) && Faithful(p, members)
    requires i < |members| && forall j | 0 <= j < i :: members[j].name != members[i].name
    requires members[i].compression == STORED && ReadBack(p, members[i]).Ok?
    requires DamagedWithin(Written(p, members), damaged, k, n) && n <= 4
    requires start == Start(LocalParts(p, members), 2 * i + 1) <= k && k + n <= start + |members[i].body|
    ensures ReadName(p, Archive(damaged, AllDescribed(p, members)), members[i].name) == Refused(Mismatch)
  {
    WrittenPlace(p, members, i);
    MemberDamaged(p, members[i], Offset(p, members, i), Written(p, members), damaged, k, n, start);
    FirstWritten(p, members, i);
    ReadFirst(p, Archive(damaged, AllDescribed(p, members)), members[i].name,
        Described(p, members[i], Offset(p, members, i)));
  }

  lemma {:induction false} FirstWritten(p: Platform, members: seq<Member>, i: nat)
    requires Faithful(p, members) && i < |members| && forall j | 0 <= j < i :: members[j].name != members[i].name
    ensures First(AllDescribed(p, members), members[i].name) == Some(Described(p, members[i], Offset(p, members, i)))
  {
    FirstAt(AllDescribed(p, members), members[i].name, i);
  }

  lemma {:induction false} ReadFirst(p: Platform, archive: Archive, name: string, entry: Entry)
    requires First(archive.entries, name) == Some(entry)
    ensures ReadName(p, archive, name) == ReadEntry(p, archive.bytes, entry)
  {
  }

  lemma {:induction false} FrontDamaged(bytes: seq<byte>, damaged: seq<byte>, k: nat, n: nat, front: nat)
    requires DamagedWithin(bytes, damaged, k, n) && k + n <= front <= |bytes|
    ensures damaged == damaged[..front] + bytes[front..]
  {
  }

  lemma {:induction false} MemberDamaged(
    p: Platform, m: Member, offset: nat, bytes: seq<byte>, damaged: seq<byte>, k: nat, n: nat, start: nat)
    requires SoundCrc(p) && m.compression == STORED && ReadBack(p, m).Ok?
    requires CompressedBytes(bytes, Described(p, m, offset)) == Ok(m.body)
    requires DamagedWithin(bytes, damaged, k, n) && n <= 4
    requires start == BodyStart(bytes, offset) <= k && k + n <= start + |m.body|
    ensures ReadEntry(p, damaged, Described(p, m, offset)) == Refused(Mismatch)
  {
    var entry := Described(p, m, offset);
    ReadEntryOf(p, bytes, entry, m.body);
    TableIsPolynomial(m.body);
    DamageRefused(p, bytes, damaged, entry, k, n, start);
  }

  lemma {:induction false} WrittenPlace(p: Platform, members: seq<Member>, i: nat)
    requires Fits(p, members) && i < |members|
    ensures Offset(p, members, i) + LOCAL_HEADER_LENGTH <= |Written(p, members)|
    ensures BodyStart(Written(p, members), Offset(p, members, i)) == Start(LocalParts(p, members), 2 * i + 1)
    ensures CompressedBytes(Written(p, members), Described(p, members[i], Offset(p, members, i)))
         == Ok(Stored(p, members[i]))
  {
    var local, central := LocalParts(p, members), CentralParts(p, members);
    TailOfThree(Joined(local), Joined(central), EndRecord(|members|, |Joined(central)|, |Joined(local)|));
    WrittenBodies(p, members);
    BodyFound(local, AllDescribed(p, members), Written(p, members), i);
    PartsAt(p, members, i);
  }
}
