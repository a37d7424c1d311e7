/**
 The ZIP reader of the import path (packages/vault/src/import/zip.ts): finding the end record, walking the central
 directory, locating one member's bytes and checking them. Every read of the file is inside it, whatever the file is.
 */
module ZipReader {
  import opened Options
  import opened Bytes
  import opened Crc

  const LOCAL_HEADER: nat := 0x04034b50
  const CENTRAL_HEADER: nat := 0x02014b50
  const END_OF_CENTRAL_DIRECTORY: nat := 0x06054b50

  const STORED: nat := 0
  const DEFLATED: nat := 8

  const ZIP64_MARKER: nat := 0xffff_ffff

  const END_RECORD_LENGTH: nat := 22
  const LOCAL_HEADER_LENGTH: nat := 30
  const CENTRAL_ENTRY_LENGTH: nat := 46
  const MAX_COMMENT_LENGTH: nat := 0xffff

  datatype Problem =
    | NotAnArchive
    | DirectoryOutside
    | DirectoryDamaged
    | NoSuchMember
    | Encrypted
    | Zip64
    | UnknownMethod
    | HeaderAstray
    | Truncated
    | NotExpandable
    | Mismatch

  datatype Result<+T> = Ok(value: T) | Refused(problem: Problem)

  /** What the platform provides: text coding, the raw deflate pair, and the checksum zlib has for the writer. */
  datatype Platform = Platform(
    encode: string -> seq<byte>,
    decode: seq<byte> -> string,
    deflate: seq<byte> -> seq<byte>,
    inflate: seq<byte> -> Option<seq<byte>>,
    crc32: seq<byte> -> nat)

  datatype Entry = Entry(
    name: string,
    flags: nat,
    compression: nat,
    checksum: nat,
    compressedSize: nat,
    uncompressedSize: nat,
    localHeaderOffset: nat)
  {
    predicate IsEncrypted() {
      flags % 2 == 1
    }

    predicate IsZip64() {
      compressedSize == ZIP64_MARKER || uncompressedSize == ZIP64_MARKER
    }

    predicate KnownMethod() {
      compression == STORED || compression == DEFLATED
    }
  }

  datatype Archive = Archive(bytes: seq<byte>, entries: seq<Entry>)
  {
    function Names(): seq<string> {
      seq(|entries|, i requires 0 <= i < |entries| => entries[i].name)
    }
  }

  // ----- the end record

  predicate EndRecordAt(bytes: seq<byte>, at: int) {
    && 0 <= at <= |bytes| - END_RECORD_LENGTH
    && U32(bytes, at) == END_OF_CENTRAL_DIRECTORY
    && U16(bytes, at + 20) == |bytes| - at - END_RECORD_LENGTH
  }

  /** The last end record whose comment runs to the end of the file; nothing at all when -1. */
  ghost predicate IsEndRecord(bytes: seq<byte>, at: int) {
    && (at == -1 || EndRecordAt(bytes, at))
    && forall k | at < k :: !EndRecordAt(bytes, k)
  }

  lemma {:induction false} EndRecordUnique(bytes: seq<byte>, a: int, b: int)
    requires IsEndRecord(bytes, a) && IsEndRecord(bytes, b)
    ensures a == b
  {
    assert a < b ==> !EndRecordAt(bytes, b);
    assert b < a ==> !EndRecordAt(bytes, a);
  }

  method FindEndRecord(bytes: seq<byte>) returns (at: int)
    ensures IsEndRecord(bytes, at)
  {
    var earliest := |bytes| - END_RECORD_LENGTH - MAX_COMMENT_LENGTH;
    if earliest < 0 {
      earliest := 0;
    }
    at := |bytes| - END_RECORD_LENGTH;
    while at >= earliest
      invariant at >= earliest - 1 || |bytes| < END_RECORD_LENGTH
      invariant forall k | at < k :: !EndRecordAt(bytes, k)
    {
      if U32(bytes, at) == END_OF_CENTRAL_DIRECTORY && U16(bytes, at + 20) == |bytes| - at - END_RECORD_LENGTH {
        return at;
      }
      at := at - 1;
    }
    return -1;
  }

  // ----- the central directory

  function EntryAt(p: Platform, bytes: seq<byte>, at: nat, nameEnd: nat): Entry
    requires at + CENTRAL_ENTRY_LENGTH <= nameEnd <= |bytes|
  {
    Entry(p.decode(bytes[at + CENTRAL_ENTRY_LENGTH..nameEnd]),
          U16(bytes, at + 8), U16(bytes, at + 10), U32(bytes, at + 16),
          U32(bytes, at + 20), U32(bytes, at + 24), U32(bytes, at + 42))
  }

  function NameEnd(bytes: seq<byte>, at: nat): (n: nat)
    requires at + CENTRAL_ENTRY_LENGTH <= |bytes|
    ensures n >= at + CENTRAL_ENTRY_LENGTH
  {
    at + CENTRAL_ENTRY_LENGTH + U16(bytes, at + 28)
  }

  predicate DamagedAt(bytes: seq<byte>, at: nat, end: nat)
    requires end <= |bytes|
  {
    at + CENTRAL_ENTRY_LENGTH > end || U32(bytes, at) != CENTRAL_HEADER || NameEnd(bytes, at) > end
  }

  /** `count` entries from `at`, or the refusal. */
  function Directory(p: Platform, bytes: seq<byte>, at: nat, end: nat, count: nat): Result<seq<Entry>>
    requires end <= |bytes|
    decreases count
  {
    if count == 0 then
      Ok([])
    else if DamagedAt(bytes, at, end) then
      Refused(DirectoryDamaged)
    else
      After([EntryAt(p, bytes, at, NameEnd(bytes, at))], Directory(p, bytes, NextAt(bytes, at), end, count - 1))
  }

  function After(entries: seq<Entry>, rest: Result<seq<Entry>>): Result<seq<Entry>> {
    match rest
    case Ok(more) => Ok(entries + more)
    case Refused(_) => rest
  }

  lemma {:induction false} AfterNone(rest: Result<seq<Entry>>)
    ensures After([], rest) == rest
  {
    if rest.Ok? {
      assert [] + rest.value == rest.value;
    }
  }

  lemma {:induction false} AfterAfter(a: seq<Entry>, b: seq<Entry>, rest: Result<seq<Entry>>)
    ensures After(a, After(b, rest)) == After(a + b, rest)
  {
    if rest.Ok? {
      assert a + (b + rest.value) == a + b + rest.value;
    }
  }

  function NextAt(bytes: seq<byte>, at: nat): nat
    requires at + CENTRAL_ENTRY_LENGTH <= |bytes|
  {
    NameEnd(bytes, at) + U16(bytes, at + 30) + U16(bytes, at + 32)
  }

  lemma {:induction false} WalkStep(p: Platform, bytes: seq<byte>, entries: seq<Entry>, at: nat, end: nat, count: nat)
    requires end <= |bytes| && count > 0
    ensures DamagedAt(bytes, at, end) ==>
              After(entries, Directory(p, bytes, at, end, count)) == Refused(DirectoryDamaged)
    ensures !DamagedAt(bytes, at, end) ==>
              After(entries, Directory(p, bytes, at, end, count)) ==
              After(entries + [EntryAt(p, bytes, at, NameEnd(bytes, at))],
                    Directory(p, bytes, NextAt(bytes, at), end, count - 1))
  {
    if !DamagedAt(bytes, at, end) {
      AfterAfter(entries, [EntryAt(p, bytes, at, NameEnd(bytes, at))],
                 Directory(p, bytes, NextAt(bytes, at), end, count - 1));
    }
  }

  /** `entries` and then the `rest` records from `at` on make up the whole answer. */
  ghost predicate Walked(
    p: Platform, bytes: seq<byte>, whole: Result<seq<Entry>>, entries: seq<Entry>, at: nat, end: nat, rest: nat)
  {
    end <= |bytes| && whole == After(entries, Directory(p, bytes, at, end, rest))
  }

  lemma {:induction false} WalkOn(
    p: Platform, bytes: seq<byte>, whole: Result<seq<Entry>>, entries: seq<Entry>, at: nat, end: nat, rest: nat,
    entry: Entry, next: nat)
    requires rest > 0 && Walked(p, bytes, whole, entries, at, end, rest) && !DamagedAt(bytes, at, end)
    requires entry == EntryAt(p, bytes, at, NameEnd(bytes, at)) && next == NextAt(bytes, at)
    ensures Walked(p, bytes, whole, entries + [entry], next, end, rest - 1)
  {
    WalkStep(p, bytes, entries, at, end, rest);
  }

  lemma {:induction false} WalkEnd(p: Platform, bytes: seq<byte>, entries: seq<Entry>, at: nat, end: nat, count: nat)
    requires end <= |bytes| && count == 0
    ensures After(entries, Directory(p, bytes, at, end, count)) == Ok(entries)
  {
    assert entries + [] == entries;
  }

  /** One turn of the walk: the entry and where the next one begins, unless the directory is damaged here. */
  method WalkEntry(p: Platform, bytes: seq<byte>, at: nat, end: nat) returns (r: Option<(Entry, nat)>)
    requires end <= |bytes|
    ensures r == if DamagedAt(bytes, at, end) then None
                 else Some((EntryAt(p, bytes, at, NameEnd(bytes, at)), NextAt(bytes, at)))
  {
    if at + CENTRAL_ENTRY_LENGTH > end || U32(bytes, at) != CENTRAL_HEADER {
      return None;
    }
    var nameLength := U16(bytes, at + 28);
    var extraLength := U16(bytes, at + 30);
    var commentLength := U16(bytes, at + 32);
    var nameEnd := at + CENTRAL_ENTRY_LENGTH + nameLength;
    if nameEnd > end {
      return None;
    }
    return Some((EntryAt(p, bytes, at, nameEnd), nameEnd + extraLength + commentLength));
  }

  method ReadDirectory(p: Platform, bytes: seq<byte>, start: nat, end: nat, count: nat) returns (r: Result<seq<Entry>>)
    requires end <= |bytes|
    ensures r == Directory(p, bytes, start, end, count)
  {
    var entries: seq<Entry> := [];
    var at: nat, n: nat := start, 0;
    ghost var whole, rest := Directory(p, bytes, start, end, count), count;
    AfterNone(whole);
    while n < count
      invariant n + rest == count
      invariant Walked(p, bytes, whole, entries, at, end, rest)
    {
      var next := WalkEntry(p, bytes, at, end);
      if next.None? {
        WalkStep(p, bytes, entries, at, end, rest);
        return Refused(DirectoryDamaged);
      }
      var (entry, onward) := next.value;
      WalkOn(p, bytes, whole, entries, at, end, rest, entry, onward);
      entries, at, n, rest := entries + [entry], onward, n + 1, rest - 1;
    }
    WalkEnd(p, bytes, entries, at, end, rest);
    r := Ok(entries);
  }

  // ----- opening

  function OpenedAt(p: Platform, bytes: seq<byte>, end: int): Result<Archive>
    requires end == -1 || EndRecordAt(bytes, end)
  {
    if end == -1 then
      Refused(NotAnArchive)
    else
      var count := U16(bytes, end + 10);
      var size := U32(bytes, end + 12);
      var offset := U32(bytes, end + 16);
      if offset + size > |bytes| then
        Refused(DirectoryOutside)
      else
        match Directory(p, bytes, offset, offset + size, count)
        case Ok(entries) => Ok(Archive(bytes, entries))
        case Refused(problem) => Refused(problem)
  }

  /** What opening the file answers, stated without the scan. */
  ghost predicate Opens(p: Platform, bytes: seq<byte>, r: Result<Archive>) {
    exists end :: IsEndRecord(bytes, end) && r == OpenedAt(p, bytes, end)
  }

  lemma {:induction false} OpensUnique(p: Platform, bytes: seq<byte>, r: Result<Archive>, s: Result<Archive>)
    requires Opens(p, bytes, r) && Opens(p, bytes, s)
    ensures r == s
  {
    var a :| IsEndRecord(bytes, a) && r == OpenedAt(p, bytes, a);
    var b :| IsEndRecord(bytes, b) && s == OpenedAt(p, bytes, b);
    EndRecordUnique(bytes, a, b);
  }

  /** From a found end record on. */
  method OpenAt(p: Platform, bytes: seq<byte>, end: nat) returns (r: Result<Archive>)
    requires EndRecordAt(bytes, end)
    ensures r == OpenedAt(p, bytes, end) && (r.Ok? ==> r.value.bytes == bytes)
  {
    var count := U16(bytes, end + 10);
    var size := U32(bytes, end + 12);
    var offset := U32(bytes, end + 16);
    if offset + size > |bytes| {
      return Refused(DirectoryOutside);
    }
    var directory := ReadDirectory(p, bytes, offset, offset + size, count);
    match directory {
      case Ok(entries) => r := Ok(Archive(bytes, entries));
      case Refused(problem) => r := Refused(problem);
    }
  }

  method OpenZip(p: Platform, bytes: seq<byte>) returns (r: Result<Archive>)
    ensures Opens(p, bytes, r)
    ensures r.Ok? ==> r.value.bytes == bytes
  {
    var end := FindEndRecord(bytes);
    if |bytes| < END_RECORD_LENGTH || end == -1 {
      assert IsEndRecord(bytes, -1);
      return Refused(NotAnArchive);
    }
    r := OpenAt(p, bytes, end);
  }

  // ----- one member

  /** Where the member's bytes begin, by the local header's own lengths. */
  function BodyStart(bytes: seq<byte>, header: nat): (start: nat)
    requires header + LOCAL_HEADER_LENGTH <= |bytes|
    ensures start >= header + LOCAL_HEADER_LENGTH
  {
    header + LOCAL_HEADER_LENGTH + U16(bytes, header + 26) + U16(bytes, header + 28)
  }

  function CompressedBytes(bytes: seq<byte>, entry: Entry): Result<seq<byte>> {
    var header := entry.localHeaderOffset;
    if header + LOCAL_HEADER_LENGTH > |bytes| || U32(bytes, header) != LOCAL_HEADER then
      Refused(HeaderAstray)
    else
      var start := BodyStart(bytes, header);
      if start + entry.compressedSize > |bytes| then
        Refused(Truncated)
      else
        Ok(bytes[start..start + entry.compressedSize])
  }

  function Checked(entry: Entry, contents: seq<byte>): Result<seq<byte>> {
    if Value(Crc32(contents)) != entry.checksum || |contents| != entry.uncompressedSize then
      Refused(Mismatch)
    else
      Ok(contents)
  }

  function Expanded(p: Platform, entry: Entry, stored: seq<byte>): Result<seq<byte>> {
    if entry.compression == STORED then
      Checked(entry, stored)
    else
      match p.inflate(stored)
      case None => Refused(NotExpandable)
      case Some(contents) => Checked(entry, contents)
  }

  function ReadEntry(p: Platform, bytes: seq<byte>, entry: Entry): Result<seq<byte>> {
    if entry.IsEncrypted() then Refused(Encrypted)
    else if entry.IsZip64() then Refused(Zip64)
    else if !entry.KnownMethod() then Refused(UnknownMethod)
    else
      match CompressedBytes(bytes, entry)
      case Refused(problem) => Refused(problem)
      case Ok(stored) => Expanded(p, entry, stored)
  }

  /** The first entry of the name: a repeated name keeps the one listed first. */
  function First(entries: seq<Entry>, name: string): Option<Entry> {
    if entries == [] then None
    else if entries[0].name == name then Some(entries[0])
    else First(entries[1..], name)
  }

  function ReadName(p: Platform, archive: Archive, name: string): Result<seq<byte>> {
    match First(archive.entries, name)
    case None => Refused(NoSuchMember)
    case Some(entry) => ReadEntry(p, archive.bytes, entry)
  }

  lemma {:induction false} FirstSnoc(entries: seq<Entry>, entry: Entry, name: string)
    ensures First(entries + [entry], name)
         == (if First(entries, name).None? && entry.name == name then Some(entry) else First(entries, name))
  {
    if entries != [] {
      assert (entries + [entry])[1..] == entries[1..] + [entry];
      FirstSnoc(entries[1..], entry, name);
    }
  }

  /** The name index built on opening. */
  method IndexNames(entries: seq<Entry>) returns (byName: map<string, Entry>)
    ensures forall name :: First(entries, name) == if name in byName then Some(byName[name]) else None
  {
    byName := map[];
    for i := 0 to |entries|
      invariant forall name :: First(entries[..i], name) == if name in byName then Some(byName[name]) else None
    {
      forall name {
        FirstSnoc(entries[..i], entries[i], name);
      }
      assert entries[..i + 1] == entries[..i] + [entries[i]];
      if entries[i].name !in byName {
        byName := byName[entries[i].name := entries[i]];
      }
    }
    assert entries[..|entries|] == entries;
  }

  method ReadMember(p: Platform, sums: Checksummer, archive: Archive, byName: map<string, Entry>, name: string)
    returns (r: Result<seq<byte>>)
    requires sums.Valid()
    requires forall n :: First(archive.entries, n) == if n in byName then Some(byName[n]) else None
    modifies sums
    ensures sums.Valid()
    ensures r == ReadName(p, archive, name)
  {
    if name !in byName {
      return Refused(NoSuchMember);
    }
    var entry := byName[name];
    if entry.flags % 2 == 1 {
      return Refused(Encrypted);
    }
    if entry.compressedSize == ZIP64_MARKER || entry.uncompressedSize == ZIP64_MARKER {
      return Refused(Zip64);
    }
    if entry.compression != STORED && entry.compression != DEFLATED {
      return Refused(UnknownMethod);
    }
    var stored := CompressedBytes(archive.bytes, entry);
    if stored.Refused? {
      return Refused(stored.problem);
    }
    var contents := if entry.compression == STORED then Some(stored.value) else p.inflate(stored.value);
    if contents.None? {
      return Refused(NotExpandable);
    }
    var checksum := sums.Crc32Of(contents.value);
    if Value(checksum) != entry.checksum || |contents.value| != entry.uncompressedSize {
      return Refused(Mismatch);
    }
    r := Ok(contents.value);
  }
}
