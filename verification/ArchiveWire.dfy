/** The bytes of an archive, one by one (crates/archive/src/lib.rs:17-35, write.rs:24-80, 156-196, read.rs:57-153). */
module ArchiveWire {
  import opened Prelude
  import opened ArchiveFormat
  import opened ArchiveParser

  // ----- what is written -----

  /** Two bytes, the high one first. */
  function Wide(n: nat): Bytes
    requires n < 65536
  {
    [n / 256, n % 256]
  }

  lemma WideIsU16(n: nat)
    requires n < 65536
    ensures U16(n) == Wide(n)
  {
  }

  /** Tag 2, the path behind its length, and by the kind of target: 1, the hash behind its type, flags; 2, a link, flags; 3. */
  lemma EntryBytes(e: Entry)
    requires Fits(65535, e)
    ensures EncodeEntry(e) == [2] + Wide(|e.path|) + e.path +
      match e.target
      case Data(Blake3(digest), flags) => [1, 1] + digest + Wide(flags)
      case Link(dest, flags) => [2] + Wide(|dest|) + dest + Wide(flags)
      case Directory => [3]
  {
    WideIsU16(|e.path|);
  }

  /** Tag 1, the frames, a length of zero, and the hash of the payload behind its type. */
  lemma BlobBytes(h: HashFunction, frames: seq<Bytes>)
    requires FramesFit(65535, frames)
    ensures EncodeBlob(h, frames) == [1] + EncodeFrames(frames) + ([0, 0, 1] + h(Flatten(frames)))
  {
    hide EncodeFrames, Flatten;
    assert Trailer(Blake3(h(Flatten(frames)))) == [0, 0, 1] + h(Flatten(frames));
  }

  /** Every frame is its length and its bytes. */
  lemma FrameBytes(frames: seq<Bytes>)
    requires FramesFit(65535, frames) && frames != []
    ensures frames[0] in frames && FramesFit(65535, frames[1..])
    ensures EncodeFrames(frames) == Wide(|frames[0]|) + frames[0] + EncodeFrames(frames[1..])
  {
    WideIsU16(|frames[0]|);
  }

  lemma OneFrame(h: HashFunction, f: Bytes)
    requires 0 < |f| < 65536
    ensures EncodeBlob(h, [f]) == [1] + (Wide(|f|) + f) + ([0, 0, 1] + h(f))
  {
    BlobBytes(h, [f]);
    FrameBytes([f]);
    assert Wide(|f|) + f + [] == Wide(|f|) + f && f + [] == f;
  }

  // ----- whole archives -----

  /** "NCK00" */
  lemma EmptyArchive(h: HashFunction)
    ensures EncodeArchive(h, []) == [0x4E, 0x43, 0x4B, 0x30, 0x30]
  {
    assert HEADER + [] == HEADER;
  }

  lemma OneItem(h: HashFunction, i: Item)
    requires ItemFits(65535, i)
    ensures EncodeArchive(h, [i]) == [0x4E, 0x43, 0x4B, 0x30, 0x30] + EncodeItem(h, i)
  {
    hide EncodeItem;
    var items := [i];
    assert items[1..] == [] && EncodeItems(h, items) == EncodeItem(h, items[0]) + EncodeItems(h, items[1..]);
    assert EncodeItem(h, i) + [] == EncodeItem(h, i);
  }

  /** A directory "d". */
  lemma OneDirectory(h: HashFunction)
    ensures EncodeArchive(h, [Record(Entry([0x64], Directory))]) == [0x4E, 0x43, 0x4B, 0x30, 0x30, 2, 0, 1, 0x64, 3]
  {
    hide EncodeArchive, EncodeEntry;
    var e := Entry([0x64], Directory);
    OneItem(h, Record(e));
    EntryBytes(e);
    assert EncodeEntry(e) == [2, 0, 1, 0x64, 3];
    assert EncodeItem(h, Record(e)) == EncodeEntry(e);
  }

  /** A link "l" to "t", executable. */
  lemma OneLink(h: HashFunction)
    ensures EncodeArchive(h, [Record(Entry([0x6C], Link([0x74], EXECUTABLE)))])
         == [0x4E, 0x43, 0x4B, 0x30, 0x30, 2, 0, 1, 0x6C, 2, 0, 1, 0x74, 0, 1]
  {
    OneItem(h, Record(Entry([0x6C], Link([0x74], EXECUTABLE))));
    EntryBytes(Entry([0x6C], Link([0x74], EXECUTABLE)));
    assert EncodeEntry(Entry([0x6C], Link([0x74], EXECUTABLE))) == [2, 0, 1, 0x6C, 2, 0, 1, 0x74, 0, 1];
  }

  /** A file "f" of one byte 7, executable: its blob, then its entry, with the same hash. */
  lemma OneFile(h: HashFunction)
    ensures EncodeArchive(h, [Blob([[7]]), Record(Entry([0x66], Data(Blake3(h([7])), EXECUTABLE)))])
         == [0x4E, 0x43, 0x4B, 0x30, 0x30] + [1, 0, 1, 7, 0, 0, 1] + h([7]) + [2, 0, 1, 0x66, 1, 1] + h([7]) + [0, 1]
  {
    var blob, record := Blob([[7]]), Record(Entry([0x66], Data(Blake3(h([7])), EXECUTABLE)));
    FileBytes(h);
    hide EncodeEntry, EncodeBlob;
    assert [blob, record][1..] == [record] && [record][1..] == [];
    assert EncodeItems(h, [record]) == EncodeEntry(record.entry) + [];
    assert EncodeItems(h, [blob, record]) == EncodeBlob(h, [[7]]) + EncodeEntry(record.entry);
  }

  lemma FileBytes(h: HashFunction)
    ensures EncodeBlob(h, [[7]]) == [1, 0, 1, 7, 0, 0, 1] + h([7])
    ensures EncodeEntry(Entry([0x66], Data(Blake3(h([7])), EXECUTABLE))) == [2, 0, 1, 0x66, 1, 1] + h([7]) + [0, 1]
  {
    hide EncodeEntry, EncodeBlob;
    OneFrame(h, [7]);
    EntryBytes(Entry([0x66], Data(Blake3(h([7])), EXECUTABLE)));
    assert [2] + Wide(1) + [0x66] + ([1, 1] + h([7]) + Wide(1)) == [2, 0, 1, 0x66, 1, 1] + h([7]) + [0, 1];
  }

  // ----- what is read -----

  lemma ReadsNumber(a: Byte, b: Byte, x: Bytes)
    ensures ParseU16([a, b] + x) == Good(a * 256 + b, x)
  {
  }

  lemma ReadsDirectory(x: Bytes)
    ensures ParseEvent([2, 0, 1, 0x61, 3] + x) == Good(EntryRead(Entry([0x61], Directory)), x)
  {
    hide EncodeEntry, ParseEvent;
    EntryBytes(Entry([0x61], Directory));
    EntryRoundTrip(Entry([0x61], Directory), x);
    assert EncodeEntry(Entry([0x61], Directory)) == [2, 0, 1, 0x61, 3];
  }

  lemma ReadsLink(flags: Flags, x: Bytes)
    ensures ParseEvent([2, 0, 1, 0x61, 2, 0, 1, 0x62] + Wide(flags) + x)
         == Good(EntryRead(Entry([0x61], Link([0x62], flags % 2))), x)
  {
    hide EncodeEntry, ParseEvent;
    var e := Entry([0x61], Link([0x62], flags));
    EntryBytes(e);
    EntryRoundTrip(e, x);
    assert EncodeEntry(e) == [2, 0, 1, 0x61, 2, 0, 1, 0x62] + Wide(flags);
  }

  /** Of the flags only the lowest bit is kept. */
  lemma ReadsData(digest: Digest, flags: Flags, x: Bytes)
    ensures ParseEvent([2, 0, 1, 0x61, 1, 1] + digest + Wide(flags) + x)
         == Good(EntryRead(Entry([0x61], Data(Blake3(digest), flags % 2))), x)
  {
    hide EncodeEntry, ParseEvent;
    var e := Entry([0x61], Data(Blake3(digest), flags));
    EntryBytes(e);
    EntryRoundTrip(e, x);
    assert EncodeEntry(e) == [2, 0, 1, 0x61, 1, 1] + digest + Wide(flags);
  }

  lemma ReadsFrames(f: Bytes, digest: Digest, x: Bytes)
    requires 0 < |f| < 65536
    ensures ParseFrame(Wide(|f|) + f + x) == Good(Chunk(f), x)
    ensures ParseFrame([0, 0, 1] + digest + x) == Good(EndOfBlob(Blake3(digest)), x)
    ensures ParseEvent([1] + x) == Good(DataStarts, x)
  {
    WideIsU16(|f|);
    FrameRoundTrip(f, x);
    TrailerRoundTrip(Blake3(digest), x);
    assert Trailer(Blake3(digest)) == [0, 0, 1] + digest;
    assert ([1] + x)[1..] == x;
  }

  /** Anything else than what is written is invalid: tags, target types, hash types, headers. */
  lemma Rejects(t: Byte, x: Bytes)
    ensures t != 1 && t != 2 ==> ParseEvent([t] + x) == Bad(InvalidData)
    ensures t != 1 && t != 2 && t != 3 ==> ParseEvent([2, 0, 0, t] + x) == Bad(InvalidData)
    ensures t != 1 ==> ParseEvent([2, 0, 0, 1, t] + x) == Bad(InvalidData)
    ensures t != 1 ==> ParseFrame([0, 0, t] + x) == Bad(InvalidData)
  {
    var a, b := [2, 0, 0, t] + x, [2, 0, 0, 1, t] + x;
    assert a[1..] == [0, 0] + ([t] + x) && b[1..] == [0, 0] + ([1, t] + x);
    ReadsNumber(0, 0, [t] + x);
    ReadsNumber(0, 0, [1, t] + x);
    assert ([t] + x)[0..] == [t] + x && ([1, t] + x)[0..] == [1, t] + x && ([1, t] + x)[1..] == [t] + x;
    assert ([0, 0, t] + x)[2..] == [t] + x;
  }

  lemma ReadsHeader(s: Bytes)
    ensures |s| >= 5 ==> (ParseArchive(s) == ParseItems(s[5..]) || s[..5] != [0x4E, 0x43, 0x4B, 0x30, 0x30])
    ensures |s| >= 5 && s[..5] != [0x4E, 0x43, 0x4B, 0x30, 0x30] ==> ParseArchive(s) == Reading([], Stopped(InvalidData))
    ensures |s| < 5 ==> ParseArchive(s) == Reading([], Stopped(UnexpectedEof))
  {
  }
}
