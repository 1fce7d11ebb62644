/** The NCK archive format: what the writer of crates/archive is meant to produce (lib.rs, write.rs). */
module ArchiveFormat {
  import opened Prelude

  type Digest = d: Bytes | |d| == 32 witness seq(32, i => 0)

  /** Blake3 as a function of all the bytes a hasher has absorbed: updating by a and then b is updating by a + b. */
  type HashFunction = Bytes -> Digest

  datatype SupportedHash = Blake3(digest: Digest)

  type Flags = f: int | 0 <= f < 0x1_0000

  const EXECUTABLE: Flags := 1

  datatype EntryTarget =
    | Data(hash: SupportedHash, flags: Flags)
    | Link(dest: Bytes, linkFlags: Flags)
    | Directory

  datatype Entry = Entry(path: Bytes, target: EntryTarget)

  /** `from_bits_truncate`: the reader keeps the bits it knows. */
  function KnownFlags(f: Flags): Flags { f % 2 }

  const ENTRY_DATA: Byte := 1
  const ENTRY_ENTRY: Byte := 2
  const TYPE_DATA: Byte := 1
  const TYPE_LINK: Byte := 2
  const TYPE_DIR: Byte := 3
  const HASH_BLAKE3: Byte := 1

  /** "NCK00" */
  const HEADER: Bytes := [0x4E, 0x43, 0x4B, 0x30, 0x30]

  function U16(n: nat): (b: Bytes)
    requires n < 0x1_0000
    ensures |b| == 2
  {
    [n / 256, n % 256]
  }

  function FromU16(high: Byte, low: Byte): (n: nat)
    ensures n < 0x1_0000
  {
    high * 256 + low
  }

  function Prefixed(s: Bytes): Bytes
    requires |s| < 0x1_0000
  {
    U16(|s|) + s
  }

  function HashBytes(h: SupportedHash): Bytes {
    [HASH_BLAKE3] + h.digest
  }

  /** Lengths that `write_length_prefixed` accepts, max being the MAX_LENGTH of lib.rs:24-28. */
  predicate Fits(max: nat, e: Entry) {
    |e.path| <= max && (e.target.Link? ==> |e.target.dest| <= max)
  }

  function EncodeTarget(t: EntryTarget): Bytes
    requires t.Link? ==> |t.dest| < 0x1_0000
  {
    match t
    case Data(hash, flags) => [TYPE_DATA] + HashBytes(hash) + U16(flags)
    case Link(dest, flags) => [TYPE_LINK] + Prefixed(dest) + U16(flags)
    case Directory => [TYPE_DIR]
  }

  function EncodeEntry(e: Entry): Bytes
    requires Fits(0xFFFF, e)
  {
    [ENTRY_ENTRY] + Prefixed(e.path) + EncodeTarget(e.target)
  }

  // ----- blobs -----

  function Flatten(frames: seq<Bytes>): Bytes {
    if frames == [] then [] else frames[0] + Flatten(frames[1..])
  }

  /** Frames a writer with this MAX_LENGTH may make: never empty, never too long. */
  ghost predicate FramesFit(max: nat, frames: seq<Bytes>) {
    forall f :: f in frames ==> 0 < |f| <= max
  }

  ghost function EncodeFrames(frames: seq<Bytes>): Bytes
    requires FramesFit(0xFFFF, frames)
  {
    if frames == [] then [] else Prefixed(frames[0]) + EncodeFrames(frames[1..])
  }

  function Trailer(hash: SupportedHash): Bytes {
    U16(0) + HashBytes(hash)
  }

  ghost function EncodeBlob(h: HashFunction, frames: seq<Bytes>): Bytes
    requires FramesFit(0xFFFF, frames)
  {
    [ENTRY_DATA] + EncodeFrames(frames) + Trailer(Blake3(h(Flatten(frames))))
  }

  // ----- archives -----

  datatype Item = Blob(frames: seq<Bytes>) | Record(entry: Entry)

  ghost predicate ItemFits(max: nat, i: Item) {
    match i
    case Blob(frames) => FramesFit(max, frames)
    case Record(e) => Fits(max, e)
  }

  ghost predicate ItemsFit(max: nat, items: seq<Item>) {
    forall i :: i in items ==> ItemFits(max, i)
  }

  ghost function EncodeItem(h: HashFunction, i: Item): Bytes
    requires ItemFits(0xFFFF, i)
  {
    match i
    case Blob(frames) => EncodeBlob(h, frames)
    case Record(e) => EncodeEntry(e)
  }

  ghost function EncodeItems(h: HashFunction, items: seq<Item>): Bytes
    requires ItemsFit(0xFFFF, items)
  {
    if items == [] then [] else EncodeItem(h, items[0]) + EncodeItems(h, items[1..])
  }

  ghost function EncodeArchive(h: HashFunction, items: seq<Item>): Bytes
    requires ItemsFit(0xFFFF, items)
  {
    HEADER + EncodeItems(h, items)
  }

  // ----- encodings grow at the end -----

  lemma Associates(a: Bytes, b: Bytes, c: Bytes, d: Bytes)
    ensures a + b + c + d == a + (b + c + d) && a + b + c == a + (b + c)
  {
  }

  lemma {:induction false} FlattenOneMore(frames: seq<Bytes>, f: Bytes)
    ensures Flatten(frames + [f]) == Flatten(frames) + f
  {
    if frames == [] {
      assert frames + [f] == [f] && [f][1..] == [];
    } else {
      assert (frames + [f])[1..] == frames[1..] + [f];
      FlattenOneMore(frames[1..], f);
      Associates(frames[0], Flatten(frames[1..]), f, []);
    }
  }

  lemma {:induction false} FramesOneMore(frames: seq<Bytes>, f: Bytes)
    requires FramesFit(0xFFFF, frames) && 0 < |f| <= 0xFFFF
    ensures FramesFit(0xFFFF, frames + [f])
    ensures EncodeFrames(frames + [f]) == EncodeFrames(frames) + Prefixed(f)
  {
    if frames == [] {
      assert frames + [f] == [f] && [f][1..] == [];
    } else {
      assert (frames + [f])[1..] == frames[1..] + [f];
      FramesOneMore(frames[1..], f);
      Associates(Prefixed(frames[0]), EncodeFrames(frames[1..]), Prefixed(f), []);
    }
  }

  lemma {:induction false} ItemsOneMore(h: HashFunction, items: seq<Item>, i: Item)
    requires ItemsFit(0xFFFF, items) && ItemFits(0xFFFF, i)
    ensures ItemsFit(0xFFFF, items + [i])
    ensures EncodeItems(h, items + [i]) == EncodeItems(h, items) + EncodeItem(h, i)
  {
    if items == [] {
      assert items + [i] == [i] && [i][1..] == [];
    } else {
      assert (items + [i])[1..] == items[1..] + [i];
      ItemsOneMore(h, items[1..], i);
      Associates(EncodeItem(h, items[0]), EncodeItems(h, items[1..]), EncodeItem(h, i), []);
    }
  }
}
