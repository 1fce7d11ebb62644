/** What a reader makes of a byte string: the specification of crates/archive/src/read.rs, and its laws. */
module ArchiveParser {
  import opened Prelude
  import opened ArchiveFormat

  datatype Failure = UnexpectedEof | InvalidData

  datatype Parsed<+T> = Good(value: T, rest: Bytes) | Bad(failure: Failure)

  function TakeBytes(s: Bytes, n: nat): (r: Parsed<Bytes>)
  {
    if |s| < n then Bad(UnexpectedEof) else Good(s[..n], s[n..])
  }

  function ParseU16(s: Bytes): Parsed<nat> {
    if |s| < 2 then Bad(UnexpectedEof) else Good(FromU16(s[0], s[1]), s[2..])
  }

  function ParsePrefixed(s: Bytes): Parsed<Bytes> {
    match ParseU16(s)
    case Bad(f) => Bad(f)
    case Good(n, rest) => TakeBytes(rest, n)
  }

  function ParseHash(s: Bytes): Parsed<SupportedHash> {
    if s == [] then Bad(UnexpectedEof)
    else if s[0] != HASH_BLAKE3 then Bad(InvalidData)
    else if |s| < 33 then Bad(UnexpectedEof)
    else Good(Blake3(s[1..33]), s[33..])
  }

  function ParseFlags(s: Bytes): Parsed<Flags> {
    match ParseU16(s)
    case Bad(f) => Bad(f)
    case Good(n, rest) => Good(KnownFlags(n), rest)
  }

  function ParseTarget(s: Bytes): Parsed<EntryTarget> {
    if s == [] then Bad(UnexpectedEof)
    else if s[0] == TYPE_DATA then
      match ParseHash(s[1..])
      case Bad(f) => Bad(f)
      case Good(hash, rest) =>
        match ParseFlags(rest)
        case Bad(f) => Bad(f)
        case Good(flags, rest') => Good(Data(hash, flags), rest')
    else if s[0] == TYPE_LINK then
      match ParsePrefixed(s[1..])
      case Bad(f) => Bad(f)
      case Good(dest, rest) =>
        match ParseFlags(rest)
        case Bad(f) => Bad(f)
        case Good(flags, rest') => Good(Link(dest, flags), rest')
    else if s[0] == TYPE_DIR then Good(Directory, s[1..])
    else Bad(InvalidData)
  }

  /** `read_entry`, after the tag. */
  function ParseEntry(s: Bytes): Parsed<Entry> {
    match ParsePrefixed(s)
    case Bad(f) => Bad(f)
    case Good(path, rest) =>
      match ParseTarget(rest)
      case Bad(f) => Bad(f)
      case Good(target, rest') => Good(Entry(path, target), rest')
  }

  datatype Event = NoMore | DataStarts | EntryRead(entry: Entry)

  /** `next_event`, after the header. */
  function ParseEvent(s: Bytes): Parsed<Event> {
    if s == [] then Good(NoMore, [])
    else if s[0] == ENTRY_DATA then Good(DataStarts, s[1..])
    else if s[0] == ENTRY_ENTRY then
      match ParseEntry(s[1..])
      case Bad(f) => Bad(f)
      case Good(e, rest) => Good(EntryRead(e), rest)
    else Bad(InvalidData)
  }

  datatype Frame = Chunk(bytes: Bytes) | EndOfBlob(hash: SupportedHash)

  /** One frame of a blob: a chunk, or the terminator with the hash. */
  function ParseFrame(s: Bytes): (r: Parsed<Frame>)
    ensures r.Good? ==> |r.rest| + 2 <= |s|
    ensures r.Good? && r.value.Chunk? ==> r.value.bytes != [] && |s| == 2 + |r.value.bytes| + |r.rest|
  {
    match ParseU16(s)
    case Bad(f) => Bad(f)
    case Good(n, rest) =>
      if n == 0 then
        match ParseHash(rest)
        case Bad(f) => Bad(f)
        case Good(hash, rest') => Good(EndOfBlob(hash), rest')
      else
        match TakeBytes(rest, n)
        case Bad(f) => Bad(f)
        case Good(bytes, rest') => Good(Chunk(bytes), rest')
  }

  /** A blob read to its end or to the first failure: the bytes delivered, and how it ended. */
  datatype BlobRead = BlobRead(payload: Bytes, end: Parsed<SupportedHash>)

  function ParseBlob(s: Bytes): (r: BlobRead)
    ensures r.end.Good? ==> |r.end.rest| < |s|
    decreases |s|
  {
    match ParseFrame(s)
    case Bad(f) => BlobRead([], Bad(f))
    case Good(EndOfBlob(hash), rest) => BlobRead([], Good(hash, rest))
    case Good(Chunk(bytes), rest) =>
      var more := ParseBlob(rest);
      BlobRead(bytes + more.payload, more.end)
  }

  /** What the caller has seen of an archive. */
  datatype Seen = SeenBlob(payload: Bytes, hash: SupportedHash) | SeenPart(part: Bytes) | SeenEntry(entry: Entry)

  datatype Stop = AtEnd | Stopped(failure: Failure)

  datatype Reading = Reading(seen: seq<Seen>, stop: Stop)

  /** Reading events, and each blob to its end, until None or the first failure. */
  function ParseItems(s: Bytes): Reading
    decreases |s|
  {
    match ParseEvent(s)
    case Bad(f) => Reading([], Stopped(f))
    case Good(NoMore, _) => Reading([], AtEnd)
    case Good(EntryRead(e), rest) =>
      EventShrinks(s);
      var more := ParseItems(rest);
      Reading([SeenEntry(e)] + more.seen, more.stop)
    case Good(DataStarts, rest) =>
      var blob := ParseBlob(rest);
      match blob.end
      case Bad(f) => Reading([SeenPart(blob.payload)], Stopped(f))
      case Good(hash, rest') =>
        var more := ParseItems(rest');
        Reading([SeenBlob(blob.payload, hash)] + more.seen, more.stop)
  }

  function ParseArchive(s: Bytes): Reading {
    if |s| < 5 then Reading([], Stopped(UnexpectedEof))
    else if s[..5] != HEADER then Reading([], Stopped(InvalidData))
    else ParseItems(s[5..])
  }

  lemma EventShrinks(s: Bytes)
    ensures ParseEvent(s).Good? ==> |ParseEvent(s).rest| <= |s|
    ensures ParseEvent(s).Good? && ParseEvent(s).value != NoMore ==> |ParseEvent(s).rest| < |s|
  {
    if s != [] && s[0] == ENTRY_ENTRY {
      var t := s[1..];
      var p := ParsePrefixed(t);
      assert p.Good? ==> |p.rest| <= |t|;
    }
  }

  // ----- decoding what was encoded -----

  function ReadBackTarget(t: EntryTarget): EntryTarget {
    match t
    case Data(hash, flags) => Data(hash, KnownFlags(flags))
    case Link(dest, flags) => Link(dest, KnownFlags(flags))
    case Directory => Directory
  }

  /** An entry as it comes back from an archive: only the flag bits that are known survive. */
  function ReadBack(e: Entry): Entry {
    Entry(e.path, ReadBackTarget(e.target))
  }

  lemma U16RoundTrip(n: nat, x: Bytes)
    requires n < 0x1_0000
    ensures ParseU16(U16(n) + x) == Good(n, x)
  {
    assert (U16(n) + x)[2..] == x;
  }

  lemma PrefixedRoundTrip(s: Bytes, x: Bytes)
    requires |s| < 0x1_0000
    ensures ParsePrefixed(Prefixed(s) + x) == Good(s, x)
  {
    assert Prefixed(s) + x == U16(|s|) + (s + x);
    U16RoundTrip(|s|, s + x);
  }

  lemma HashRoundTrip(h: SupportedHash, x: Bytes)
    ensures ParseHash(HashBytes(h) + x) == Good(h, x)
  {
    var s := HashBytes(h) + x;
    assert s[1..33] == h.digest && s[33..] == x;
  }

  lemma DataRoundTrip(hash: SupportedHash, flags: Flags, x: Bytes)
    ensures ParseTarget(EncodeTarget(Data(hash, flags)) + x) == Good(Data(hash, KnownFlags(flags)), x)
  {
    var tail := U16(flags) + x;
    var s := [TYPE_DATA] + HashBytes(hash) + U16(flags) + x;
    assert s[1..] == HashBytes(hash) + tail;
    HashRoundTrip(hash, tail);
    U16RoundTrip(flags, x);
  }

  lemma LinkRoundTrip(dest: Bytes, flags: Flags, x: Bytes)
    requires |dest| < 0x1_0000
    ensures ParseTarget(EncodeTarget(Link(dest, flags)) + x) == Good(Link(dest, KnownFlags(flags)), x)
  {
    var tail := U16(flags) + x;
    var s := [TYPE_LINK] + Prefixed(dest) + U16(flags) + x;
    assert s[1..] == Prefixed(dest) + tail;
    PrefixedRoundTrip(dest, tail);
    U16RoundTrip(flags, x);
  }

  lemma TargetRoundTrip(t: EntryTarget, x: Bytes)
    requires t.Link? ==> |t.dest| < 0x1_0000
    ensures ParseTarget(EncodeTarget(t) + x) == Good(ReadBackTarget(t), x)
  {
    match t
    case Data(hash, flags) => DataRoundTrip(hash, flags, x);
    case Link(dest, flags) => LinkRoundTrip(dest, flags, x);
    case Directory => assert ([TYPE_DIR] + x)[1..] == x;
  }

  lemma EntryRoundTrip(e: Entry, x: Bytes)
    requires Fits(0xFFFF, e)
    ensures ParseEvent(EncodeEntry(e) + x) == Good(EntryRead(ReadBack(e)), x)
  {
    var tail := EncodeTarget(e.target) + x;
    var s := [ENTRY_ENTRY] + Prefixed(e.path) + EncodeTarget(e.target) + x;
    assert s[1..] == Prefixed(e.path) + tail;
    PrefixedRoundTrip(e.path, tail);
    TargetRoundTrip(e.target, x);
  }

  lemma FrameRoundTrip(f: Bytes, x: Bytes)
    requires 0 < |f| < 0x1_0000
    ensures ParseFrame(Prefixed(f) + x) == Good(Chunk(f), x)
  {
    assert Prefixed(f) + x == U16(|f|) + (f + x);
    U16RoundTrip(|f|, f + x);
  }

  lemma TrailerRoundTrip(h: SupportedHash, x: Bytes)
    ensures ParseFrame(Trailer(h) + x) == Good(EndOfBlob(h), x)
  {
    assert Trailer(h) + x == U16(0) + (HashBytes(h) + x);
    U16RoundTrip(0, HashBytes(h) + x);
    HashRoundTrip(h, x);
  }

  /** Frames that are whole are delivered whatever follows them. */
  lemma {:induction false} BlobAfterFrames(frames: seq<Bytes>, y: Bytes)
    requires FramesFit(0xFFFF, frames)
    ensures ParseBlob(EncodeFrames(frames) + y) == BlobRead(Flatten(frames) + ParseBlob(y).payload, ParseBlob(y).end)
    decreases |frames|
  {
    if frames == [] {
      assert [] + y == y && [] + ParseBlob(y).payload == ParseBlob(y).payload;
    } else {
      var rest := EncodeFrames(frames[1..]) + y;
      Associates(Prefixed(frames[0]), EncodeFrames(frames[1..]), y, []);
      FrameRoundTrip(frames[0], rest);
      BlobAfterFrames(frames[1..], y);
      Associates(frames[0], Flatten(frames[1..]), ParseBlob(y).payload, []);
    }
  }

  lemma BlobRoundTrip(frames: seq<Bytes>, hash: SupportedHash, x: Bytes)
    requires FramesFit(0xFFFF, frames)
    ensures ParseBlob(EncodeFrames(frames) + Trailer(hash) + x) == BlobRead(Flatten(frames), Good(hash, x))
  {
    hide EncodeFrames, Flatten, FramesFit, ParseFrame, Trailer;
    Associates(EncodeFrames(frames), Trailer(hash), x, []);
    BlobAfterFrames(frames, Trailer(hash) + x);
    TrailerRoundTrip(hash, x);
    assert Flatten(frames) + [] == Flatten(frames);
  }

  /** A blob has at least the bytes of its payload, one frame length if there is any, a terminator and a hash. */
  lemma {:induction false} BlobTakes(y: Bytes)
    requires ParseBlob(y).end.Good?
    ensures var b := ParseBlob(y);
      |y| >= |b.payload| + (if b.payload == [] then 0 else 2) + 35 + |b.end.rest|
    decreases |y|
  {
    var p := ParseFrame(y);
    if p.value.Chunk? {
      BlobTakes(p.rest);
    }
  }

  ghost function ReadBackItem(h: HashFunction, i: Item): Seen {
    match i
    case Blob(frames) => SeenBlob(Flatten(frames), Blake3(h(Flatten(frames))))
    case Record(e) => SeenEntry(ReadBack(e))
  }

  ghost function ReadBackItems(h: HashFunction, items: seq<Item>): (r: seq<Seen>)
    ensures |r| == |items|
  {
    seq(|items|, k requires 0 <= k < |items| => ReadBackItem(h, items[k]))
  }

  lemma ItemRoundTrip(h: HashFunction, i: Item, x: Bytes)
    requires ItemFits(0xFFFF, i)
    ensures var more := ParseItems(x);
      ParseItems(EncodeItem(h, i) + x) == Reading([ReadBackItem(h, i)] + more.seen, more.stop)
  {
    match i
    case Record(e) =>
      EntryRoundTrip(e, x);
    case Blob(frames) =>
      var hash := Blake3(h(Flatten(frames)));
      var body := EncodeFrames(frames) + Trailer(hash) + x;
      assert EncodeBlob(h, frames) + x == [ENTRY_DATA] + body;
      BlobRoundTrip(frames, hash, x);
  }

  lemma ReadBackMore(h: HashFunction, items: seq<Item>)
    requires items != []
    ensures ReadBackItems(h, items) == [ReadBackItem(h, items[0])] + ReadBackItems(h, items[1..])
  {
    hide ReadBackItem;
  }

  lemma {:induction false} ItemsRoundTrip(h: HashFunction, items: seq<Item>)
    requires ItemsFit(0xFFFF, items)
    ensures ParseItems(EncodeItems(h, items)) == Reading(ReadBackItems(h, items), AtEnd)
    decreases |items|
  {
    hide ParseBlob, EncodeItem, ReadBackItem;
    if items != [] {
      ItemsRoundTrip(h, items[1..]);
      ItemRoundTrip(h, items[0], EncodeItems(h, items[1..]));
      ReadBackMore(h, items);
    }
  }

  /**
   The round trip of a whole archive: however each payload was cut into frames, reading until None yields every blob
   with its payload and the hash of that payload, and every entry, in order.
   */
  lemma ArchiveRoundTrip(h: HashFunction, items: seq<Item>)
    requires ItemsFit(0xFFFF, items)
    ensures ParseArchive(EncodeArchive(h, items)) == Reading(ReadBackItems(h, items), AtEnd)
  {
    var s := EncodeArchive(h, items);
    assert s[..5] == HEADER && s[5..] == EncodeItems(h, items);
    ItemsRoundTrip(h, items);
  }

  /** An entry survives the archive unchanged exactly when its flags hold known bits only. */
  lemma ReadBackExact(e: Entry)
    ensures ReadBack(e) == e <==>
      (e.target.Data? ==> e.target.flags in {0, EXECUTABLE}) && (e.target.Link? ==> e.target.linkFlags in {0, EXECUTABLE})
  {
  }
}
