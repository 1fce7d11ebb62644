/** What is seen of an archive that has been cut off (crates/archive/src/read.rs:57-153, 301-364). */
module ArchiveTruncation {
  import opened Prelude
  import opened ArchiveFormat
  import opened ArchiveParser

  // ----- parsing a prefix -----

  /** A parse that succeeds on a prefix is the parse of the whole; only running out of bytes can be mended by more. */
  ghost predicate Extends<T>(short: Parsed<T>, long: Parsed<T>, more: Bytes) {
    match short
    case Good(v, rest) => long == Good(v, rest + more)
    case Bad(InvalidData) => long == short
    case Bad(UnexpectedEof) => true
  }

  lemma DropExtends(s: Bytes, t: Bytes, n: nat)
    requires n <= |s|
    ensures (s + t)[..n] == s[..n] && (s + t)[n..] == s[n..] + t
  {
  }

  lemma TakeExtends(s: Bytes, t: Bytes, n: nat)
    ensures Extends(TakeBytes(s, n), TakeBytes(s + t, n), t)
  {
    if n <= |s| {
      DropExtends(s, t, n);
    }
  }

  lemma PrefixedExtends(s: Bytes, t: Bytes)
    ensures Extends(ParsePrefixed(s), ParsePrefixed(s + t), t)
  {
    if |s| >= 2 {
      DropExtends(s, t, 2);
      TakeExtends(s[2..], t, FromU16(s[0], s[1]));
    }
  }

  lemma HashExtends(s: Bytes, t: Bytes)
    ensures Extends(ParseHash(s), ParseHash(s + t), t)
  {
    if |s| >= 33 {
      DropExtends(s, t, 33);
      assert (s + t)[1..33] == s[1..33];
    }
  }

  lemma FlagsExtend(s: Bytes, t: Bytes)
    ensures Extends(ParseFlags(s), ParseFlags(s + t), t)
  {
    if |s| >= 2 {
      DropExtends(s, t, 2);
    }
  }

  lemma TargetExtends(s: Bytes, t: Bytes)
    ensures Extends(ParseTarget(s), ParseTarget(s + t), t)
  {
    if s != [] {
      DropExtends(s, t, 1);
      if s[0] == TYPE_DATA {
        HashExtends(s[1..], t);
        var p := ParseHash(s[1..]);
        if p.Good? {
          FlagsExtend(p.rest, t);
        }
      } else if s[0] == TYPE_LINK {
        PrefixedExtends(s[1..], t);
        var p := ParsePrefixed(s[1..]);
        if p.Good? {
          FlagsExtend(p.rest, t);
        }
      }
    }
  }

  lemma EventExtends(s: Bytes, t: Bytes)
    requires s != []
    ensures Extends(ParseEvent(s), ParseEvent(s + t), t)
  {
    DropExtends(s, t, 1);
    if s[0] == ENTRY_ENTRY {
      PrefixedExtends(s[1..], t);
      var p := ParsePrefixed(s[1..]);
      if p.Good? {
        TargetExtends(p.rest, t);
      }
    }
  }

  lemma FrameExtends(s: Bytes, t: Bytes)
    ensures Extends(ParseFrame(s), ParseFrame(s + t), t)
  {
    if |s| >= 2 {
      DropExtends(s, t, 2);
      HashExtends(s[2..], t);
      TakeExtends(s[2..], t, FromU16(s[0], s[1]));
    }
  }

  lemma {:induction false} BlobExtends(s: Bytes, t: Bytes)
    ensures ParseBlob(s).payload <= ParseBlob(s + t).payload
    ensures Extends(ParseBlob(s).end, ParseBlob(s + t).end, t)
    ensures ParseBlob(s).end != Bad(UnexpectedEof) ==> ParseBlob(s).payload == ParseBlob(s + t).payload
    decreases |s|
  {
    FrameExtends(s, t);
    var p := ParseFrame(s);
    if p.Good? && p.value.Chunk? {
      BlobExtends(p.rest, t);
    }
  }

  // ----- any byte string, and any prefix of it -----

  /** What was seen when the bytes ran out: an initial part, the last item of which may be a blob broken off. */
  ghost predicate BrokenOff(cut: seq<Seen>, full: seq<Seen>) {
    || cut <= full
    || (&& cut != [] && |cut| <= |full| && cut[..|cut| - 1] == full[..|cut| - 1] && cut[|cut| - 1].SeenPart?
        && match full[|cut| - 1]
           case SeenBlob(payload, _) => cut[|cut| - 1].part <= payload
           case SeenPart(part) => cut[|cut| - 1].part <= part
           case SeenEntry(_) => false)
  }

  /**
   How the reading of some bytes continues when `more` follows them: from an orderly end with what is in `more`, after
   invalid data not at all, and after running out of bytes with an extension of what was seen.
   */
  ghost predicate Continues(cut: Reading, full: Reading, more: Bytes) {
    match cut.stop
    case AtEnd => full == Reading(cut.seen + ParseItems(more).seen, ParseItems(more).stop)
    case Stopped(InvalidData) => full == cut
    case Stopped(UnexpectedEof) => BrokenOff(cut.seen, full.seen)
  }

  function After(first: Seen, r: Reading): Reading { Reading([first] + r.seen, r.stop) }

  lemma ContinuesLater(first: Seen, cut: Reading, full: Reading, more: Bytes)
    requires Continues(cut, full, more)
    ensures Continues(After(first, cut), After(first, full), more)
  {
    hide ParseItems;
    if cut.stop == AtEnd {
      assert [first] + (cut.seen + ParseItems(more).seen) == ([first] + cut.seen) + ParseItems(more).seen;
    } else if !(cut.seen <= full.seen) && cut.stop == Stopped(UnexpectedEof) {
      var n, c, f := |cut.seen|, [first] + cut.seen, [first] + full.seen;
      assert c[..n] == [first] + cut.seen[..n - 1] && f[..n] == [first] + full.seen[..n - 1];
    }
  }

  lemma BlobContinues(s: Bytes, t: Bytes)
    requires ParseBlob(s).end.Bad?
    ensures var cut := Reading([SeenPart(ParseBlob(s).payload)], Stopped(ParseBlob(s).end.failure));
      Continues(cut, ParseItems([ENTRY_DATA] + (s + t)), t)
  {
    BlobExtends(s, t);
    assert ([ENTRY_DATA] + (s + t))[1..] == s + t;
  }

  lemma {:induction false} ItemsContinue(s: Bytes, t: Bytes)
    ensures Continues(ParseItems(s), ParseItems(s + t), t)
    decreases |s|
  {
    if s == [] {
      assert s + t == t && [] + ParseItems(t).seen == ParseItems(t).seen;
    } else {
      EventExtends(s, t);
      EventShrinks(s);
      var p := ParseEvent(s);
      if p.Good? && p.value.EntryRead? {
        ItemsContinue(p.rest, t);
        ContinuesLater(SeenEntry(p.value.entry), ParseItems(p.rest), ParseItems(p.rest + t), t);
      } else if p.Good? && p.value.DataStarts? {
        BlobExtends(p.rest, t);
        var b := ParseBlob(p.rest);
        if b.end.Good? {
          ItemsContinue(b.end.rest, t);
          ContinuesLater(SeenBlob(b.payload, b.end.value), ParseItems(b.end.rest), ParseItems(b.end.rest + t), t);
        } else {
          BlobContinues(p.rest, t);
          assert s + t == [ENTRY_DATA] + (p.rest + t);
        }
      }
    }
  }

  /**
   Truncation safety for every byte string and every prefix of it: how the reading of the prefix stops says how the
   reading of the whole goes on.
   */
  lemma Truncation(s: Bytes, n: nat)
    requires n <= |s|
    ensures Continues(ParseArchive(s[..n]), ParseArchive(s), s[n..])
  {
    if n >= 5 {
      assert s[..n][..5] == s[..5] && s[..n][5..] + s[n..] == s[5..];
      ItemsContinue(s[..n][5..], s[n..]);
    }
  }

  // ----- archives: exactly what each cut shows -----

  /** The first n bytes of a body of frames hold j frames and not the next one. */
  ghost predicate WholeFrames(frames: seq<Bytes>, j: nat, n: nat)
    requires FramesFit(0xFFFF, frames)
  {
    && j <= |frames| && |EncodeFrames(frames[..j])| <= n
    && (j < |frames| ==> n < |EncodeFrames(frames[..j + 1])|)
  }

  lemma FramesShift(frames: seq<Bytes>, j: nat)
    requires FramesFit(0xFFFF, frames) && 0 < j <= |frames|
    ensures EncodeFrames(frames[..j]) == Prefixed(frames[0]) + EncodeFrames(frames[1..][..j - 1])
    ensures Flatten(frames[..j]) == frames[0] + Flatten(frames[1..][..j - 1])
  {
    assert frames[..j][1..] == frames[1..][..j - 1];
  }

  /** A frame cut off is a frame missing bytes. */
  lemma CutFrame(f: Bytes, n: nat)
    requires 0 < |f| < 0x1_0000 && n < |Prefixed(f)|
    ensures ParseFrame(Prefixed(f)[..n]) == Bad(UnexpectedEof)
  {
    var s, t := Prefixed(f)[..n], Prefixed(f)[n..];
    assert s + t == Prefixed(f) == Prefixed(f) + [];
    FrameExtends(s, t);
    FrameRoundTrip(f, []);
  }

  lemma CutTrailer(hash: SupportedHash, n: nat)
    requires n < |Trailer(hash)|
    ensures ParseFrame(Trailer(hash)[..n]) == Bad(UnexpectedEof)
  {
    var s, t := Trailer(hash)[..n], Trailer(hash)[n..];
    assert s + t == Trailer(hash) == Trailer(hash) + [];
    FrameExtends(s, t);
    TrailerRoundTrip(hash, []);
  }

  /** A blob cut off delivers the frames that are wholly there, and is never reported complete. */
  lemma {:induction false} CutBlob(frames: seq<Bytes>, hash: SupportedHash, n: nat) returns (j: nat)
    requires FramesFit(0xFFFF, frames) && n < |EncodeFrames(frames) + Trailer(hash)|
    ensures WholeFrames(frames, j, n)
    ensures ParseBlob((EncodeFrames(frames) + Trailer(hash))[..n]) == BlobRead(Flatten(frames[..j]), Bad(UnexpectedEof))
    decreases |frames|
  {
    var s := EncodeFrames(frames) + Trailer(hash);
    if frames == [] {
      assert s == Trailer(hash);
      CutTrailer(hash, n);
      j := 0;
    } else {
      var f, rest := frames[0], EncodeFrames(frames[1..]) + Trailer(hash);
      assert s == Prefixed(f) + rest;
      if n < 2 + |f| {
        assert s[..n] == Prefixed(f)[..n];
        CutFrame(f, n);
        j := 0;
        FramesShift(frames, 1);
      } else {
        var m := n - 2 - |f|;
        assert s[..n] == Prefixed(f) + rest[..m];
        FrameRoundTrip(f, rest[..m]);
        var i := CutBlob(frames[1..], hash, m);
        j := i + 1;
        FramesShift(frames, j);
        if j < |frames| {
          FramesShift(frames, j + 1);
        }
      }
    }
  }

  /** What the first m bytes of an item show, m being fewer than it has: of an entry nothing, of a blob its whole frames. */
  ghost predicate Broken(i: Item, m: nat, seen: seq<Seen>)
    requires ItemFits(0xFFFF, i) && m > 0
  {
    match i
    case Record(_) => seen == []
    case Blob(frames) => exists j: nat :: WholeFrames(frames, j, m - 1) && seen == [SeenPart(Flatten(frames[..j]))]
  }

  /** The bytes of the first k items. */
  ghost function SizeBefore(h: HashFunction, items: seq<Item>, k: nat): nat
    requires ItemsFit(0xFFFF, items) && k <= |items|
  {
    |EncodeItems(h, items[..k])|
  }

  /** What is seen when n bytes of items are left: k items whole, and of the next what its first bytes show. */
  ghost predicate SeenOfCut(h: HashFunction, items: seq<Item>, n: nat, k: nat, r: Reading)
    requires ItemsFit(0xFFFF, items)
  {
    && k <= |items| && SizeBefore(h, items, k) <= n
    && if n == SizeBefore(h, items, k) then r == Reading(ReadBackItems(h, items[..k]), AtEnd) else
      && k < |items| && n < SizeBefore(h, items, k + 1) && r.stop == Stopped(UnexpectedEof)
      && ReadBackItems(h, items[..k]) <= r.seen && Broken(items[k], n - SizeBefore(h, items, k), r.seen[k..])
  }

  lemma ItemsShift(h: HashFunction, items: seq<Item>, k: nat)
    requires ItemsFit(0xFFFF, items) && 0 < k <= |items|
    ensures EncodeItems(h, items[..k]) == EncodeItem(h, items[0]) + EncodeItems(h, items[1..][..k - 1])
    ensures ReadBackItems(h, items[..k]) == [ReadBackItem(h, items[0])] + ReadBackItems(h, items[1..][..k - 1])
  {
    hide EncodeItem, ReadBackItem;
    assert items[..k][1..] == items[1..][..k - 1];
    ReadBackMore(h, items[..k]);
  }

  /** An entry cut off is no event. */
  lemma CutEntry(e: Entry, n: nat)
    requires Fits(0xFFFF, e) && 0 < n < |EncodeEntry(e)|
    ensures ParseItems(EncodeEntry(e)[..n]) == Reading([], Stopped(UnexpectedEof))
  {
    var s, t := EncodeEntry(e)[..n], EncodeEntry(e)[n..];
    assert s + t == EncodeEntry(e) == EncodeEntry(e) + [];
    EventExtends(s, t);
    EntryRoundTrip(e, []);
  }

  lemma PartOfBlob(body: Bytes, payload: Bytes)
    requires ParseBlob(body) == BlobRead(payload, Bad(UnexpectedEof))
    ensures ParseItems([ENTRY_DATA] + body) == Reading([SeenPart(payload)], Stopped(UnexpectedEof))
  {
    hide ParseBlob;
    assert ([ENTRY_DATA] + body)[1..] == body;
  }

  lemma Tagged(body: Bytes, n: nat)
    requires 0 < n <= 1 + |body|
    ensures ([ENTRY_DATA] + body)[..n] == [ENTRY_DATA] + body[..n - 1]
  {
  }

  /** A cut in a blob shows its whole frames. */
  lemma CutInBlob(h: HashFunction, frames: seq<Bytes>, n: nat)
    requires FramesFit(0xFFFF, frames) && 0 < n < |EncodeBlob(h, frames)|
    ensures ParseItems(EncodeBlob(h, frames)[..n]).stop == Stopped(UnexpectedEof)
    ensures Broken(Blob(frames), n, ParseItems(EncodeBlob(h, frames)[..n]).seen)
  {
    hide ParseItems, ParseBlob, EncodeFrames, Flatten;
    var hash := Blake3(h(Flatten(frames)));
    var body := EncodeFrames(frames) + Trailer(hash);
    assert EncodeBlob(h, frames) == [ENTRY_DATA] + body by {
      Associates([ENTRY_DATA], EncodeFrames(frames), Trailer(hash), []);
    }
    var j := CutBlob(frames, hash, n - 1);
    Tagged(body, n);
    PartOfBlob(body[..n - 1], Flatten(frames[..j]));
  }

  /** The cut is in an item. */
  lemma CutItem(h: HashFunction, i: Item, n: nat)
    requires ItemFits(0xFFFF, i) && 0 < n < |EncodeItem(h, i)|
    ensures ParseItems(EncodeItem(h, i)[..n]).stop == Stopped(UnexpectedEof)
    ensures Broken(i, n, ParseItems(EncodeItem(h, i)[..n]).seen)
  {
    hide ParseItems, WholeFrames, EncodeEntry, EncodeBlob;
    match i
    case Record(e) => CutEntry(e, n);
    case Blob(frames) => CutInBlob(h, frames, n);
  }

  lemma CutFirst(h: HashFunction, items: seq<Item>, n: nat)
    requires ItemsFit(0xFFFF, items) && items != [] && n < |EncodeItem(h, items[0])|
    ensures SeenOfCut(h, items, n, 0, ParseItems(EncodeItem(h, items[0])[..n]))
  {
    hide EncodeItem, ReadBackItem, Broken;
    assert items[0] in items;
    assert items[..0] == [] && ReadBackItems(h, items[..0]) == [] && items[1..][..0] == [];
    ItemsShift(h, items, 1);
    if n > 0 {
      CutItem(h, items[0], n);
      var r := ParseItems(EncodeItem(h, items[0])[..n]);
      assert r.seen[0..] == r.seen;
    } else {
      assert EncodeItem(h, items[0])[..n] == [];
    }
  }

  lemma CutLater(h: HashFunction, items: seq<Item>, n: nat, k: nat, r: Reading)
    requires ItemsFit(0xFFFF, items) && items != [] && SeenOfCut(h, items[1..], n, k, r)
    ensures SeenOfCut(h, items, n + |EncodeItem(h, items[0])|, k + 1, After(ReadBackItem(h, items[0]), r))
  {
    hide EncodeItem, ReadBackItem, Broken;
    ItemsShift(h, items, k + 1);
    if k + 1 < |items| {
      assert items[k + 1] in items;
      ItemsShift(h, items, k + 2);
      assert After(ReadBackItem(h, items[0]), r).seen[k + 1..] == r.seen[k..];
    }
  }

  lemma {:induction false} CutItems(h: HashFunction, items: seq<Item>, n: nat) returns (k: nat)
    requires ItemsFit(0xFFFF, items) && n <= |EncodeItems(h, items)|
    ensures SeenOfCut(h, items, n, k, ParseItems(EncodeItems(h, items)[..n]))
    decreases |items|
  {
    hide EncodeItem, ReadBackItem, Broken, ParseBlob;
    var s := EncodeItems(h, items);
    if items == [] {
      k := 0;
      assert items[..0] == [] && ReadBackItems(h, items[..0]) == [];
    } else {
      var e, rest := EncodeItem(h, items[0]), EncodeItems(h, items[1..]);
      if n < |e| {
        assert s[..n] == e[..n];
        CutFirst(h, items, n);
        k := 0;
      } else {
        assert s[..n] == e + rest[..n - |e|];
        ItemRoundTrip(h, items[0], rest[..n - |e|]);
        var i := CutItems(h, items[1..], n - |e|);
        k := i + 1;
        CutLater(h, items, n - |e|, i, ParseItems(rest[..n - |e|]));
      }
    }
  }

  /** The first bytes of an archive that end where an item ends are the archive of the items before. */
  lemma {:induction false} Boundary(h: HashFunction, items: seq<Item>, k: nat)
    requires ItemsFit(0xFFFF, items) && k <= |items|
    ensures ItemsFit(0xFFFF, items[..k])
    ensures EncodeItems(h, items[..k]) <= EncodeItems(h, items)
    decreases |items|
  {
    hide EncodeItem;
    if k > 0 {
      ItemsShift(h, items, k);
      Boundary(h, items[1..], k - 1);
    }
  }

  ghost predicate ShowsCut(h: HashFunction, items: seq<Item>, n: nat, r: Reading)
    requires ItemsFit(0xFFFF, items)
  {
    exists k: nat :: SeenOfCut(h, items, n, k, r)
  }

  /** An archive cut off after n bytes is whole for a reader, if shorter, exactly when n is where an item ends. */
  ghost predicate EndsItem(h: HashFunction, items: seq<Item>, n: nat)
    requires ItemsFit(0xFFFF, items)
  {
    exists k: nat :: k <= |items| && n == 5 + SizeBefore(h, items, k)
  }

  /**
   Truncated archives exactly. The cut goes unnoticed if and only if it is where an item ends. Every item wholly before
   the cut is delivered as it was put; of a blob that is cut the frames that are whole are delivered, and its end is not
   reported.
   */
  lemma TruncatedArchive(h: HashFunction, items: seq<Item>, n: nat)
    requires ItemsFit(0xFFFF, items) && n <= |EncodeArchive(h, items)|
    ensures ParseArchive(EncodeArchive(h, items)[..n]).stop == AtEnd <==> EndsItem(h, items, n)
    ensures n < 5 ==> ParseArchive(EncodeArchive(h, items)[..n]) == Reading([], Stopped(UnexpectedEof))
    ensures n >= 5 ==> ShowsCut(h, items, n - 5, ParseArchive(EncodeArchive(h, items)[..n]))
  {
    hide EncodeItem, ParseItems;
    var s := EncodeArchive(h, items);
    if n >= 5 {
      assert s[..n][..5] == HEADER && s[..n][5..] == EncodeItems(h, items)[..n - 5];
      var k := CutItems(h, items, n - 5);
      var r := ParseArchive(s[..n]);
      assert SeenOfCut(h, items, n - 5, k, r);
      if EndsItem(h, items, n) {
        var i: nat :| i <= |items| && n == 5 + SizeBefore(h, items, i);
        Boundary(h, items, i);
        assert EncodeItems(h, items)[..n - 5] == EncodeItems(h, items[..i]);
        ItemsRoundTrip(h, items[..i]);
      }
    }
  }
}
