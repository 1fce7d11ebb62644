/** Whole archives, from the calls that write one to the calls that read it back. */
module ArchiveRoundTrip {
  import opened Prelude
  import opened ArchiveFormat
  import P = ArchiveParser
  import W = ArchiveWriter
  import R = ArchiveReader
  import T = ArchiveTruncation

  /** What a caller puts into an archive. */
  datatype Put =
    | PutBlob(pieces: seq<Bytes>, flushed: bool)   // a payload, as it is cut up among calls of `write_all`
    | PutEntry(entry: Entry)

  /** What a reader is to see of it: a blob with the hash of its payload, an entry with the flags that are known. */
  ghost function Shown(h: HashFunction, put: Put): P.Seen {
    match put
    case PutBlob(pieces, _) => P.SeenBlob(Flatten(pieces), Blake3(h(Flatten(pieces))))
    case PutEntry(e) => P.SeenEntry(P.ReadBack(e))
  }

  ghost function AllShown(h: HashFunction, puts: seq<Put>): seq<P.Seen> {
    seq(|puts|, k requires 0 <= k < |puts| => Shown(h, puts[k]))
  }

  /** The output is a complete archive of what was put. */
  ghost predicate IsArchive(max: nat, h: HashFunction, out: Bytes, puts: seq<Put>, items: seq<Item>) {
    && max <= 0xFFFF && ItemsFit(max, items) && P.ReadBackItems(h, items) == AllShown(h, puts)
    && out == EncodeArchive(h, items)
  }

  lemma OneMore(max: nat, h: HashFunction, out: Bytes, puts: seq<Put>, items: seq<Item>, put: Put, item: Item)
    requires IsArchive(max, h, out, puts, items) && ItemFits(max, item)
    requires P.ReadBackItem(h, item) == Shown(h, put)
    ensures IsArchive(max, h, out + EncodeItem(h, item), puts + [put], items + [item])
  {
    hide EncodeItems, EncodeItem;
    ItemsOneMore(h, items, item);
    Associates(HEADER, EncodeItems(h, items), EncodeItem(h, item), []);
    assert P.ReadBackItems(h, items + [item]) == P.ReadBackItems(h, items) + [P.ReadBackItem(h, item)];
    assert AllShown(h, puts + [put]) == AllShown(h, puts) + [Shown(h, put)];
  }

  /** A terminator and a hash. */
  const TRAILER_SIZE: nat := 35

  method WritePieces(d: W.DataWriter, pieces: seq<Bytes>) returns (ok: bool)
    requires d.Valid() && !d.Pending() && d.frames == []
    modifies d, d.writer.sink
    ensures ok ==> d.Valid() && !d.Pending() && Flatten(d.frames) == Flatten(pieces)
    ensures d.writer.sink.reliable ==> ok
    ensures |old(d.writer.sink.Reached())| <= |d.writer.sink.Reached()|
  {
    for i := 0 to |pieces|
      invariant d.Valid() && !d.Pending() && Flatten(d.frames) == Flatten(pieces[..i])
      invariant |old(d.writer.sink.Reached())| <= |d.writer.sink.Reached()|
    {
      ok := d.WriteAll(pieces[i]);
      if !ok {
        return false;
      }
      assert pieces[..i + 1] == pieces[..i] + [pieces[i]];
      FlattenOneMore(pieces[..i], pieces[i]);
    }
    assert pieces[..|pieces|] == pieces;
    return true;
  }

  /** `write_data`, any number of calls of `write_all`, a `flush` if the caller copies a file, `finish`. */
  method WriteBlob(w: W.Writer, h: HashFunction, pieces: seq<Bytes>, flushed: bool) returns (ok: bool, ghost frames: seq<Bytes>)
    requires w.Valid()
    modifies w.sink
    ensures ok ==> FramesFit(w.max, frames) && Flatten(frames) == Flatten(pieces)
    ensures ok ==> w.sink.out == old(w.sink.out) + EncodeBlob(h, frames)
    ensures ok && w.sink.capacity > 32 ==> w.sink.held > 0
    ensures |old(w.sink.Reached())| <= |w.sink.Reached()|
    ensures ok && flushed ==> |w.sink.out| <= |w.sink.Reached()| + TRAILER_SIZE
    ensures w.sink.reliable ==> ok
  {
    hide EncodeFrames, Flatten, EncodeBlob, FramesFit, W.Sink.Reached, W.DataWriter.Valid, W.DataWriter.Pending;
    ghost var before := w.sink.out;
    var d := w.WriteData(h);
    frames := [];
    if d == null {
      return false, [];
    }
    ok := WritePieces(d, pieces);
    if !ok {
      return false, [];
    }
    if flushed {
      ok := d.Flush();
      if !ok {
        return false, [];
      }
    }
    frames := d.frames;
    d.AllOut();
    var hash := d.Finish();
    if hash.None? {
      return false, [];
    }
    BlobBytes(w.max, h, before, frames);
    return true, frames;
  }

  lemma BlobBytes(max: nat, h: HashFunction, before: Bytes, frames: seq<Bytes>)
    requires max <= 0xFFFF && FramesFit(max, frames)
    ensures before + [ENTRY_DATA] + EncodeFrames(frames) + Trailer(Blake3(h(Flatten(frames)))) == before + EncodeBlob(h, frames)
  {
    hide EncodeFrames, Trailer, Flatten;
    var t := Trailer(Blake3(h(Flatten(frames))));
    Associates(before, [ENTRY_DATA], EncodeFrames(frames), t);
    Associates(before, [ENTRY_DATA] + EncodeFrames(frames), t, []);
  }

  /** Of the first k items all but a trailer has gone further than the buffer. */
  ghost predicate Reaches(h: HashFunction, items: seq<Item>, k: nat, reached: nat)
    requires ItemsFit(0xFFFF, items)
  {
    k <= |items| && |HEADER| + T.SizeBefore(h, items, k) <= reached + TRAILER_SIZE
  }

  /** A blob copied from a file has gone further than the buffer before its trailer is written. */
  ghost predicate Flushed(h: HashFunction, puts: seq<Put>, items: seq<Item>, reached: nat)
    requires ItemsFit(0xFFFF, items) && |items| == |puts|
  {
    forall k: nat :: 0 < k <= |puts| && puts[k - 1].PutBlob? && puts[k - 1].flushed ==> Reaches(h, items, k, reached)
  }

  lemma FlushedOneMore(h: HashFunction, out: Bytes, puts: seq<Put>, items: seq<Item>, put: Put, item: Item, reached: nat, more: nat)
    requires ItemsFit(0xFFFF, items) && |items| == |puts| && Flushed(h, puts, items, reached) && reached <= more
    requires ItemFits(0xFFFF, item) && out == EncodeArchive(h, items + [item])
    requires put.PutBlob? && put.flushed ==> |out| <= more + TRAILER_SIZE
    ensures ItemsFit(0xFFFF, items + [item]) && Flushed(h, puts + [put], items + [item], more)
  {
    hide EncodeItems, ItemFits;
    var all := items + [item];
    assert all[..|all|] == all;
    forall k: nat | 0 < k <= |puts| && Reaches(h, items, k, reached)
      ensures Reaches(h, all, k, more)
    {
      assert all[..k] == items[..k];
    }
  }

  predicate EntriesOnly(puts: seq<Put>) { forall p :: p in puts ==> p.PutEntry? }

  predicate EntriesFit(max: nat, puts: seq<Put>) { forall p :: p in puts && p.PutEntry? ==> Fits(max, p.entry) }

  lemma OnePutMore(max: nat, puts: seq<Put>, i: nat)
    requires i < |puts|
    ensures puts[..i + 1] == puts[..i] + [puts[i]]
    ensures EntriesOnly(puts[..i + 1]) <==> EntriesOnly(puts[..i]) && puts[i].PutEntry?
    ensures EntriesFit(max, puts[..i + 1]) <==> EntriesFit(max, puts[..i]) && (puts[i].PutEntry? ==> Fits(max, puts[i].entry))
    ensures EntriesFit(max, puts) ==> EntriesFit(max, puts[..i + 1])
  {
    assert puts[..i + 1] == puts[..i] + [puts[i]];
  }

  lemma Widened(max: nat, items: seq<Item>)
    requires max <= 0xFFFF && ItemsFit(max, items)
    ensures ItemsFit(0xFFFF, items)
  {
  }

  /** One more entry or blob. */
  method WritePut(w: W.Writer, h: HashFunction, put: Put, ghost puts: seq<Put>, ghost items: seq<Item>)
    returns (ok: bool, ghost item: Item)
    requires w.Valid() && IsArchive(w.max, h, w.sink.out, puts, items)
    requires Flushed(h, puts, items, |w.sink.Reached()|)
    modifies w.sink
    ensures ok ==> IsArchive(w.max, h, w.sink.out, puts + [put], items + [item])
    ensures ok ==> Flushed(h, puts + [put], items + [item], |w.sink.Reached()|)
    ensures ok && w.sink.capacity > 32 ==> w.sink.held > 0
    ensures ok && put.PutEntry? && old(w.sink.Lazy()) && |w.sink.out| <= w.sink.capacity ==> w.sink.Lazy()
    ensures ok ==> |old(w.sink.out)| <= |w.sink.out|
    ensures ok && put.PutEntry? ==> Fits(w.max, put.entry)
    ensures w.sink.reliable ==> (ok <==> put.PutEntry? ==> Fits(w.max, put.entry))
  {
    hide EncodeItems, EncodeEntry, EncodeBlob, Flatten, Flushed, W.Sink.Reached;
    ghost var before, reached := w.sink.out, |w.sink.Reached()|;
    match put {
      case PutEntry(e) =>
        var r := w.WriteEntry(e);
        ok, item := r.Written?, Record(e);
      case PutBlob(pieces, flushed) =>
        ghost var frames;
        ok, frames := WriteBlob(w, h, pieces, flushed);
        item := Blob(frames);
    }
    if ok {
      OneMore(w.max, h, before, puts, items, put, item);
      Widened(w.max, items + [item]);
      assert item in items + [item] && forall i :: i in items ==> i in items + [item];
      FlushedOneMore(h, w.sink.out, puts, items, put, item, reached, |w.sink.Reached()|);
    }
  }

  /**
   Writes everything, over a sink that may write short, stall or fail. The writer never flushes at the end: what a buffer
   then holds is all of an archive that fits in it and has no blobs, and always something if it is longer than a hash; of
   blobs copied from files it holds a trailer at most.
   */
  method WriteArchive(max: nat, sink: W.Sink, h: HashFunction, puts: seq<Put>) returns (ok: bool, ghost items: seq<Item>)
    requires 0 < max <= 0xFFFF && sink.out == [] && sink.held == 0
    modifies sink
    ensures ok ==> IsArchive(max, h, sink.out, puts, items)
    ensures ok && sink.capacity > 32 ==> sink.held > 0
    ensures ok ==> |items| == |puts| && Flushed(h, puts, items, |sink.Reached()|)
    ensures ok && sink.capacity > |HEADER| && EntriesOnly(puts) && |sink.out| <= sink.capacity ==> sink.Lazy()
    ensures sink.reliable ==> (ok <==> EntriesFit(max, puts))
  {
    items := [];
    var w := W.Writer.Open(max, sink);
    if w == null {
      return false, [];
    }
    assert [] + HEADER == HEADER + [] == HEADER;
    assert IsArchive(max, h, sink.out, [], []) && EntriesFit(max, []);
    hide Flushed, Fits, EntriesOnly, EntriesFit, EncodeItems, EncodeArchive, AllShown, P.ReadBackItems, W.Sink.Reached;
    assert Flushed(h, [], [], |sink.Reached()|) by { NothingFlushed(h, |sink.Reached()|); }
    for i := 0 to |puts|
      invariant IsArchive(max, h, sink.out, puts[..i], items)
      invariant |items| == i && Flushed(h, puts[..i], items, |sink.Reached()|)
      invariant sink.capacity > 32 ==> sink.held > 0
      invariant sink.capacity > |HEADER| && EntriesOnly(puts[..i]) && |sink.out| <= sink.capacity ==> sink.Lazy()
      invariant EntriesFit(max, puts[..i])
    {
      var written;
      ghost var item;
      OnePutMore(max, puts, i);
      written, item := WritePut(w, h, puts[i], puts[..i], items);
      if !written {
        return false, [];
      }
      items := items + [item];
    }
    assert puts[..|puts|] == puts && puts[..0] == [];
    return true, items;
  }

  lemma NothingFlushed(h: HashFunction, reached: nat)
    ensures Flushed(h, [], [], reached)
  {
  }

  /**
   The archive law: whatever the sink and the source do with their bytes, if writing and a last flush succeed then
   reading until None yields what was put, blob for blob and entry for entry.
   */
  method WriteThenRead(max: nat, h: HashFunction, puts: seq<Put>, capacity: nat, reliable: bool, asynchronous: bool, supply: R.Supply)
    returns (ok: bool, seen: seq<P.Seen>, stop: P.Stop)
    requires 0 < max <= 0xFFFF
    ensures ok ==> seen == AllShown(h, puts) && stop == P.AtEnd
    ensures reliable ==> (ok <==> EntriesFit(max, puts))
  {
    var sink := new W.Sink(capacity, reliable, None);
    ghost var items;
    ok, items := WriteArchive(max, sink, h, puts);
    if ok {
      ok := sink.Flush();
      P.ArchiveRoundTrip(h, items);
    }
    assert ok ==> sink.Reached() == sink.out;
    var source := new R.Source(sink.out, supply, 0);
    var reader := new R.Reader(source, asynchronous);
    seen, stop := R.ReadAll(reader);
  }
}
