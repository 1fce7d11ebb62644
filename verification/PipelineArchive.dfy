/**
 The archive a successful run hands to its `BufWriter`, what a reader would make of it, and what of it reaches the file
 (create.rs:30-43, 59-72, 138-143).
 */
module PipelineArchive {
  import opened Prelude
  import opened ArchiveFormat
  import opened Pipeline
  import opened PipelineOrder
  import opened PipelineRuns
  import P = ArchiveParser
  import T = ArchiveTruncation
  import W = ArchiveWriter
  import A = ArchiveRoundTrip

  // ----- one writer, which only ever appends -----

  datatype Written = BlobOf(pos: Pos) | EntryOf(sent: Sent)

  /** What has gone through the archive writer, blobs first. */
  function Output(s: State): seq<Written> {
    seq(|s.blobs|, k requires 0 <= k < |s.blobs| => BlobOf(s.blobs[k])) +
    seq(|s.archive|, k requires 0 <= k < |s.archive| => EntryOf(s.archive[k]))
  }

  lemma OutputGrows(s: State, s': State)
    requires s.blobs <= s'.blobs && s.archive <= s'.archive && (s.archive == [] || s'.blobs == s.blobs)
    requires |s'.blobs| + |s'.archive| <= |s.blobs| + |s.archive| + 1
    ensures Output(s) <= Output(s') && |Output(s')| <= |Output(s)| + 1
  {
  }

  /** Every step appends: no blob is written once entries are. */
  lemma OutputAppends(h: HashFunction, roots: seq<Named>, s: State, a: Action, s': State)
    requires Inv(h, roots, s) && Step(h, roots, s, a) == Some(s')
    ensures Output(s) <= Output(s') && |Output(s')| <= |Output(s)| + 1
  {
    hide Output, EntryFor, Placed, Complete, Correct, Matched;
    OutputGrows(s, s');
  }

  // ----- hashes -----

  function Content(roots: seq<Named>, pos: Pos): Bytes {
    if NodeAt(roots, pos).Some? && NodeAt(roots, pos).value.File? then NodeAt(roots, pos).value.content else []
  }

  /** The hashes of the data entries, in their order. */
  function DataHashes(log: seq<Sent>): seq<SupportedHash> {
    if log == [] then [] else
    DataHashes(log[..|log| - 1]) +
      if log[|log| - 1].entry.target.Data? then [log[|log| - 1].entry.target.hash] else []
  }

  lemma {:induction false} HashesFollow(h: HashFunction, roots: seq<Named>, log: seq<Sent>)
    requires forall i :: 0 <= i < |log| ==> Real(roots, log[i].pos) && log[i].entry == EntryFor(h, roots, log[i].pos)
    ensures |DataHashes(log)| == |DataOnly(log)|
    ensures forall k :: 0 <= k < |DataOnly(log)| ==>
      DataHashes(log)[k] == Blake3(h(Content(roots, DataOnly(log)[k])))
  {
    if log != [] {
      HashesFollow(h, roots, log[..|log| - 1]);
    }
  }

  // ----- the archive -----

  /** Items for these blobs and entries, each blob cut into frames in some way. */
  ghost predicate Itemised(roots: seq<Named>, s: State, items: seq<Item>) {
    && |items| == |s.blobs| + |s.archive|
    && (forall k :: 0 <= k < |s.blobs| ==>
      items[k].Blob? && FramesFit(0xFFFF, items[k].frames) && Flatten(items[k].frames) == Content(roots, s.blobs[k]))
    && (forall k :: |s.blobs| <= k < |items| ==> items[k] == Record(s.archive[k - |s.blobs|].entry))
  }

  /** What is read back: every blob with its hash, then every entry as it was sent. */
  ghost predicate SeenIn(h: HashFunction, roots: seq<Named>, s: State, seen: seq<P.Seen>) {
    && |seen| == |s.blobs| + |s.archive|
    && (forall k :: 0 <= k < |s.blobs| ==>
      seen[k] == P.SeenBlob(Content(roots, s.blobs[k]), Blake3(h(Content(roots, s.blobs[k])))))
    && (forall k :: |s.blobs| <= k < |seen| ==> seen[k] == P.SeenEntry(s.archive[k - |s.blobs|].entry))
  }

  lemma ItemisedFits(h: HashFunction, roots: seq<Named>, s: State, items: seq<Item>)
    requires Inv(h, roots, s) && Itemised(roots, s, items)
    ensures ItemsFit(0xFFFF, items)
  {
    forall i | i in items
      ensures ItemFits(0xFFFF, i)
    {
      var k :| 0 <= k < |items| && items[k] == i;
      assert k >= |s.blobs| ==> Fits(0xFFFF, s.archive[k - |s.blobs|].entry);
    }
  }

  lemma EntriesReadBack(h: HashFunction, roots: seq<Named>, pos: Pos)
    requires Real(roots, pos)
    ensures P.ReadBack(EntryFor(h, roots, pos)) == EntryFor(h, roots, pos)
  {
  }

  lemma SeenItems(h: HashFunction, roots: seq<Named>, s: State, items: seq<Item>)
    requires Itemised(roots, s, items)
    requires forall i :: 0 <= i < |s.archive| ==> P.ReadBack(s.archive[i].entry) == s.archive[i].entry
    ensures SeenIn(h, roots, s, P.ReadBackItems(h, items))
  {
  }

  /**
   The archive a run that ends well has handed to its output: a reader of all of it gets the blobs, then an entry for each
   file, directory and link, and the k-th data entry has the hash stored with the k-th blob.
   */
  lemma FinishedReadsBack(h: HashFunction, roots: seq<Named>, run: seq<Action>, items: seq<Item>) returns (seen: seq<P.Seen>)
    requires Exec(h, roots, run).Some? && Exec(h, roots, run).value.walker.Done?
    requires Itemised(roots, Exec(h, roots, run).value, items)
    ensures ItemsFit(0xFFFF, items)
    ensures P.ParseArchive(EncodeArchive(h, items)) == P.Reading(seen, P.AtEnd)
    ensures SeenIn(h, roots, Exec(h, roots, run).value, seen)
    ensures var s := Exec(h, roots, run).value;
      |DataHashes(s.archive)| == |s.blobs| &&
      forall k :: 0 <= k < |s.blobs| ==> seen[k].SeenBlob? && DataHashes(s.archive)[k] == seen[k].hash
  {
    var s := Exec(h, roots, run).value;
    RunKeeps(h, roots, run);
    FinishedArchive(h, roots, run);
    ItemisedFits(h, roots, s, items);
    forall i | 0 <= i < |s.archive|
      ensures P.ReadBack(s.archive[i].entry) == s.archive[i].entry
    {
      EntriesReadBack(h, roots, s.archive[i].pos);
    }
    SeenItems(h, roots, s, items);
    HashesFollow(h, roots, s.archive);
    P.ArchiveRoundTrip(h, items);
    seen := P.ReadBackItems(h, items);
  }

  // ----- what reaches the file -----

  /** `BufWriter::new` makes a buffer of this many bytes. */
  const BUFFER_SIZE: nat := 8192

  /** What the writer task and the last loop put into the archive; `copy` ends with a flush, and nothing else flushes. */
  ghost predicate PutsFor(roots: seq<Named>, s: State, puts: seq<A.Put>) {
    && |puts| == |s.blobs| + |s.archive|
    && (forall k :: 0 <= k < |s.blobs| ==>
      puts[k].PutBlob? && puts[k].flushed && Flatten(puts[k].pieces) == Content(roots, s.blobs[k]))
    && (forall k :: |s.blobs| <= k < |puts| ==> puts[k] == A.PutEntry(s.archive[k - |s.blobs|].entry))
  }

  lemma ShownIn(h: HashFunction, roots: seq<Named>, s: State, puts: seq<A.Put>)
    requires PutsFor(roots, s, puts)
    requires forall i :: 0 <= i < |s.archive| ==> P.ReadBack(s.archive[i].entry) == s.archive[i].entry
    ensures SeenIn(h, roots, s, A.AllShown(h, puts))
  {
  }

  lemma PutsFit(h: HashFunction, roots: seq<Named>, s: State, puts: seq<A.Put>)
    requires Inv(h, roots, s) && PutsFor(roots, s, puts)
    ensures A.EntriesFit(0xFFFF, puts)
    ensures forall i :: 0 <= i < |s.archive| ==> P.ReadBack(s.archive[i].entry) == s.archive[i].entry
  {
    forall p | p in puts && p.PutEntry?
      ensures Fits(0xFFFF, p.entry)
    {
      var k :| 0 <= k < |puts| && puts[k] == p;
      assert Fits(0xFFFF, s.archive[k - |s.blobs|].entry);
    }
    forall i | 0 <= i < |s.archive|
      ensures P.ReadBack(s.archive[i].entry) == s.archive[i].entry
    {
      assert Log(s)[i] == s.archive[i];
      EntriesReadBack(h, roots, s.archive[i].pos);
    }
  }

  /**
   The writes of a run that ends well, through a buffer that is dropped at the end without having been flushed. All of the
   archive has been handed over; what has gone further is an initial part of it, with all frames of all blobs, and all of it
   exactly if the buffer is empty. Over a buffer of more than 32 bytes it never is: no run of the command leaves a complete
   archive behind.
   */
  method CreateArchive(h: HashFunction, roots: seq<Named>, ghost run: seq<Action>, ghost s: State, puts: seq<A.Put>, sink: W.Sink)
    returns (ok: bool, ghost items: seq<Item>)
    requires Exec(h, roots, run) == Some(s) && s.walker.Done? && PutsFor(roots, s, puts)
    requires sink.out == [] && sink.held == 0
    modifies sink
    ensures sink.reliable ==> ok
    ensures ok ==> ItemsFit(0xFFFF, items) && sink.out == EncodeArchive(h, items)
    ensures ok ==> P.ParseArchive(sink.out) == P.Reading(A.AllShown(h, puts), P.AtEnd)
    ensures ok ==> SeenIn(h, roots, s, A.AllShown(h, puts))
    ensures ok ==> sink.Reached() <= sink.out && (sink.Reached() == sink.out <==> sink.held == 0)
    ensures ok && sink.capacity > 32 ==> sink.Reached() != sink.out
    ensures ok && s.blobs != [] ==> A.Reaches(h, items, |s.blobs|, |sink.Reached()|)
    ensures ok && sink.capacity > |HEADER| && s.blobs == [] && |sink.out| <= sink.capacity ==> sink.Reached() == []
  {
    RunKeeps(h, roots, run);
    hide Inv, Exec, SeenIn, ItemsFit, EncodeItems, A.Reaches, A.AllShown, W.Sink.Reached;
    PutsFit(h, roots, s, puts);
    ShownIn(h, roots, s, puts);
    ok, items := A.WriteArchive(0xFFFF, sink, h, puts);
    if ok {
      P.ArchiveRoundTrip(h, items);
      assert HEADER <= sink.out;
      assert s.blobs != [] ==> puts[|s.blobs| - 1].PutBlob? && puts[|s.blobs| - 1].flushed;
    }
  }

  /** What a reader makes of the file: as many items as are wholly in it, and an error unless it ends with one of them. */
  lemma FileShows(h: HashFunction, items: seq<Item>, file: Bytes)
    requires ItemsFit(0xFFFF, items) && file <= EncodeArchive(h, items)
    ensures P.ParseArchive(file).stop == P.AtEnd <==> T.EndsItem(h, items, |file|)
    ensures |file| < 5 ==> P.ParseArchive(file) == P.Reading([], P.Stopped(P.UnexpectedEof))
    ensures |file| >= 5 ==> T.ShowsCut(h, items, |file| - 5, P.ParseArchive(file))
  {
    hide P.ParseArchive, EncodeArchive, T.EndsItem, T.ShowsCut;
    T.TruncatedArchive(h, items, |file|);
    assert file == EncodeArchive(h, items)[..|file|];
  }

  // ----- one empty directory -----

  const ONE_DIRECTORY: seq<Named> := [Named([0x64], Dir([]))]

  lemma OneMore(h: HashFunction, roots: seq<Named>, run: seq<Action>, a: Action)
    requires Exec(h, roots, run).Some?
    ensures Exec(h, roots, run + [a]) == Step(h, roots, Exec(h, roots, run).value, a)
  {
    assert (run + [a])[..|run|] == run;
  }

  /** The only run there is over one empty directory, but for the order in which the two tasks find out that all is done. */
  lemma OneDirectoryRun(h: HashFunction) returns (run: seq<Action>, s: State)
    ensures Exec(h, ONE_DIRECTORY, run) == Some(s) && s.walker.Done?
    ensures s.blobs == [] && s.archive == [Sent([0], Entry([0x64], Directory))]
  {
    var roots := ONE_DIRECTORY;
    var x := Sent([0], Entry([0x64], Directory));
    var s0 := Init(roots);
    assert |s0.queue| == 1 && s0.queue[0] == [] + [0] == [0];
    var pos: Pos := [0];
    assert roots[0].node == Dir([]) && NodeAt(roots, pos) == Some(roots[0].node);
    assert PathAt(roots, pos) == roots[0].name == [0x64];
    assert s0.queue[1..] + Children([0], 0) == [];
    var s1 := s0.(queue := [], channel := [x]);
    assert [] + [x] == [x];
    assert Exec(h, roots, []) == Some(s0) && Step(h, roots, s0, Walk) == Some(s1);
    run := [];
    OneMore(h, roots, run, Walk);
    run := run + [Walk];
    OneMore(h, roots, run, Walk);
    run := run + [Walk];
    var s2 := s1.(walker := Closed);
    assert Exec(h, roots, run) == Some(s2);
    OneMore(h, roots, run, Write);
    run := run + [Write];
    OneMore(h, roots, run, Walk);
    run := run + [Walk];
    var s4 := s2.(writer := Finished(true), walker := Draining);
    assert Exec(h, roots, run) == Some(s4);
    OneMore(h, roots, run, Walk);
    run := run + [Walk];
    var s5 := s4.(archive := [x], channel := []);
    assert [x][1..] == [] && [] + [x] == [x];
    assert Exec(h, roots, run) == Some(s5);
    OneMore(h, roots, run, Walk);
    run := run + [Walk];
    s := s5.(walker := Done);
    assert Exec(h, roots, run) == Some(s);
  }

  /** The archive of one empty directory: a run that reports success leaves a file of no bytes, which is no archive at all. */
  method EmptyDirectoryLost(h: HashFunction) returns (sink: W.Sink)
    ensures P.ParseArchive(sink.out) == P.Reading([P.SeenEntry(Entry([0x64], Directory))], P.AtEnd)
    ensures sink.capacity == 8192 && sink.Reached() == []
    ensures P.ParseArchive(sink.Reached()) == P.Reading([], P.Stopped(P.UnexpectedEof))
  {
    ghost var run, s := OneDirectoryRun(h);
    sink := new W.Sink(BUFFER_SIZE, true, None);
    var e := Entry([0x64], Directory);
    var puts := [A.PutEntry(e)];
    var ok;
    ghost var items;
    ok, items := CreateArchive(h, ONE_DIRECTORY, run, s, puts, sink);
    assert A.AllShown(h, puts) == [P.SeenEntry(e)];
    OneEntryBytes(h, items, e);
  }

  lemma OneEntryBytes(h: HashFunction, items: seq<Item>, e: Entry)
    requires ItemsFit(0xFFFF, items) && P.ParseArchive(EncodeArchive(h, items)) == P.Reading([P.SeenEntry(e)], P.AtEnd)
    requires e == Entry([0x64], Directory)
    ensures |EncodeArchive(h, items)| == 10
  {
    P.ArchiveRoundTrip(h, items);
    var seen := P.ReadBackItems(h, items);
    assert |items| == 1 && seen[0] == P.ReadBackItem(h, items[0]);
    assert items[0] in items;
    assert items[0].Record? && P.ReadBack(items[0].entry) == e;
    assert items[0].entry == e;
    assert EncodeTarget(Directory) == [TYPE_DIR] && |Prefixed(e.path)| == 3;
    assert |EncodeItem(h, items[0])| == 5;
    assert items[1..] == [] && EncodeItems(h, items) == EncodeItem(h, items[0]) + EncodeItems(h, []);
  }
}
