/** The writing half of crates/archive/src/write.rs, over sinks that write short, stall and fail. */
module ArchiveWriter {
  import opened Prelude
  import opened ArchiveFormat
  import opened ArchiveParser

  /**
   The inner writer, with or without a `BufWriter` around it. It never answers a write of some bytes by writing none. A
   buffer takes what fits, is emptied for what does not, and passes on at once what is as long as itself.
   */
  class Sink {
    var out: Bytes               // all it has accepted
    var held: nat                // how many of the last of these are in the buffer
    const capacity: nat          // of the buffer, 0 if there is none
    const reliable: bool         // it accepts something whenever it is asked
    const hiccup: Option<nat>    // if it is not reliable: without a buffer it refuses just once, when this much is in it
    var rested: bool             // it has refused once

    constructor (capacity: nat, reliable: bool, hiccup: Option<nat>)
      ensures out == [] && held == 0 && !rested
      ensures this.capacity == capacity && this.reliable == reliable && this.hiccup == hiccup
    {
      out, held, rested := [], 0, false;
      this.capacity, this.reliable, this.hiccup := capacity, reliable, hiccup;
    }

    /** It takes n more bytes without refusing. */
    ghost predicate Sure(n: nat)
      reads this
    {
      capacity == 0 && held == 0 && hiccup.Some? && (rested || |out| + n <= hiccup.value)
    }

    /** It refuses what it is asked next. */
    ghost predicate Refuses()
      reads this
    {
      capacity == 0 && held == 0 && !reliable && hiccup.Some? && !rested && |out| >= hiccup.value
    }

    /** What has gone further than the buffer. */
    ghost function Reached(): (r: Bytes)
      reads this
      ensures r <= out && (held > 0 && out != [] ==> r != out) && (held == 0 ==> r == out) && (held == |out| ==> r == [])
    {
      if held <= |out| then out[..|out| - held] else []
    }

    /** Nothing has got further than the buffer. */
    ghost predicate Lazy()
      reads this
    {
      held == |out|
    }

    /** `flush_buf`: empties the buffer, or gives up with some of it left. */
    method Flush() returns (ok: bool)
      modifies this`held
      ensures ok <==> held == 0
      ensures held <= old(held) && (!ok ==> !reliable)
      ensures old(Reached()) <= Reached()
    {
      var stalls := *;
      if stalls && !reliable {
        var k: nat :| k <= held;
        held := k;
      } else {
        held := 0;
      }
      return held == 0;
    }

    /** Accepts some of the bytes; None is Pending, Interrupted or an error, with nothing accepted. */
    method Write(buf: Bytes) returns (n: Option<nat>)
      requires buf != []
      modifies this
      ensures n.Some? ==> 1 <= n.value <= |buf| && out == old(out) + buf[..n.value]
      ensures n.None? ==> out == old(out) && !reliable
      ensures old(Reached()) <= Reached()
      ensures n.Some? && |buf| < capacity ==> n.value == |buf| && held > 0
      ensures |buf| < capacity && old(held) + |buf| <= capacity ==> n.Some? && held == old(held) + |buf|
      ensures capacity == 0 && old(held) == 0 ==> held == 0
      ensures n.Some? ==> rested == old(rested)
      ensures old(Sure(1)) ==> n.Some?
      ensures old(Refuses()) ==> n.None? && rested
    {
      if held + |buf| > capacity {
        var ok := Flush();
        if !ok {
          return None;
        }
      }
      if |buf| < capacity {
        out, held := out + buf, held + |buf|;
        return Some(|buf|);
      }
      var stalls := *;
      if capacity == 0 && hiccup.Some? {
        stalls := !rested && |out| >= hiccup.value;
      }
      if stalls && !reliable {
        rested := true;
        return None;
      }
      var k: nat :| 1 <= k <= |buf|;
      out := out + buf[..k];
      return Some(k);
    }

    /** `write_all`: retries interruptions, and gives up at the first error. */
    method WriteAll(buf: Bytes) returns (ok: bool)
      modifies this
      ensures old(out) <= out <= old(out) + buf
      ensures ok <==> out == old(out) + buf
      ensures reliable ==> ok
      ensures old(Reached()) <= Reached()
      ensures ok && 0 < |buf| < capacity ==> held > 0
      ensures |buf| < capacity && |old(out)| + |buf| <= capacity && old(Lazy()) ==> Lazy()
      ensures old(Sure(|buf|)) ==> ok && held == 0 && rested == old(rested)
    {
      hide Reached;
      var sent := 0;
      var interruptions: nat := *;
      while sent < |buf|
        invariant 0 <= sent <= |buf| && out == old(out) + buf[..sent]
        invariant old(Reached()) <= Reached()
        invariant sent > 0 && |buf| < capacity ==> sent == |buf| && held > 0
        invariant |buf| < capacity && |old(out)| + |buf| <= capacity && old(Lazy()) ==> Lazy()
        invariant old(Sure(|buf|)) ==> Sure(|buf| - sent) && rested == old(rested)
        decreases |buf| - sent, interruptions
      {
        var n := Write(buf[sent..]);
        if n.Some? {
          assert buf[..sent] + buf[sent..][..n.value] == buf[..sent + n.value];
          sent := sent + n.value;
        } else if interruptions > 0 {
          interruptions := interruptions - 1;
        } else {
          return false;
        }
      }
      return true;
    }
  }

  lemma SplitRange(out: Bytes, buffer: Bytes, start: nat, n: nat, end: nat)
    requires start + n <= end <= |buffer|
    ensures out + buffer[start..end][..n] + buffer[start + n..end] == out + buffer[start..end]
  {
  }

  lemma Onward(before: Bytes, payload: Bytes, done: nat, count: nat)
    requires done + count <= |payload|
    ensures before + payload[..done] + payload[done..][..count] == before + payload[..done + count]
    ensures done + count == |payload| ==> before + payload[..done] + payload[done..] == before + payload
  {
  }

  /** Where a failing sink can have stopped inside one piece of what was to be written. */
  lemma PartOf(start: Bytes, done: Bytes, piece: Bytes, more: Bytes, out: Bytes)
    requires start + done <= out <= start + done + piece
    ensures start <= out <= start + (done + piece + more)
    ensures start <= out <= start + (done + (piece + more))
  {
    assert start <= start + done;
    assert start + done + piece <= start + (done + piece + more);
    assert done + piece + more == done + (piece + more);
  }

  datatype Outcome = Written | TooLong | Failed

  class Writer {
    const max: nat     // MAX_LENGTH
    const sink: Sink

    ghost predicate Valid() {
      0 < max <= 0xFFFF
    }

    /** Only a writer whose header went out is handed to the caller. */
    static method Open(max: nat, sink: Sink) returns (w: Writer?)
      requires 0 < max <= 0xFFFF
      modifies sink
      ensures w == null ==> old(sink.out) <= sink.out <= old(sink.out) + HEADER
      ensures w != null ==> fresh(w) && w.Valid() && w.max == max && w.sink == sink
      ensures w != null ==> sink.out == old(sink.out) + HEADER
      ensures sink.reliable ==> w != null
      ensures w != null && sink.capacity > |HEADER| ==> sink.held > 0
      ensures |HEADER| < sink.capacity && old(sink.out) == [] && old(sink.Lazy()) ==> sink.Lazy()
      ensures old(sink.Sure(|HEADER|)) ==> w != null && sink.held == 0 && sink.rested == old(sink.rested)
    {
      var ok := sink.WriteAll(HEADER);
      if ok {
        w := new Writer(max, sink);
      } else {
        w := null;
      }
    }

    constructor (max: nat, sink: Sink)
      ensures this.max == max && this.sink == sink
    {
      this.max, this.sink := max, sink;
    }

    method WriteLengthPrefixed(buf: Bytes) returns (r: Outcome)
      requires Valid()
      modifies sink
      ensures |old(sink.Reached())| <= |sink.Reached()|
      ensures r.TooLong? <==> |buf| > max
      ensures r.TooLong? ==> sink.out == old(sink.out)
      ensures r.Written? ==> sink.out == old(sink.out) + Prefixed(buf)
      ensures r.Failed? ==>
        |buf| <= max && old(sink.out) <= sink.out <= old(sink.out) + Prefixed(buf) && !sink.reliable
      ensures old(sink.out) != [] && |sink.out| <= sink.capacity && old(sink.Lazy()) && r.Written? ==> sink.Lazy()
    {
      if |buf| > max {
        return TooLong;
      }
      var ok := sink.WriteAll(U16(|buf|));
      if !ok {
        return Failed;
      }
      ok := sink.WriteAll(buf);
      Associates(old(sink.out), U16(|buf|), buf, []);
      return if ok then Written else Failed;
    }

    /** What `write_entry` has emitted when it refuses an entry: its tag, and all that comes before the long string. */
    ghost function Debris(e: Entry): Bytes
      requires Valid()
    {
      if |e.path| > max then [ENTRY_ENTRY] else [ENTRY_ENTRY] + Prefixed(e.path) + [TYPE_LINK]
    }

    /** What `write_entry` tries to emit. */
    ghost function Attempt(e: Entry): Bytes
      requires Valid()
    {
      if Fits(max, e) then EncodeEntry(e) else Debris(e)
    }

    /**
     An entry is written if its path and link target fit, and refused otherwise. A refused entry is not undone: the
     bytes already emitted stay in the archive. A failing sink has taken the first bytes of the attempt.
     */
    method WriteEntry(e: Entry) returns (r: Outcome)
      requires Valid()
      modifies sink
      ensures |old(sink.Reached())| <= |sink.Reached()|
      ensures r.Written? ==> Fits(max, e) && sink.out == old(sink.out) + EncodeEntry(e)
      ensures r.TooLong? ==> !Fits(max, e) && sink.out == old(sink.out) + Debris(e)
      ensures r.Failed? ==> old(sink.out) <= sink.out <= old(sink.out) + Attempt(e) && !sink.reliable
      ensures r.Written? && sink.capacity > 2 ==> sink.held > 0
      ensures r.Written? && old(sink.Lazy()) && old(sink.out) != [] && |sink.out| <= sink.capacity ==> sink.Lazy()
    {
      hide Sink.Reached, EncodeTarget;
      ghost var start := sink.out;
      ghost var all := Attempt(e);
      ghost var tail := if Fits(max, e) then EncodeTarget(e.target) else [TYPE_LINK];
      assert Fits(max, e) || |e.path| <= max ==> all == [ENTRY_ENTRY] + Prefixed(e.path) + tail;
      var ok := sink.WriteAll([ENTRY_ENTRY]);
      if !ok {
        PartOf(start, [], [ENTRY_ENTRY], all[1..], sink.out);
        assert [] + [ENTRY_ENTRY] + all[1..] == all;
        return Failed;
      }
      r := WriteLengthPrefixed(e.path);
      if !r.Written? {
        if r.Failed? {
          PartOf(start, [ENTRY_ENTRY], Prefixed(e.path), tail, sink.out);
        }
        return;
      }
      Associates(start, [ENTRY_ENTRY], Prefixed(e.path), []);
      ghost var head := [ENTRY_ENTRY] + Prefixed(e.path);
      assert sink.out == start + head;
      r := WriteTarget(e.target);
      Associates(start, head, tail, []);
      if r.Failed? {
        PartOf(start, head, tail, [], sink.out);
        assert head + tail + [] == all;
      }
    }

    /** The second half of `write_entry`. */
    method WriteTarget(t: EntryTarget) returns (r: Outcome)
      requires Valid()
      modifies sink
      ensures |old(sink.Reached())| <= |sink.Reached()|
      ensures r.TooLong? <==> t.Link? && |t.dest| > max && !r.Failed?
      ensures r.TooLong? ==> sink.out == old(sink.out) + [TYPE_LINK]
      ensures r.Written? ==> sink.out == old(sink.out) + EncodeTarget(t)
      ensures r.Failed? ==> old(sink.out) <= sink.out && !sink.reliable
      ensures r.Failed? ==>
        sink.out <= old(sink.out) + if t.Link? && |t.dest| > max then [TYPE_LINK] else EncodeTarget(t)
      ensures r.Written? && sink.capacity > 2 ==> sink.held > 0
      ensures r.Written? && old(sink.Lazy()) && old(sink.out) != [] && |sink.out| <= sink.capacity ==> sink.Lazy()
    {
      match t {
        case Data(hash, flags) => r := WriteDataTarget(hash, flags);
        case Link(dest, flags) => r := WriteLinkTarget(dest, flags);
        case Directory =>
          var ok := sink.WriteAll([TYPE_DIR]);
          r := if ok then Written else Failed;
      }
    }

    method WriteDataTarget(hash: SupportedHash, flags: Flags) returns (r: Outcome)
      modifies sink
      ensures |old(sink.Reached())| <= |sink.Reached()|
      ensures !r.TooLong?
      ensures r.Written? ==> sink.out == old(sink.out) + EncodeTarget(Data(hash, flags))
      ensures r.Failed? ==> old(sink.out) <= sink.out <= old(sink.out) + EncodeTarget(Data(hash, flags)) && !sink.reliable
      ensures r.Written? && sink.capacity > 2 ==> sink.held > 0
      ensures r.Written? && old(sink.Lazy()) && old(sink.out) != [] && |sink.out| <= sink.capacity ==> sink.Lazy()
    {
      hide Sink.Reached;
      ghost var start := sink.out;
      ghost var all := EncodeTarget(Data(hash, flags));
      assert all == [TYPE_DATA, HASH_BLAKE3] + hash.digest + U16(flags);
      var ok := sink.WriteAll([TYPE_DATA, HASH_BLAKE3]);
      if !ok {
        Associates([TYPE_DATA, HASH_BLAKE3], hash.digest, U16(flags), []);
        PartOf(start, [], [TYPE_DATA, HASH_BLAKE3], hash.digest + U16(flags), sink.out);
        return Failed;
      }
      ok := sink.WriteAll(hash.digest);
      if !ok {
        PartOf(start, [TYPE_DATA, HASH_BLAKE3], hash.digest, U16(flags), sink.out);
        return Failed;
      }
      Associates(start, [TYPE_DATA, HASH_BLAKE3], hash.digest, U16(flags));
      ok := sink.WriteAll(U16(flags));
      if !ok {
        PartOf(start, [TYPE_DATA, HASH_BLAKE3] + hash.digest, U16(flags), [], sink.out);
        return Failed;
      }
      return Written;
    }

    method WriteLinkTarget(dest: Bytes, flags: Flags) returns (r: Outcome)
      requires Valid()
      modifies sink
      ensures |old(sink.Reached())| <= |sink.Reached()|
      ensures r.TooLong? <==> |dest| > max && !r.Failed?
      ensures r.TooLong? ==> sink.out == old(sink.out) + [TYPE_LINK]
      ensures r.Written? ==> sink.out == old(sink.out) + EncodeTarget(Link(dest, flags))
      ensures r.Failed? ==> old(sink.out) <= sink.out && !sink.reliable
      ensures r.Failed? ==>
        sink.out <= old(sink.out) + if |dest| > max then [TYPE_LINK] else EncodeTarget(Link(dest, flags))
      ensures r.Written? && sink.capacity > 2 ==> sink.held > 0
      ensures r.Written? && old(sink.Lazy()) && old(sink.out) != [] && |sink.out| <= sink.capacity ==> sink.Lazy()
    {
      hide Sink.Reached;
      ghost var start := sink.out;
      var ok := sink.WriteAll([TYPE_LINK]);
      if !ok {
        if |dest| <= max {
          Associates([TYPE_LINK], Prefixed(dest), U16(flags), []);
          PartOf(start, [], [TYPE_LINK], Prefixed(dest) + U16(flags), sink.out);
        }
        return Failed;
      }
      r := WriteLengthPrefixed(dest);
      if !r.Written? {
        if r.Failed? {
          PartOf(start, [TYPE_LINK], Prefixed(dest), U16(flags), sink.out);
        }
        return;
      }
      Associates(start, [TYPE_LINK], Prefixed(dest), U16(flags));
      ok := sink.WriteAll(U16(flags));
      if !ok {
        PartOf(start, [TYPE_LINK] + Prefixed(dest), U16(flags), [], sink.out);
        return Failed;
      }
      return Written;
    }

    /** `write_data`: the tag of a blob, and a writer for its payload. */
    method WriteData(h: HashFunction) returns (d: DataWriter?)
      requires Valid()
      modifies sink
      ensures |old(sink.Reached())| <= |sink.Reached()|
      ensures old(sink.Sure(1)) ==> d != null && sink.held == 0 && sink.rested == old(sink.rested)
      ensures d == null ==> sink.out == old(sink.out) && !sink.reliable
      ensures d != null ==> fresh(d) && d.writer == this && d.h == h && d.Valid()
      ensures d != null ==> d.base == old(sink.out) + [ENTRY_DATA] && d.frames == [] && !d.Pending()
    {
      var ok := sink.WriteAll([ENTRY_DATA]);
      if ok {
        d := new DataWriter(this, h);
      } else {
        d := null;
      }
    }
  }

  datatype Progress = Accepted(count: nat) | NotReady

  class DataWriter {
    const writer: Writer
    const h: HashFunction
    var absorbed: Bytes          // what the hasher has been given
    var buffer: Bytes
    var start: nat               // the range of the buffer still to be written
    var end: nat
    ghost const base: Bytes      // the output before the first frame
    ghost var frames: seq<Bytes> // the frames made so far; the last one may be partly written

    ghost predicate Pending()
      reads this
    {
      start < end
    }

    /** The payload of a frame that is not yet completely written. */
    ghost function Unfinished(): Bytes
      reads this
    {
      if Pending() && frames != [] then frames[|frames| - 1] else []
    }

    ghost predicate Valid()
      reads this, writer.sink
    {
      && writer.Valid() && FramesFit(writer.max, frames)
      && start <= end <= |buffer|
      && writer.sink.out + buffer[start..end] == base + EncodeFrames(frames)
      && absorbed == Flatten(frames)
      && (Pending() ==> frames != [] && buffer == Prefixed(frames[|frames| - 1]) && end == |buffer|)
      && (frames != [] ==> end == 2 + |frames[|frames| - 1]|)
    }

    /** The payload for which the caller has been told a count. */
    ghost function Acknowledged(): Bytes
      reads this
    {
      Flatten(if Pending() && frames != [] then frames[..|frames| - 1] else frames)
    }

    /** After a frame was left unfinished the caller offers the same bytes again, or an extension of them. */
    ghost predicate Reoffers(buf: Bytes)
      reads this
    {
      Unfinished() <= buf
    }

    constructor (writer: Writer, h: HashFunction)
      requires writer.Valid()
      ensures Valid() && this.writer == writer && this.h == h
      ensures base == writer.sink.out && frames == [] && !Pending()
    {
      this.writer, this.h := writer, h;
      absorbed, buffer, start, end := [], [], 0, 0;
      base, frames := writer.sink.out, [];
    }

    /** The frames after a write of buf: a new one is made unless one was left unfinished. */
    ghost function FramesAfter(buf: Bytes): seq<Bytes>
      reads this
    {
      if Pending() || buf == [] then frames else frames + [buf[..Min(|buf|, writer.max)]]
    }

    /** The loop of `write`: pushes the unfinished frame out until it is complete or the inner writer stops. */
    method Drain() returns (r: Progress)
      requires Valid() && Pending()
      modifies this, writer.sink
      ensures |old(writer.sink.Reached())| <= |writer.sink.Reached()|
      ensures old(writer.sink.Refuses()) ==>
        r.NotReady? && start == old(start) && writer.sink.out == old(writer.sink.out) && writer.sink.held == 0 && writer.sink.rested
      ensures Valid() && frames == old(frames)
      ensures r.NotReady? ==> Pending() && !writer.sink.reliable
      ensures r.Accepted? ==> !Pending() && r.count == |frames[|frames| - 1]|
    {
      hide EncodeFrames, Flatten, Prefixed, FramesFit, Sink.Reached;
      while start < end
        invariant Valid() && Pending() && frames == old(frames) && end == old(end)
        invariant |old(writer.sink.Reached())| <= |writer.sink.Reached()|
        invariant old(writer.sink.Refuses()) ==> writer.sink.Refuses() && start == old(start) && writer.sink.out == old(writer.sink.out)
        decreases end - start
      {
        ghost var before := writer.sink.out;
        var n := writer.sink.Write(buffer[start..end]);
        if n.None? {
          return NotReady;
        }
        SplitRange(before, buffer, start, n.value, end);
        start := start + n.value;
        if start == end {
          return Accepted(end - 2);
        }
      }
    }

    /** The second half of `write`: hashes the next chunk of the payload and puts its frame in the buffer. */
    method MakeFrame(buf: Bytes)
      requires Valid() && !Pending() && buf != []
      modifies this
      ensures Valid() && Pending() && start == 0 && frames == old(frames) + [buf[..Min(|buf|, writer.max)]]
    {
      hide EncodeFrames, Flatten;
      var toWrite := Min(|buf|, writer.max);
      var f := buf[..toWrite];
      FramesOneMore(frames, f);
      FlattenOneMore(frames, f);
      ghost var before := EncodeFrames(frames);
      assert writer.sink.out == base + before by {
        assert buffer[start..end] == [];
        assert writer.sink.out + [] == writer.sink.out;
      }
      absorbed := absorbed + f;
      buffer := U16(toWrite) + f;
      start, end := 0, |buffer|;
      frames := frames + [f];
      assert buffer[start..end] == Prefixed(f);
      Associates(base, before, Prefixed(f), []);
    }

    /**
     `write` and `poll_write`. Whatever the inner writer does, the output and the pending range together are exactly
     the frames of the bytes hashed. When the call completes a frame its count is that frame's length; if the caller
     offers the same bytes after an unfinished call, the count says how many of its bytes are now written.
     */
    method Write(buf: Bytes) returns (r: Progress)
      requires Valid()
      modifies this, writer.sink
      ensures |old(writer.sink.Reached())| <= |writer.sink.Reached()|
      ensures old(writer.sink.Refuses()) && buf != [] ==>
        r.NotReady? && start == (if old(Pending()) then old(start) else 0) && writer.sink.out == old(writer.sink.out) && writer.sink.held == 0 && writer.sink.rested
      ensures Valid() && frames == old(FramesAfter(buf))
      ensures r.NotReady? ==> Pending() && buf != [] && !writer.sink.reliable
      ensures r.Accepted? && buf != [] ==> !Pending() && frames != [] && r.count == |frames[|frames| - 1]|
      ensures r.Accepted? && buf == [] ==> r.count == 0 && Pending() == old(Pending())
      ensures old(Reoffers(buf)) && r.Accepted? ==> r.count <= |buf| && (buf != [] ==> 0 < r.count)
      ensures old(Reoffers(buf)) && r.Accepted? ==> Acknowledged() == old(Acknowledged()) + buf[..r.count]
      ensures old(Reoffers(buf)) && r.NotReady? ==> Acknowledged() == old(Acknowledged()) && Reoffers(buf)
      decreases if Pending() then 0 else 1
    {
      hide EncodeFrames, Flatten, Prefixed, Sink.Reached, Sink.Refuses;
      if buf == [] {
        return Accepted(0);
      }
      if start < end {
        LastFrame();
        r := Drain();
        return;
      }
      MakeFrame(buf);
      assert frames[..|frames| - 1] == old(frames);
      r := Write(buf);
    }

    /** The acknowledged payload and the unfinished frame make up all frames. */
    lemma LastFrame()
      requires Valid()
      ensures Flatten(frames) == Acknowledged() + Unfinished()
    {
      if Pending() {
        assert frames[..|frames| - 1] + [frames[|frames| - 1]] == frames;
        FlattenOneMore(frames[..|frames| - 1], frames[|frames| - 1]);
      }
    }

    /** `write_all`: offers the rest of the payload until it is all accepted, or gives up. */
    method WriteAll(payload: Bytes) returns (ok: bool)
      requires Valid() && !Pending()
      modifies this, writer.sink
      ensures |old(writer.sink.Reached())| <= |writer.sink.Reached()|
      ensures Valid()
      ensures ok ==> !Pending() && Flatten(frames) == old(Flatten(frames)) + payload
      ensures !ok ==> old(Flatten(frames)) <= Acknowledged() <= old(Flatten(frames)) + payload && !writer.sink.reliable
    {
      hide EncodeFrames, Flatten, Prefixed, FramesFit;
      ghost var before := Flatten(frames);
      LastFrame();
      var done := 0;
      var interruptions: nat := *;
      assert before + payload[..done] == before;
      while done < |payload|
        invariant 0 <= done <= |payload| && Valid()
        invariant |old(writer.sink.Reached())| <= |writer.sink.Reached()|
        invariant Acknowledged() == before + payload[..done]
        invariant Reoffers(payload[done..]) && (done == |payload| ==> !Pending())
        decreases |payload| - done, interruptions
      {
        var r := Write(payload[done..]);
        if r.Accepted? {
          Onward(before, payload, done, r.count);
          done := done + r.count;
        } else if interruptions > 0 {
          interruptions := interruptions - 1;
        } else {
          Onward(before, payload, done, |payload| - done);
          return false;
        }
      }
      assert payload[..done] == payload;
      LastFrame();
      return true;
    }

    /** `poll_flush`: passed on to the inner writer. An unfinished frame is not part of it. */
    method Flush() returns (ok: bool)
      requires Valid()
      modifies writer.sink`held
      ensures Valid()
      ensures |old(writer.sink.Reached())| <= |writer.sink.Reached()|
      ensures ok <==> writer.sink.held == 0
      ensures writer.sink.reliable ==> ok
    {
      ok := writer.sink.Flush();
    }

    /** `finish`: the terminator and the hash of everything absorbed, or the first bytes of them. */
    method Finish() returns (hash: Option<SupportedHash>)
      requires Valid()
      modifies writer.sink
      ensures |old(writer.sink.Reached())| <= |writer.sink.Reached()|
      ensures old(writer.sink.Sure(|Trailer(Blake3(h(Flatten(frames))))|)) ==> hash.Some?
      ensures writer.sink.reliable ==> hash.Some?
      ensures hash.Some? ==> hash.value == Blake3(h(Flatten(frames)))
      ensures hash.Some? ==> writer.sink.out == old(writer.sink.out) + Trailer(hash.value)
      ensures hash.None? ==>
        old(writer.sink.out) <= writer.sink.out <= old(writer.sink.out) + Trailer(Blake3(h(Flatten(frames))))
      ensures hash.Some? && writer.sink.capacity > 32 ==> writer.sink.held > 0
    {
      hide EncodeFrames, Flatten, FramesFit, Sink.Reached;
      ghost var start := writer.sink.out;
      var result := Blake3(h(absorbed));
      assert Trailer(result) == U16(0) + [HASH_BLAKE3] + result.digest;
      var ok := writer.sink.WriteAll(U16(0));
      if !ok {
        Associates(U16(0), [HASH_BLAKE3], result.digest, []);
        PartOf(start, [], U16(0), [HASH_BLAKE3] + result.digest, writer.sink.out);
        return None;
      }
      ok := writer.sink.WriteAll([HASH_BLAKE3]);
      if !ok {
        PartOf(start, U16(0), [HASH_BLAKE3], result.digest, writer.sink.out);
        return None;
      }
      Associates(start, U16(0), [HASH_BLAKE3], result.digest);
      ok := writer.sink.WriteAll(result.digest);
      if !ok {
        PartOf(start, U16(0) + [HASH_BLAKE3], result.digest, [], writer.sink.out);
        return None;
      }
      return Some(result);
    }

    /** With no frame unfinished the output is all frames. */
    lemma AllOut()
      requires Valid() && !Pending()
      ensures FramesFit(writer.max, frames) && writer.max <= 0xFFFF && writer.sink.out == base + EncodeFrames(frames)
    {
      assert buffer[start..end] == [] && writer.sink.out + [] == writer.sink.out;
    }

    /** The output behind the tag: all frames but the last, and what has gone out of that. */
    lemma PartlyOut()
      requires Valid() && Pending()
      ensures frames != [] && FramesFit(0xFFFF, frames[..|frames| - 1])
      ensures writer.sink.out == base + (EncodeFrames(frames[..|frames| - 1]) + buffer[..start])
    {
      var most, last := frames[..|frames| - 1], frames[|frames| - 1];
      assert most + [last] == frames;
      FramesOneMore(most, last);
      Cancels(writer.sink.out, base, EncodeFrames(most), buffer, start);
    }

    /** What a reader finds behind the tag once `finish` has written this hash and x comes after it. */
    ghost function Finished(hash: SupportedHash, x: Bytes): Bytes
      reads this, writer.sink
    {
      if |base| <= |writer.sink.out| then writer.sink.out[|base|..] + Trailer(hash) + x else []
    }

    /** A reader gets the payload, the hash and what follows if and only if no frame was left unfinished. */
    lemma FinishExact(hash: SupportedHash, x: Bytes)
      requires Valid()
      ensures ParseBlob(Finished(hash, x)) == BlobRead(Flatten(frames), Good(hash, x)) <==> !Pending()
    {
      hide ParseBlob, EncodeFrames, Flatten;
      if Pending() {
        PartlyOut();
        var most, last := frames[..|frames| - 1], frames[|frames| - 1];
        var y := buffer[..start] + Trailer(hash) + x;
        assert writer.sink.out[|base|..] == EncodeFrames(most) + buffer[..start];
        assert Finished(hash, x) == EncodeFrames(most) + y;
        BlobAfterFrames(most, y);
        assert most + [last] == frames;
        FlattenOneMore(most, last);
        if ParseBlob(Finished(hash, x)) == BlobRead(Flatten(frames), Good(hash, x)) {
          assert |ParseBlob(y).payload| == |last|;
          BlobTakes(y);
        }
      } else {
        AllOut();
        assert writer.sink.out[|base|..] == EncodeFrames(frames);
        BlobRoundTrip(frames, hash, x);
      }
    }

    /**
     If nothing of the last frame has gone out, finishing makes a blob that looks complete: its payload lacks that frame,
     and its hash is that of the payload with it.
     */
    lemma FinishLosesFrame(hash: SupportedHash, x: Bytes)
      requires Valid() && Pending() && start == 0
      ensures ParseBlob(Finished(hash, x)) == BlobRead(Flatten(frames[..|frames| - 1]), Good(hash, x))
      ensures Flatten(frames) == Flatten(frames[..|frames| - 1]) + frames[|frames| - 1] && frames[|frames| - 1] != []
    {
      hide ParseBlob, EncodeFrames, Flatten;
      PartlyOut();
      var most, last := frames[..|frames| - 1], frames[|frames| - 1];
      assert buffer[..0] == [] && EncodeFrames(most) + [] == EncodeFrames(most);
      assert writer.sink.out[|base|..] == EncodeFrames(most);
      BlobRoundTrip(most, hash, x);
      assert most + [last] == frames;
      FlattenOneMore(most, last);
    }
  }

  /** An archive with a blob begun, on a sink that is about to refuse. */
  method BlobBegun(h: HashFunction) returns (d: DataWriter)
    ensures fresh(d) && fresh(d.writer.sink) && d.Valid() && d.h == h && d.frames == [] && !d.Pending()
    ensures d.writer.max == 0xFFFF && d.writer.sink.Refuses()
    ensures d.writer.sink.out == HEADER + [ENTRY_DATA]
  {
    hide Sink.Reached;
    var sink := new Sink(0, false, Some(6));
    var w := Writer.Open(0xFFFF, sink);
    assert w != null && sink.out == HEADER by {
      assert [] + HEADER == HEADER;
    }
    d := w.WriteData(h);
    d.AllOut();
    assert d.base + EncodeFrames([]) == HEADER + [ENTRY_DATA];
  }

  /**
   A sink that refuses a single time, before anything of the frame has gone out, and a caller that finishes instead of
   offering its bytes again: the archive has a blob without payload under the hash of the payload.
   */
  method FinishAfterRefusal(h: HashFunction, payload: Bytes) returns (sink: Sink)
    requires 0 < |payload| <= 0xFFFF
    ensures ParseArchive(sink.out) == Reading([SeenBlob([], Blake3(h(payload)))], AtEnd)
  {
    hide ParseArchive, Trailer, EncodeFrames, Flatten, FramesFit, Prefixed, DataWriter.Unfinished, DataWriter.Acknowledged, Sink.Reached;
    var d := BlobBegun(h);
    sink := d.writer.sink;
    var r := d.Write(payload);
    OneFrame(payload);
    var hash := d.Finish();
    OneBlob(sink.out, hash.value);
  }

  lemma OneFrame(payload: Bytes)
    ensures [] + [payload[..|payload|]] == [payload] && Flatten([payload]) == payload
  {
    assert [payload][1..] == [] && payload + [] == payload;
  }

  /** An archive of nothing but a blob without payload. */
  lemma OneBlob(out: Bytes, hash: SupportedHash)
    requires out == HEADER + [ENTRY_DATA] + Trailer(hash)
    ensures ParseArchive(out) == Reading([SeenBlob([], hash)], AtEnd)
  {
    hide ParseBlob, Trailer;
    EmptyBlob(hash);
    var s := [ENTRY_DATA] + Trailer(hash);
    assert out[..5] == HEADER && out[5..] == s;
    assert s[1..] == Trailer(hash) && ParseEvent(s) == Good(DataStarts, s[1..]);
    assert ParseItems(s) == Reading([SeenBlob([], hash)] + ParseItems([]).seen, ParseItems([]).stop);
    assert [SeenBlob([], hash)] + [] == [SeenBlob([], hash)];
  }

  lemma EmptyBlob(hash: SupportedHash)
    ensures ParseBlob(Trailer(hash)) == BlobRead([], Good(hash, []))
  {
    hide ParseFrame, Trailer;
    TrailerRoundTrip(hash, []);
    assert Trailer(hash) + [] == Trailer(hash);
  }

  lemma Cancels(out: Bytes, base: Bytes, most: Bytes, buffer: Bytes, start: nat)
    requires start <= |buffer| && out + buffer[start..] == base + (most + buffer)
    ensures out == base + (most + buffer[..start])
  {
    assert base + (most + buffer) == (base + (most + buffer[..start])) + buffer[start..];
    var long := base + (most + buffer[..start]);
    assert out == (out + buffer[start..])[..|out|] && long == (long + buffer[start..])[..|long|];
  }
}
