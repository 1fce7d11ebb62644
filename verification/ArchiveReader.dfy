/** The reading half of crates/archive/src/read.rs, over sources that deliver their bytes in pieces of any size. */
module ArchiveReader {
  import opened Prelude
  import opened ArchiveFormat
  import opened ArchiveParser

  datatype Result<+T> = Ok(value: T) | Err(failure: Failure)

  datatype Polled = Waiting | Ready(got: Bytes)

  /** How much a source delivers at a time: all there is room for, one byte, or anything between. */
  datatype Supply = Full | Sparing | Arbitrary

  class Source {
    var rest: Bytes
    var pauses: nat        // how often it may still be found not ready, unless its supply is arbitrary
    const supply: Supply
    ghost var shorts: nat  // ready polls so far that brought less than there was room for

    constructor (bytes: Bytes, supply: Supply, pauses: nat)
      ensures rest == bytes && this.supply == supply && this.pauses == pauses && shorts == 0
    {
      rest, this.supply, this.pauses, shorts := bytes, supply, pauses, 0;
    }

    /** Delivers between one byte and a full window, and nothing only at the end. */
    method Read(window: nat) returns (got: Bytes)
      modifies this`rest
      ensures |got| <= window && got + rest == old(rest)
      ensures got == [] <==> window == 0 || old(rest) == []
      ensures supply.Full? ==> |got| == Min(window, |old(rest)|)
      ensures supply.Sparing? ==> |got| <= 1
    {
      if window == 0 || rest == [] {
        return [];
      }
      assert 1 <= |rest| && 1 <= window;
      var n: nat :| 1 <= n <= window && n <= |rest|;
      n := match supply case Full => Min(window, |rest|) case Sparing => 1 case Arbitrary => n;
      got, rest := rest[..n], rest[n..];
    }

    /** The same for a source that may also not be ready. */
    method PollRead(window: nat) returns (r: Polled)
      modifies this
      ensures pauses <= old(pauses)
      ensures r.Waiting? ==> rest == old(rest) && (!supply.Arbitrary? ==> pauses < old(pauses))
      ensures r.Ready? ==> |r.got| <= window && r.got + rest == old(rest) && pauses == old(pauses)
      ensures r.Ready? ==> (r.got == [] <==> window == 0 || old(rest) == [])
      ensures r.Ready? && supply.Full? ==> |r.got| == Min(window, |old(rest)|)
      ensures r.Ready? && supply.Sparing? ==> |r.got| <= 1
      ensures shorts == old(shorts) + if r.Ready? && |r.got| < window then 1 else 0
    {
      var ready: bool := *;
      if !ready && (supply.Arbitrary? || pauses > 0) {
        pauses := if pauses > 0 then pauses - 1 else 0;
        return Waiting;
      }
      var got := Read(window);
      shorts := shorts + if |got| < window then 1 else 0;
      return Ready(got);
    }

    /** `read_exact`: as many reads as it takes. */
    method ReadExact(n: nat) returns (r: Result<Bytes>)
      modifies this
      ensures match TakeBytes(old(rest), n)
        case Good(bytes, after) => r == Ok(bytes) && rest == after
        case Bad(f) => r == Err(f) && rest == []
    {
      var bytes: Bytes := [];
      while |bytes| < n
        invariant |bytes| <= n && bytes + rest == old(rest)
        decreases n - |bytes|
      {
        var got := Read(n - |bytes|);
        if got == [] {
          return Err(UnexpectedEof);
        }
        bytes := bytes + got;
      }
      return Ok(bytes);
    }
  }

  /** What a reading method leaves behind when the bytes parse as p. */
  ghost predicate Agrees<T>(p: Parsed<T>, r: Result<T>, after: Bytes, valid: bool) {
    match p
    case Good(v, rest) => r == Ok(v) && after == rest && valid
    case Bad(f) => r == Err(f) && valid == f.UnexpectedEof?
  }

  class Reader {
    const source: Source
    const asynchronous: bool      // which of the two forms of every method is modelled
    var valid: bool
    var gotHeader: bool

    constructor (source: Source, asynchronous: bool)
      ensures this.source == source && this.asynchronous == asynchronous && valid && !gotHeader
    {
      this.source, this.asynchronous, valid, gotHeader := source, asynchronous, true, false;
    }

    /**
     `extend_from_reader` and `extend_from_reader_async`: both append exactly the missing bytes or fail at the end of
     the source; only the asynchronous form keeps what it got before failing.
     */
    method Extend(buf: Bytes, len: nat) returns (ok: bool, longer: Bytes)
      modifies source
      ensures ok <==> len <= |buf| + |old(source.rest)|
      ensures ok && len <= |buf| ==> longer == buf && source.rest == old(source.rest)
      ensures ok && len > |buf| ==> longer == buf + old(source.rest)[..len - |buf|]
      ensures ok && len > |buf| ==> source.rest == old(source.rest)[len - |buf|..]
      ensures !ok ==> source.rest == [] && longer == if asynchronous then buf + old(source.rest) else buf
    {
      longer := buf;
      if len <= |buf| {
        return true, buf;
      }
      if !asynchronous {
        var r := source.ReadExact(len - |buf|);
        if r.Err? {
          return false, buf;
        }
        return true, buf + r.value;
      }
      var spare := len - |buf|;
      while spare > 0
        invariant 0 <= spare && |longer| + spare == len
        invariant longer + source.rest == buf + old(source.rest)
        decreases spare
      {
        var got := source.Read(spare);
        if got == [] {
          assert [] + source.rest == source.rest;
          break;
        }
        longer := longer + got;
        spare := spare - |got|;
      }
      ok := spare == 0;
      assert |longer| + |source.rest| == |buf| + |old(source.rest)|;
      if !ok {
        assert longer + [] == longer;
      } else {
        assert (longer + source.rest)[|longer|..] == source.rest;
        assert (buf + old(source.rest))[len..] == old(source.rest)[len - |buf|..];
        assert (longer + source.rest)[..|longer|] == longer;
      }
    }

    method Invalidate<T>() returns (r: Result<T>)
      modifies this`valid
      ensures !valid && r == Err(InvalidData)
    {
      valid := false;
      return Err(InvalidData);
    }

    method ReadRequiredType() returns (r: Result<Byte>)
      requires valid
      modifies source
      ensures match r
        case Ok(b) => old(source.rest) != [] && b == old(source.rest)[0] && source.rest == old(source.rest)[1..]
        case Err(f) => old(source.rest) == [] && f == UnexpectedEof
    {
      var bytes := source.ReadExact(1);
      return match bytes case Ok(b) => Ok(b[0]) case Err(f) => Err(f);
    }

    method ReadU16() returns (r: Result<nat>)
      requires valid
      modifies source
      ensures Agrees(ParseU16(old(source.rest)), r, source.rest, valid)
      ensures r.Ok? ==> r.value < 0x1_0000
    {
      var bytes := source.ReadExact(2);
      return match bytes case Ok(b) => Ok(FromU16(b[0], b[1])) case Err(f) => Err(f);
    }

    method ReadPrefixed() returns (r: Result<Bytes>)
      requires valid
      modifies source
      ensures Agrees(ParsePrefixed(old(source.rest)), r, source.rest, valid)
    {
      var len := ReadU16();
      if len.Err? {
        return Err(len.failure);
      }
      ghost var before := source.rest;
      var ok, buf := Extend([], len.value);
      assert ok ==> buf == before[..len.value] && source.rest == before[len.value..];
      return if ok then Ok(buf) else Err(UnexpectedEof);
    }

    method ReadHash() returns (r: Result<SupportedHash>)
      requires valid
      modifies this`valid, source
      ensures Agrees(ParseHash(old(source.rest)), r, source.rest, valid)
    {
      var id := ReadRequiredType();
      if id.Err? {
        return Err(id.failure);
      }
      if id.value != HASH_BLAKE3 {
        r := Invalidate();
        return;
      }
      ghost var before := source.rest;
      var ok, buf := Extend([], 32);
      assert ok ==> buf == before[..32] && source.rest == before[32..];
      assert ok ==> before == old(source.rest)[1..] && before[..32] == old(source.rest)[1..33];
      return if ok then Ok(Blake3(buf)) else Err(UnexpectedEof);
    }

    method ReadTarget() returns (r: Result<EntryTarget>)
      requires valid
      modifies this`valid, source
      ensures Agrees(ParseTarget(old(source.rest)), r, source.rest, valid)
    {
      var t := ReadRequiredType();
      if t.Err? {
        return Err(t.failure);
      }
      if t.value == TYPE_DATA {
        var hash := ReadHash();
        if hash.Err? {
          return Err(hash.failure);
        }
        var flags := ReadU16();
        return match flags case Ok(f) => Ok(Data(hash.value, KnownFlags(f))) case Err(f) => Err(f);
      } else if t.value == TYPE_LINK {
        var dest := ReadPrefixed();
        if dest.Err? {
          return Err(dest.failure);
        }
        var flags := ReadU16();
        return match flags case Ok(f) => Ok(Link(dest.value, KnownFlags(f))) case Err(f) => Err(f);
      } else if t.value == TYPE_DIR {
        return Ok(Directory);
      } else {
        r := Invalidate();
      }
    }

    method ReadEntry() returns (r: Result<Entry>)
      requires valid
      modifies this`valid, source
      ensures Agrees(ParseEntry(old(source.rest)), r, source.rest, valid)
    {
      var path := ReadPrefixed();
      if path.Err? {
        return Err(path.failure);
      }
      var target := ReadTarget();
      return match target case Ok(t) => Ok(Entry(path.value, t)) case Err(f) => Err(f);
    }

    /** The bytes from which the next event is read; None if the header is not there. */
    ghost function Events(): Parsed<()>
      reads this, source
    {
      var s := source.rest;
      if gotHeader then Good((), s)
      else if |s| < 5 then Bad(UnexpectedEof)
      else if s[..5] != HEADER then Bad(InvalidData)
      else Good((), s[5..])
    }

    /**
     `next_event` and `next_event_async`. For every way the source splits its bytes, both forms read the same event,
     leave the source just behind it, and fail at the same event for the same reason. A reader that has met invalid
     data stays invalid and reads nothing more.
     */
    method NextEvent() returns (r: Result<Event>)
      modifies this, source
      ensures !old(valid) ==> r == Err(InvalidData) && !valid && source.rest == old(source.rest)
      ensures old(valid) ==> match old(Events())
        case Bad(f) => r == Err(f) && !gotHeader && valid == f.UnexpectedEof?
        case Good(_, s) => gotHeader && Agrees(ParseEvent(s), r, source.rest, valid)
    {
      if !valid {
        return Err(InvalidData);
      }
      if !gotHeader {
        var header := source.ReadExact(5);
        if header.Err? {
          return Err(header.failure);
        }
        if header.value != HEADER {
          r := Invalidate();
          return;
        }
        gotHeader := true;
      }
      var tag := source.Read(1);
      if tag == [] {
        return Ok(NoMore);
      }
      if tag[0] == ENTRY_DATA {
        return Ok(DataStarts);
      } else if tag[0] == ENTRY_ENTRY {
        var e := ReadEntry();
        return match e case Ok(v) => Ok(EntryRead(v)) case Err(f) => Err(f);
      } else {
        r := Invalidate();
      }
    }
  }

  /** How many bytes the frame that starts with s has, as far as s tells. */
  function FrameSize(s: Bytes): nat {
    if |s| < 2 then 2
    else if FromU16(s[0], s[1]) > 0 then 2 + FromU16(s[0], s[1])
    else if |s| < 3 || s[2] != HASH_BLAKE3 then 3
    else 35
  }

  datatype PollOutcome = NotReady | Delivered(bytes: Bytes) | PollFailed(failure: Failure) | Panic

  class DataReader {
    const reader: Reader
    var remaining: Bytes         // the buffer: a frame being collected, or one being handed out
    var start: nat               // the range of the buffer still to be handed out
    var end: nat
    var hash: Option<SupportedHash>

    constructor (reader: Reader)
      ensures this.reader == reader && Valid() && Chunk() == [] && Upcoming() == reader.source.rest && hash == None
    {
      this.reader, remaining, start, end, hash := reader, [], 0, 0, None;
      new;
      assert [] + reader.source.rest == reader.source.rest;
    }

    ghost predicate Valid()
      reads this
    {
      && start <= end
      && (if start < end then end == |remaining| else |remaining| <= FrameSize(remaining))
    }

    /** The part of a chunk not yet handed out. */
    ghost function Chunk(): Bytes
      reads this
      requires Valid()
    {
      if start < end then remaining[start..end] else []
    }

    /** The bytes from the next frame on, whether already in the buffer or still in the source. */
    ghost function Upcoming(): Bytes
      reads this, reader, reader.source
    {
      if start < end then reader.source.rest else remaining + reader.source.rest
    }

    /** `read_exact_internal`: an invalid reader is an error as soon as a byte is needed from it. */
    method ReadExactInternal(len: nat) returns (failure: Option<Failure>)
      requires Valid() && start == end && len <= FrameSize(remaining)
      modifies this`remaining, reader.source
      ensures Valid() && old(remaining) <= remaining
      ensures failure == None <==> len <= old(|remaining|) || (reader.valid && len <= old(|Upcoming()|))
      ensures failure == None ==>
        Upcoming() == old(Upcoming()) && |remaining| == if len <= old(|remaining|) then old(|remaining|) else len
      ensures failure.Some? ==> failure.value == if reader.valid then UnexpectedEof else InvalidData
      ensures !reader.valid ==> remaining == old(remaining) && reader.source.rest == old(reader.source.rest)
    {
      if len <= |remaining| {
        return None;
      }
      if !reader.valid {
        return Some(InvalidData);
      }
      ghost var before := Upcoming();
      var ok, longer := reader.Extend(remaining, len);
      remaining := longer;
      assert ok ==> Upcoming() == before;
      return if ok then None else Some(UnexpectedEof);
    }

    /** What a call can see of the next frame: with an invalid reader, only what is in the buffer already. */
    ghost function Ahead(): Parsed<Frame>
      reads this, reader, reader.source
    {
      if reader.valid || |remaining| >= FrameSize(remaining) then ParseFrame(Upcoming()) else Bad(InvalidData)
    }

    /** The first branch of `read`: hands out part of the chunk. */
    method HandOut(n: nat) returns (bytes: Bytes)
      requires Valid() && start < end
      modifies this`remaining, this`start
      ensures Valid() && bytes == old(Chunk())[..Min(n, |old(Chunk())|)] && Chunk() == old(Chunk())[|bytes|..]
      ensures Upcoming() == old(Upcoming())
    {
      var toCopy := Min(n, end - start);
      bytes := remaining[start..start + toCopy];
      start := start + toCopy;
      if start == end {
        remaining := [];
        assert [] + reader.source.rest == reader.source.rest;
      }
    }

    /** A complete chunk is in the buffer. */
    method Present(len: nat)
      requires Valid() && start == end && len > 0
      requires |remaining| == 2 + len && FromU16(remaining[0], remaining[1]) == len
      modifies this`start, this`end
      ensures Valid() && start < end && Upcoming() == reader.source.rest
      ensures ParseFrame(old(Upcoming())) == Good(ArchiveParser.Chunk(Chunk()), reader.source.rest)
    {
      ghost var s := Upcoming();
      start, end := 2, 2 + len;
      assert s[2..] == remaining[2..] + reader.source.rest;
      assert s[2..][..len] == remaining[2..] == remaining[2..2 + len] && s[2..][len..] == reader.source.rest;
    }

    /** The buffer holds a terminator and a complete hash. */
    lemma Terminated()
      requires Valid() && start == end && |remaining| == 35
      requires FromU16(remaining[0], remaining[1]) == 0 && remaining[2] == HASH_BLAKE3
      ensures ParseFrame(Upcoming()) == Good(EndOfBlob(Blake3(remaining[3..35])), reader.source.rest)
    {
      var s := Upcoming();
      assert s[2..] == remaining[2..] + reader.source.rest;
      assert s[2..][1..33] == remaining[3..35] && s[2..][33..] == reader.source.rest;
    }

    /** What one call hands out when a frame with this parse comes next. */
    ghost predicate FrameHandled(p: Parsed<Frame>, n: nat, bytes: Bytes)
      reads this, reader, reader.source
      requires Valid() && p.Good?
    {
      match p.value
      case Chunk(c) =>
        && bytes == c[..Min(n, |c|)] && Chunk() == c[|bytes|..] && Upcoming() == p.rest
      case EndOfBlob(h) =>
        && bytes == [] && Chunk() == [] && hash == Some(h) && reader.source.rest == p.rest
    }

    /**
     `read`. A call hands out the next bytes of the current chunk, or goes on to the next frame; at the end of the blob
     it makes the hash known, leaves the source just behind it, and changes nothing when called again.
     */
    method Read(n: nat) returns (r: Result<Bytes>)
      requires Valid()
      modifies this, reader`valid, reader.source
      ensures Valid()
      ensures n == 0 ==>
        && r == Ok([]) && Chunk() == old(Chunk()) && Upcoming() == old(Upcoming()) && hash == old(hash)
        && reader.valid == old(reader.valid) && reader.source.rest == old(reader.source.rest)
      ensures n > 0 && old(Chunk()) != [] ==>
        && r == Ok(old(Chunk())[..Min(n, |old(Chunk())|)]) && Chunk() == old(Chunk())[|r.value|..]
        && Upcoming() == old(Upcoming()) && hash == old(hash) && reader.valid == old(reader.valid)
      ensures n > 0 && old(Chunk()) == [] ==>
        var p := old(Ahead());
        && (p.Good? ==> r.Ok? && FrameHandled(p, n, r.value) && reader.valid == old(reader.valid))
        && (p.Good? && p.value.EndOfBlob? ==> Upcoming() == old(Upcoming()))
        && (p.Good? && p.value.Chunk? ==> hash == old(hash))
        && (p.Bad? ==> r == Err(p.failure) && reader.valid == (old(reader.valid) && p.failure.UnexpectedEof?))
      ensures !old(reader.valid) ==> reader.source.rest == old(reader.source.rest)
      ensures !old(reader.valid) && r.Err? ==> remaining == old(remaining) && Chunk() == old(Chunk()) && hash == old(hash)
      decreases if start < end then 0 else 1
    {
      hide ParseFrame;
      if n == 0 {
        return Ok([]);
      }
      if start < end {
        var bytes := HandOut(n);
        return Ok(bytes);
      }
      var done := ReadFrame();
      if done.Some? {
        return done.value;
      }
      r := Read(n);
    }

    /** `read` with an empty range, up to where it calls itself: then a chunk is in the buffer. */
    method ReadFrame() returns (r: Option<Result<Bytes>>)
      requires Valid() && start == end
      modifies this, reader`valid, reader.source
      ensures Valid()
      ensures match r
        case None =>
          && start < end && Chunk() != [] && hash == old(hash) && reader.valid == old(reader.valid)
          && old(Ahead()) == Good(ArchiveParser.Chunk(Chunk()), Upcoming())
        case Some(Ok(bytes)) =>
          && bytes == [] && Chunk() == [] && hash.Some? && reader.valid == old(reader.valid) && Upcoming() == old(Upcoming())
          && old(Ahead()) == Good(EndOfBlob(hash.value), reader.source.rest)
        case Some(Err(f)) =>
          && old(Ahead()) == Bad(f) && reader.valid == (old(reader.valid) && f.UnexpectedEof?)
          && hash == old(hash) && start == end && (!old(reader.valid) ==> remaining == old(remaining))
      ensures !old(reader.valid) ==> reader.source.rest == old(reader.source.rest)
    {
      ghost var s := Upcoming();
      var failure := ReadExactInternal(2);
      if failure.Some? {
        return Some(Err(failure.value));
      }
      assert s[0] == remaining[0] && s[1] == remaining[1];
      var len := FromU16(remaining[0], remaining[1]);
      if len == 0 {
        var ended := ReadTerminator();
        return Some(ended);
      }
      failure := ReadExactInternal(2 + len);
      if failure.Some? {
        return Some(Err(failure.value));
      }
      Present(len);
      return None;
    }

    /** The part of `read` behind a zero length. */
    method ReadTerminator() returns (r: Result<Bytes>)
      requires Valid() && start == end && |remaining| >= 2 && FromU16(remaining[0], remaining[1]) == 0
      modifies this, reader`valid, reader.source
      ensures Valid() && start == end
      ensures match r
        case Ok(bytes) =>
          && bytes == [] && hash.Some? && reader.valid == old(reader.valid) && Upcoming() == old(Upcoming())
          && old(Ahead()) == Good(EndOfBlob(hash.value), reader.source.rest)
        case Err(f) =>
          && old(Ahead()) == Bad(f) && reader.valid == (old(reader.valid) && f.UnexpectedEof?)
          && hash == old(hash) && (!old(reader.valid) ==> remaining == old(remaining))
      ensures !old(reader.valid) ==> reader.source.rest == old(reader.source.rest)
    {
      ghost var s := Upcoming();
      var failure := ReadExactInternal(3);
      if failure.Some? {
        return Err(failure.value);
      }
      assert s[0] == remaining[0] && s[1] == remaining[1] && s[2] == remaining[2] == s[2..][0];
      if remaining[2] != HASH_BLAKE3 {
        r := reader.Invalidate();
        return;
      }
      failure := ReadExactInternal(35);
      if failure.Some? {
        return Err(failure.value);
      }
      hash := Some(Blake3(remaining[3..35]));
      Terminated();
      return Ok([]);
    }

    /** What is left to hand out before the blob ends or fails. */
    ghost function ToCome(): BlobRead
      reads this, reader, reader.source
      requires Valid()
    {
      var b := ParseBlob(Upcoming());
      BlobRead(Chunk() + b.payload, b.end)
    }

    /** The terminator and the hash are in the buffer, and the source is just behind them. */
    ghost predicate AtEnd()
      reads this, reader, reader.source
    {
      && Valid() && Chunk() == [] && hash.Some?
      && ParseFrame(Upcoming()) == Good(EndOfBlob(hash.value), reader.source.rest)
    }

    lemma EndReached()
      requires AtEnd()
      ensures ToCome() == BlobRead([], Good(hash.value, reader.source.rest))
    {
    }

    /** One call with room in the buffer, as a step towards the end of the blob. */
    method ReadSome() returns (r: Result<Bytes>)
      requires Valid() && reader.valid
      modifies this, reader`valid, reader.source
      ensures Valid()
      ensures r.Ok? ==> reader.valid && old(ToCome()) == BlobRead(r.value + ToCome().payload, ToCome().end)
      ensures r.Ok? && r.value == [] ==> AtEnd() && ToCome().payload == []
      ensures r.Ok? && r.value != [] ==> |Upcoming()| + |Chunk()| < old(|Upcoming()| + |Chunk()|)
      ensures r.Err? ==> old(ToCome()) == BlobRead([], Bad(r.failure)) && reader.valid == r.failure.UnexpectedEof?
    {
      var n: nat :| n > 0;
      ghost var chunk, upcoming := Chunk(), Upcoming();
      r := Read(n);
      if chunk != [] {
        Rejoin(chunk, |r.value|, ParseBlob(upcoming).payload);
      } else if r.Ok? {
        var p := ParseFrame(upcoming);
        if p.value.Chunk? {
          Rejoin(p.value.bytes, |r.value|, ParseBlob(p.rest).payload);
        }
      }
    }

    lemma Rejoin(c: Bytes, n: nat, tail: Bytes)
      requires n <= |c|
      ensures c + tail == c[..n] + (c[n..] + tail) && [] + (c + tail) == c + tail
    {
    }

    /**
     Reading to the end with buffers of any sizes: the chunks come out as one payload in order, the hash is known and
     the source is left just behind it.
     */
    method ReadToEnd() returns (payload: Bytes, failure: Option<Failure>)
      requires Valid() && reader.valid
      modifies this, reader`valid, reader.source
      ensures Valid() && payload == old(ToCome()).payload
      ensures match old(ToCome()).end
        case Good(h, rest) => failure == None && AtEnd() && hash == Some(h) && reader.source.rest == rest && reader.valid
        case Bad(f) => failure == Some(f) && reader.valid == f.UnexpectedEof?
    {
      ghost var whole := ToCome();
      payload := [];
      var more := true;
      while more
        invariant Valid() && reader.valid && payload + ToCome().payload == whole.payload && ToCome().end == whole.end
        invariant !more ==> AtEnd() && ToCome().payload == []
        decreases more, |Upcoming()| + |Chunk()|
      {
        ghost var before := ToCome();
        var r := ReadSome();
        if r.Err? {
          assert payload + [] == payload;
          return payload, Some(r.failure);
        }
        Associates(payload, r.value, ToCome().payload, []);
        payload := payload + r.value;
        more := r.value != [];
      }
      assert payload + [] == payload;
      return payload, None;
    }

    /** Behind the end of a blob every further call, with buffers of any sizes, gives nothing and consumes nothing. */
    method ReadPastEnd(sizes: seq<nat>) returns (out: seq<Result<Bytes>>)
      requires AtEnd()
      modifies this, reader`valid, reader.source
      ensures |out| == |sizes| && forall o :: o in out ==> o == Ok([])
      ensures AtEnd() && reader.valid == old(reader.valid)
      ensures reader.source.rest == old(reader.source.rest) && hash == old(hash)
    {
      out := [];
      for i := 0 to |sizes|
        invariant |out| == i && forall o :: o in out ==> o == Ok([])
        invariant AtEnd() && reader.valid == old(reader.valid)
        invariant reader.source.rest == old(reader.source.rest) && hash == old(hash)
      {
        var r := Read(sizes[i]);
        out := out + [r];
      }
    }

    // ----- the poll form -----

    /** The range promises bytes the buffer does not have. */
    ghost predicate Torn()
      reads this
    {
      2 <= start < end && start <= |remaining| < end
    }

    /** With a valid reader the windows are filled exactly if no ready poll since was short; there has been one at most. */
    ghost predicate Shorts(valid: bool, filled: bool, before: nat)
      reads reader.source
    {
      valid ==> reader.source.shorts == before + if filled then 0 else 1
    }

    /**
     `poll_read_exact` through `poll_extend_from_reader`: one poll of the source, whatever it brings. A short or empty
     answer is Ready all the same, and the caller does not look at the error.
     */
    method PollExact(len: nat) returns (waiting: bool, ghost filled: bool)
      requires Valid() && start == end && len <= FrameSize(remaining)
      modifies this`remaining, reader.source
      ensures Valid() && Upcoming() == old(Upcoming()) && old(remaining) <= remaining
      ensures waiting ==> filled
      ensures Shorts(old(reader.valid), filled, old(reader.source.shorts))
      ensures !reader.valid ==> !waiting && remaining == old(remaining) && reader.source.rest == old(reader.source.rest)
      ensures !waiting && filled ==> |remaining| == if len <= old(|remaining|) then old(|remaining|) else len
      ensures !filled ==> |remaining| < len
      ensures |remaining| <= if len <= old(|remaining|) then old(|remaining|) else len
      ensures reader.source.pauses <= old(reader.source.pauses)
      ensures waiting && !reader.source.supply.Arbitrary? ==> reader.source.pauses < old(reader.source.pauses)
      ensures reader.source.supply.Full? && reader.valid && len <= old(|Upcoming()|) ==> filled
      ensures reader.source.supply.Sparing? && !waiting ==> |remaining| <= old(|remaining|) + 1
    {
      filled := true;
      if len <= |remaining| {
        return false, true;
      }
      if !reader.valid {
        return false, false;
      }
      var window := len - |remaining|;
      var p := reader.source.PollRead(window);
      if p.Waiting? {
        return true, true;
      }
      Associates(remaining, p.got, reader.source.rest, []);
      remaining := remaining + p.got;
      return false, |p.got| == window;
    }

    /** The part of `poll_read` behind a zero length. */
    method PollTerminator() returns (o: PollOutcome, ghost filled: bool)
      requires Valid() && start == end && |remaining| >= 2 && FromU16(remaining[0], remaining[1]) == 0
      modifies this, reader`valid, reader.source
      ensures Valid() && start == end && Upcoming() == old(Upcoming())
      ensures filled <==> !o.Panic?
      ensures Shorts(old(reader.valid), filled, old(reader.source.shorts))
      ensures !old(reader.valid) ==> reader.source.rest == old(reader.source.rest)
      ensures !old(reader.valid) ==> (filled <==> old(Chunk()) != [] || old(|remaining| >= FrameSize(remaining)))
      ensures reader.source.supply.Full? && old(reader.valid) && ParseFrame(old(Upcoming())) != Bad(UnexpectedEof) ==> filled
      ensures reader.source.pauses <= old(reader.source.pauses)
      ensures o.NotReady? && !reader.source.supply.Arbitrary? ==> reader.source.pauses < old(reader.source.pauses)
      ensures match o
        case NotReady => hash == old(hash) && reader.valid == old(reader.valid)
        case Delivered(bytes) => bytes == [] && hash.Some? && reader.valid == old(reader.valid)
          && ParseFrame(Upcoming()) == Good(EndOfBlob(hash.value), reader.source.rest)
        case PollFailed(f) => f == InvalidData && ParseFrame(Upcoming()) == Bad(InvalidData)
        case Panic => true
    {
      ghost var s := Upcoming();
      var waiting;
      waiting, filled := PollExact(3);
      if waiting {
        return NotReady, true;
      }
      if |remaining| < 3 {
        return Panic, false;
      }
      assert s[0] == remaining[0] && s[1] == remaining[1] && s[2] == remaining[2] == s[2..][0];
      if remaining[2] != HASH_BLAKE3 {
        reader.valid := false;
        return PollFailed(InvalidData), true;
      }
      waiting, filled := PollExact(35);
      if waiting {
        return NotReady, true;
      }
      if |remaining| < 35 {
        return Panic, false;
      }
      hash := Some(Blake3(remaining[3..35]));
      Terminated();
      return Delivered([]), true;
    }

    /**
     `poll_read`. As long as every ready poll fills its window it is `read` with pauses: a pause changes nothing, and a
     result is that of `read`. If some ready poll was short, the call panics or leaves a range beyond the buffer, and
     from there every call hands out less than the range promises or panics.
     */
    method PollRead(n: nat) returns (o: PollOutcome, ghost filled: bool)
      requires Valid() || Torn()
      modifies this, reader`valid, reader.source
      ensures filled ==> old(Valid()) && Valid() && !o.Panic?
      ensures !filled ==> o.Panic? || Torn()
      ensures old(Valid()) ==> Shorts(old(reader.valid), filled, old(reader.source.shorts))
      ensures old(Valid()) && !old(reader.valid) ==> reader.source.rest == old(reader.source.rest)
      ensures old(Valid()) && !old(reader.valid) ==>
        (filled <==> n == 0 || old(Chunk()) != [] || old(|remaining| >= FrameSize(remaining)))
      ensures old(Torn()) ==> !filled && (n > 0 && !o.Panic? ==> start > old(start) && remaining == old(remaining))
      ensures old(Valid()) && n == 0 ==>
        o == Delivered([]) && filled && Chunk() == old(Chunk()) && Upcoming() == old(Upcoming())
      ensures old(Valid()) && n > 0 && old(Chunk()) != [] ==>
        && filled && Upcoming() == old(Upcoming()) && hash == old(hash) && reader.valid == old(reader.valid)
        && o == Delivered(old(Chunk())[..Min(n, |old(Chunk())|)]) && Chunk() == old(Chunk())[|o.bytes|..]
      ensures old(Valid()) && n > 0 && old(Chunk()) == [] && filled ==>
        var p := ParseFrame(old(Upcoming()));
        match o
        case NotReady =>
          Chunk() == [] && Upcoming() == old(Upcoming()) && hash == old(hash) && reader.valid == old(reader.valid)
        case Delivered(bytes) => p.Good? && FrameHandled(p, n, bytes) && reader.valid == old(reader.valid)
          && (p.value.EndOfBlob? ==> Upcoming() == old(Upcoming()))
        case PollFailed(f) => p == Bad(f) && f == InvalidData
        case Panic => false
      ensures old(Valid() && reader.valid && Chunk() == []) && reader.source.supply.Full? && n > 0 ==>
        filled || ParseFrame(old(Upcoming())) == Bad(UnexpectedEof)
      ensures reader.source.pauses <= old(reader.source.pauses)
      ensures o.NotReady? && !reader.source.supply.Arbitrary? ==> reader.source.pauses < old(reader.source.pauses)
      ensures old(Valid() && Chunk() == [] && remaining == []) && reader.source.supply.Sparing? && n > 0 && !o.NotReady? ==>
        o.Panic?
      decreases if start < end then 0 else 1
    {
      hide ParseFrame;
      if start < end && |remaining| < end {
        o := PollTorn(n);
        return o, false;
      }
      if n == 0 {
        return Delivered([]), true;
      }
      if start < end {
        var bytes := HandOut(n);
        return Delivered(bytes), true;
      }
      var next;
      next, filled := PollFrame();
      if next.Some? {
        return next.value, filled;
      }
      if |remaining| < end {
        o := PollTorn(n);
        return o, false;
      }
      o, filled := PollRead(n);
    }

    /** `poll_read` with an empty range, up to where it calls itself: then a chunk, or less than one, is in the buffer. */
    method PollFrame() returns (o: Option<PollOutcome>, ghost filled: bool)
      requires Valid() && start == end
      modifies this, reader`valid, reader.source
      ensures filled ==> Valid() && o != Some(Panic)
      ensures !filled ==> o == Some(Panic) || (o == None && Torn())
      ensures Shorts(old(reader.valid), filled, old(reader.source.shorts))
      ensures !old(reader.valid) ==> reader.source.rest == old(reader.source.rest)
      ensures !old(reader.valid) ==> (filled <==> old(|remaining| >= FrameSize(remaining)))
      ensures filled ==> match o
        case Some(NotReady) =>
          Chunk() == [] && Upcoming() == old(Upcoming()) && hash == old(hash) && reader.valid == old(reader.valid)
        case Some(Delivered(bytes)) =>
          && bytes == [] && Chunk() == [] && hash.Some? && reader.valid == old(reader.valid) && Upcoming() == old(Upcoming())
          && ParseFrame(old(Upcoming())) == Good(EndOfBlob(hash.value), reader.source.rest)
        case Some(PollFailed(f)) => f == InvalidData && ParseFrame(old(Upcoming())) == Bad(f)
        case Some(Panic) => false
        case None =>
          && start < end && Chunk() != [] && hash == old(hash) && reader.valid == old(reader.valid)
          && ParseFrame(old(Upcoming())) == Good(ArchiveParser.Chunk(Chunk()), Upcoming())
      ensures old(reader.valid) && reader.source.supply.Full? ==> filled || ParseFrame(old(Upcoming())) == Bad(UnexpectedEof)
      ensures reader.source.pauses <= old(reader.source.pauses)
      ensures o == Some(NotReady) && !reader.source.supply.Arbitrary? ==> reader.source.pauses < old(reader.source.pauses)
      ensures old(remaining) == [] && reader.source.supply.Sparing? && o != Some(NotReady) ==> o == Some(Panic)
    {
      ghost var s := Upcoming();
      var waiting;
      waiting, filled := PollExact(2);
      if waiting {
        return Some(NotReady), true;
      }
      if |remaining| < 2 {
        return Some(Panic), false;
      }
      assert s[0] == remaining[0] && s[1] == remaining[1];
      var len := FromU16(remaining[0], remaining[1]);
      if len == 0 {
        var ended;
        ended, filled := PollTerminator();
        return Some(ended), filled;
      }
      waiting, filled := PollExact(2 + len);
      if waiting {
        return Some(NotReady), true;
      }
      if |remaining| < 2 + len {
        start, end := 2, 2 + len;
        return None, false;
      }
      Present(len);
      return None, true;
    }

    /** The first branch of `poll_read` when the range goes beyond the buffer: slicing panics, now or in a later call. */
    method PollTorn(n: nat) returns (o: PollOutcome)
      requires Torn()
      modifies this`start
      ensures o.Panic? <==> old(start) + Min(n, end - old(start)) > |remaining|
      ensures !o.Panic? ==> o.Delivered? && |o.bytes| == Min(n, end - old(start))
      ensures !o.Panic? ==> Torn() && (n > 0 ==> start > old(start))
    {
      var toCopy := Min(n, end - start);
      if start + toCopy > |remaining| {
        return Panic;
      }
      o := Delivered(remaining[start..start + toCopy]);
      start := start + toCopy;
    }

    /** One poll with room in the buffer, as a step towards the end of the blob. */
    method PollSome() returns (o: PollOutcome, ghost filled: bool)
      requires Valid()
      modifies this, reader`valid, reader.source
      ensures filled ==> Valid() && !o.Panic?
      ensures !filled ==> o.Panic? || Torn()
      ensures Shorts(old(reader.valid), filled, old(reader.source.shorts))
      ensures filled ==> match o
        case NotReady => ToCome() == old(ToCome()) && |Upcoming()| + |Chunk()| == old(|Upcoming()| + |Chunk()|)
          && reader.valid == old(reader.valid)
        case Delivered(bytes) =>
          && old(ToCome()) == BlobRead(bytes + ToCome().payload, ToCome().end) && reader.valid == old(reader.valid)
          && (if bytes == [] then AtEnd() && ToCome().payload == []
              else |Upcoming()| + |Chunk()| < old(|Upcoming()| + |Chunk()|))
        case PollFailed(f) => old(ToCome()) == BlobRead([], Bad(f)) && f == InvalidData
        case Panic => false
      ensures reader.source.supply.Full? && old(reader.valid) && old(ToCome()).end != Bad(UnexpectedEof) ==> filled
      ensures reader.source.pauses <= old(reader.source.pauses)
      ensures o.NotReady? && !reader.source.supply.Arbitrary? ==> reader.source.pauses < old(reader.source.pauses)
    {
      hide ParseFrame;
      var n: nat :| n > 0;
      ghost var chunk, upcoming := Chunk(), Upcoming();
      o, filled := PollRead(n);
      if filled && o.Delivered? {
        var p := ParseFrame(upcoming);
        if chunk != [] {
          Rejoin(chunk, |o.bytes|, ParseBlob(upcoming).payload);
        } else if p.value.Chunk? {
          Rejoin(p.value.bytes, |o.bytes|, ParseBlob(p.rest).payload);
        }
      }
    }

    /** The same, polling on to the panic when a ready poll was short. */
    method PollOn() returns (o: PollOutcome)
      requires Valid()
      modifies this, reader`valid, reader.source
      ensures o.Panic? || Valid()
      ensures Shorts(old(reader.valid), !o.Panic?, old(reader.source.shorts))
      ensures match o
        case NotReady => ToCome() == old(ToCome()) && |Upcoming()| + |Chunk()| == old(|Upcoming()| + |Chunk()|)
          && reader.valid == old(reader.valid)
        case Delivered(bytes) =>
          && old(ToCome()) == BlobRead(bytes + ToCome().payload, ToCome().end) && reader.valid == old(reader.valid)
          && (if bytes == [] then AtEnd() && ToCome().payload == []
              else |Upcoming()| + |Chunk()| < old(|Upcoming()| + |Chunk()|))
        case PollFailed(f) => old(ToCome()) == BlobRead([], Bad(f)) && f == InvalidData
        case Panic => true
      ensures reader.source.supply.Full? && old(reader.valid) && old(ToCome()).end != Bad(UnexpectedEof) ==> !o.Panic?
      ensures reader.source.pauses <= old(reader.source.pauses)
      ensures o.NotReady? && !reader.source.supply.Arbitrary? ==> reader.source.pauses < old(reader.source.pauses)
    {
      hide ParseBlob, ParseFrame;
      ghost var filled;
      o, filled := PollSome();
      if !o.Panic? && start < end && |remaining| < end {
        o := PollTornToPanic();
      }
    }

    /**
     The poll form with pauses anywhere, for a caller that polls until it is given nothing. It gets there only if every
     ready poll filled its window, and then has exactly the payload and the hash, with the source just behind it. Over a
     source that gives all there is room for, every blob that is whole gets there, one with an unknown hash type fails,
     and one that is cut off panics.
     */
    method PollToEnd() returns (payload: Bytes, how: Ended)
      requires Valid() && reader.valid
      modifies this, reader`valid, reader.source
      ensures how == Complete ==> match old(ToCome()).end
        case Good(h, rest) => payload == old(ToCome()).payload && AtEnd() && hash == Some(h) && reader.source.rest == rest
        case Bad(_) => false
      ensures how == Panicked <==> reader.source.shorts != old(reader.source.shorts)
      ensures how == Corrupt ==> old(ToCome()) == BlobRead(payload, Bad(InvalidData))
      ensures how == GaveUp ==> payload <= old(ToCome()).payload && reader.source.supply.Arbitrary?
      ensures reader.source.supply.Full? ==> how == match old(ToCome()).end
        case Good(_, _) => Complete
        case Bad(InvalidData) => Corrupt
        case Bad(UnexpectedEof) => Panicked
    {
      hide ParseBlob, ParseFrame;
      ghost var whole := ToCome();
      payload := [];
      var patience: nat :| true;
      assert [] + whole.payload == whole.payload;
      while true
        invariant Valid() && reader.valid && reader.source.shorts == old(reader.source.shorts)
        invariant payload + ToCome().payload == whole.payload && ToCome().end == whole.end
        decreases |Upcoming()| + |Chunk()|, if reader.source.supply.Arbitrary? then patience else reader.source.pauses
      {
        var o := PollOn();
        match o {
          case Panic => return payload, Panicked;
          case PollFailed(_) =>
            assert payload + [] == payload;
            return payload, Corrupt;
          case NotReady =>
            if reader.source.supply.Arbitrary? {
              if patience == 0 {
                return payload, GaveUp;
              }
              patience := patience - 1;
            }
          case Delivered(bytes) =>
            Associates(payload, bytes, ToCome().payload, []);
            payload := payload + bytes;
            if bytes == [] {
              EndReached();
              assert payload + [] == payload;
              return payload, Complete;
            }
        }
      }
    }

    /** With a range beyond the buffer, polling on ends in a panic. */
    method PollTornToPanic() returns (o: PollOutcome)
      requires Torn()
      modifies this`start
      ensures o.Panic?
    {
      while true
        invariant Torn()
        decreases end - start
      {
        var n: nat :| n > 0;
        o := PollTorn(n);
        if o.Panic? {
          return;
        }
      }
    }
  }

  /** How polling a blob to its end can end. */
  datatype Ended = Complete | GaveUp | Corrupt | Panicked

  /** A blob of one byte. */
  function OneByteBlob(h: HashFunction): Bytes { Prefixed([7]) + Trailer(Blake3(h([7]))) }

  lemma OneByteIsWhole(h: HashFunction)
    ensures ParseBlob(OneByteBlob(h)) == BlobRead([7], Good(Blake3(h([7])), []))
  {
    hide ParseBlob, Trailer, Prefixed;
    var tail := Trailer(Blake3(h([7])));
    BlobRoundTrip([[7]], Blake3(h([7])), []);
    assert [[7]][1..] == [];
    assert EncodeFrames([[7]]) == Prefixed([7]) + [] == Prefixed([7]) && Flatten([[7]]) == [7] + [];
    assert Prefixed([7]) + tail + [] == OneByteBlob(h);
  }

  /** A blob of one byte, whole, from a source that gives a byte at a time: the first poll panics. */
  method ShortPollPanics(h: HashFunction, n: nat) returns (o: PollOutcome)
    requires n > 0
    ensures o.Panic? && ParseBlob(OneByteBlob(h)) == BlobRead([7], Good(Blake3(h([7])), []))
  {
    hide ParseBlob, ParseFrame, OneByteBlob;
    OneByteIsWhole(h);
    var source := new Source(OneByteBlob(h), Sparing, 0);
    var reader := new Reader(source, true);
    var d := new DataReader(reader);
    ghost var filled;
    o, filled := d.PollRead(n);
  }

  /** What is left to see of an archive. */
  ghost function ToRead(reader: Reader): Reading
    reads reader, reader.source
  {
    match reader.Events()
    case Bad(f) => Reading([], Stopped(f))
    case Good(_, s) => ParseItems(s)
  }

  datatype Look = More(seen: Seen) | Last(seenLast: seq<Seen>, stop: Stop)

  /** The next event, and if it starts a blob the blob to its end. */
  method NextSeen(reader: Reader) returns (l: Look)
    requires reader.valid
    modifies reader, reader.source
    ensures match l
      case Last(last, stop) => old(ToRead(reader)) == Reading(last, stop)
      case More(seen) =>
        && old(ToRead(reader)) == Reading([seen] + ToRead(reader).seen, ToRead(reader).stop)
        && reader.valid && |reader.source.rest| < |old(reader.source.rest)|
  {
    hide ParseFrame, ParseEntry, EncodeItem;
    ghost var start := reader.Events();
    var e := reader.NextEvent();
    if e.Err? {
      return Last([], Stopped(e.failure));
    }
    EventShrinks(start.rest);
    match e.value {
      case NoMore => return Last([], AtEnd);
      case EntryRead(entry) => return More(SeenEntry(entry));
      case DataStarts =>
        var d := new DataReader(reader);
        ghost var s := reader.source.rest;
        assert d.ToCome().payload == ParseBlob(s).payload;
        var payload, failure := d.ReadToEnd();
        if failure.Some? {
          return Last([SeenPart(payload)], Stopped(failure.value));
        }
        return More(SeenBlob(payload, d.hash.value));
    }
  }

  /** A caller that reads events, and every blob to its end, until None or an error sees what the parser says. */
  method ReadAll(reader: Reader) returns (seen: seq<Seen>, stop: Stop)
    requires reader.valid
    modifies reader, reader.source
    ensures Reading(seen, stop) == old(ToRead(reader))
    ensures !old(reader.gotHeader) ==> Reading(seen, stop) == ParseArchive(old(reader.source.rest))
  {
    ghost var whole := ToRead(reader);
    seen := [];
    assert [] + whole.seen == whole.seen;
    while true
      invariant reader.valid && Reading(seen + ToRead(reader).seen, ToRead(reader).stop) == whole
      decreases |reader.source.rest|
    {
      ghost var before := ToRead(reader).seen;
      var l := NextSeen(reader);
      if l.Last? {
        return seen + l.seenLast, l.stop;
      }
      assert seen + before == (seen + [l.seen]) + ToRead(reader).seen;
      seen := seen + [l.seen];
    }
  }
}
