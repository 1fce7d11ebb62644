# Verified models of nck

nck is a package store: archives of files, hashes that name them, a daemon that locks what builds need. This project
models the parts of it whose correctness spans many calls, threads or bytes, and proves what they promise.

**The lock-free pool** (`crates/io/src/pool.rs`). `PoolMachine` is a transition system with any number of threads: one
transition is one compare-and-swap, one access to a cell, one access to `CURRENT_SIZE`, or a caller growing a buffer it
holds. The destroy loop of `Drop` is one more thread, racing with the others. About every interleaving it is proved
that each slot in use has one owner and no uninitialised cell is read (`PoolOwnership`), that each value is in exactly
one place (`PoolConservation`), that the pool is, step for step, an atomic bag of bounded size (`PoolBag`), that the
destroy loop is safe (`PoolDestroy`), that the size counter is exact and within a soft limit (`PoolLedger`) which n
threads really attain (`PoolSoftLimit`), that it drifts (`PoolDrift`), that operations are wait-free, and exactly when
the wrapping probe sequence reaches every slot (`PoolProbe`). `PoolObject` is the same code as loops over arrays; each call is proved to have its
sequential meaning and to be a run of the transition system (`PoolSolo`). `PooledItem` models the handles that return
values when they are dropped; `PoolConstants` is `BUFFER_POOL` in numbers.

**The NCK archive format** (`crates/archive`). `ArchiveFormat` is what an archive is meant to contain and
`ArchiveParser` a parser on byte strings, with the round trip between them; `ArchiveTruncation` says what a reader sees
of an archive that is cut off. `ArchiveWriter` and `ArchiveReader` are the stateful code, over sinks that write short,
stall, fail and buffer and sources that deliver bytes in pieces of any size, and are proved against the encoder and the parser; `ArchiveRoundTrip` puts the two ends together.
`ArchiveWire` has the bytes one by one.
A hash is a function of all the bytes a hasher has absorbed. MAX_LENGTH is a parameter between 1 and 65535.

**Stable hashing** (`crates/hashing`). `StableEncoding` has a universe of the hashed types and their values, what each
feeds into a hasher, and the proof that no encoding of a type is the beginning of another. `StableBytes` has the bytes.

**Archive creation** (`crates/cli/src/archive/create.rs`). `Pipeline` is the breadth-first walker and the writer task
with their two channels, over a finite tree, every interleaving and every failure included; `PipelineBreadth` says in which
order things come out, and `PipelineArchive` follows them through the output buffer.

**Store locks** (`crates/daemon/src/store.rs`, `crates/daemon/src/frontend/build.rs`). `StoreMachine` interleaves any
number of requests, one increment or decrement of the lock map at a time; `StoreLocks` is about the locks and
`StoreRequests` about what requests achieve. `StoreObject` is the code with its guards as
objects.

**Replacing a file** (`crates/io/src/fs.rs`). `ReplaceFallback` is the multi-step replace over a file system whose
renames are atomic and refuse existing targets.

## What the proofs found

- A search of CAPACITY probes reaches every slot if and only if CAPACITY divides 2^64 or the offset does not wrap
  (`PoolProbe.CoverageExact`). With three slots and the offset 2^64 - 1 slot 2 is never probed.
- A buffer that the return hook has counted and that is then dropped, for want of a slot or because the pool is
  destroyed, is never subtracted again (`PoolLedger.DriftStep`, `PoolLedger.DriftIsForever`). `BUFFER_POOL` can get into a
  state in which it is empty, nobody is doing anything, and every buffer but those of capacity 0 is refused (`PoolDrift.BufferPoolDrifts`).
- The archive command never flushes the `BufWriter` around its output, and dropping one discards its contents. No
  successful run leaves a complete archive behind, and the archive of an empty directory is a file of no bytes
  (`PipelineArchive.CreateArchive`, `PipelineArchive.EmptyDirectoryLost`).
- `MB` in pool.rs is 131072, so the limits are 16 MiB in all and 2 MiB for one buffer.
- `write_entry` checks lengths as it goes. A refused entry leaves its tag, or its tag, path and link type, in the archive
  (`ArchiveWriter.Writer.WriteEntry`).
- `finish` writes the terminator even if a frame is unfinished. What it makes then never reads as the payload with its
  hash, and if nothing of the frame had gone out it reads as a complete blob without it
  (`ArchiveWriter.DataWriter.FinishExact`, `ArchiveWriter.DataWriter.FinishLosesFrame`).
- `poll_read` looks at no error of `poll_read_exact`, and a ready poll may be short: the call then panics or promises
  bytes the buffer does not have (`ArchiveReader.DataReader.PollRead`, `ArchiveReader.ShortPollPanics`). A blob that is cut
  off makes it panic even if every poll gives all there is (`ArchiveReader.DataReader.PollToEnd`).
- Unknown flag bits do not survive an archive; an entry comes back unchanged exactly when it has none
  (`ArchiveParser.ReadBackExact`).
- An archive cut off where an item ends reads as a complete shorter one; a cut anywhere else is noticed
  (`ArchiveTruncation.TruncatedArchive`).

## Model

| member | source | states |
|---|---|---|
| PoolOwnership.EveryRunOwned | crates/io/src/pool.rs:83-218 | in every interleaving of any number of threads the ownership discipline holds: no two threads on one slot, unowned slots at rest, cells initialised exactly where the states say |
| PoolOwnership.ExclusiveAccess | crates/io/src/pool.rs:89-217 | each WRITING slot has exactly one thread, inside a return, and each TAKING slot exactly one, inside a take; cells are written only when uninitialised and read only when initialised |
| PoolOwnership.StepKeepsOwned | crates/io/src/pool.rs:89-217 | the discipline through any one transition |
| PoolConservation.ExactlyOnePlace | crates/io/src/pool.rs:89-217 | every value ever created is in exactly one cell, one thread's hands, a caller's hands, or dropped; no destructor runs twice; nothing else is anywhere |
| PoolConservation.EveryRunConserves | crates/io/src/pool.rs:89-217 | the number of occurrences of every value is one from its creation on, in every run |
| PoolBag.PoolRefinesBag | crates/io/src/pool.rs:3-6 | every run of the pool is, transition for transition and thread for thread, a run of an atomic bag: takes remove a member or create, returns add or discard |
| PoolBag.StepRefines | crates/io/src/pool.rs:89-217 | one transition of the pool is one event of the bag of the same thread, or none |
| PoolBag.ClaimRemoves | crates/io/src/pool.rs:94-99 | winning an AVAILABLE slot, by a taker or a destroyer, takes its value out of the bag at that very step |
| PoolBag.PublishAdds | crates/io/src/pool.rs:147-149 | the step from WRITING to AVAILABLE adds the value, and the bag had room |
| PoolBag.BagAlwaysSafe | crates/io/src/pool.rs:220-223 | the bag never exceeds its capacity and holds and gives out only values the return hook has accepted |
| PoolBag.OnlyAcceptedValuesHandedOut | crates/io/src/pool.rs:119-128 | the same, of every reachable state of the pool |
| PoolDestroy.DestroyedIsAbsorbing | crates/io/src/pool.rs:83-217 | no transition of any thread brings a slot back from DESTROYED |
| PoolDestroy.RunKeepsCounting | crates/io/src/pool.rs:156-216 | what the current pass has counted is always matched by DESTROYED slots before the current one |
| PoolDestroy.DestroyLoopSafe | crates/io/src/pool.rs:156-216 | `except` counts down at most once per slot and pass and does not underflow; a destroyer that is through leaves every slot DESTROYED, and any value still in a cell belongs to a taker or to the destroyer that claimed it |
| PoolDestroy.NothingLeaks | crates/io/src/pool.rs:155-218 | once a destroyer is through and no operation is under way, every value ever created is with a caller or was dropped exactly once, never both, and none is left in the pool |
| PoolLedger.CounterExact | crates/io/src/pool.rs:20-46 | CURRENT_SIZE is the capacity in cells, in transit, and accepted but dropped; no subtraction underflows; with n threads it is at most MAX_TOTAL_BUFFERS + (n-1) * MAX_SINGLE_BUFFER |
| PoolLedger.BufferPoolMetered | crates/io/src/pool.rs:20-46 | the same for `BUFFER_POOL`, its bound in numbers |
| PoolConstants.BufferHook | crates/io/src/pool.rs:33-39 | `BUFFER_POOL` refuses a buffer if and only if it is over 2097152 bytes or would bring the counter over 16777216 |
| PoolConstants.BufferPoolAttains | crates/io/src/pool.rs:20-46 | with n threads the counter gets to exactly 16777216 + (n-1) * 2097152 |
| PoolConstants.BufferPoolCreates | crates/io/src/pool.rs:23-27 | a take from the empty `BUFFER_POOL` delivers a buffer of 16384 bytes |
| PoolConstants.SixteenProbes | crates/io/src/pool.rs:28 | a search of `BUFFER_POOL` never makes more than sixteen probes and can make sixteen |
| PoolConstants.EverySearchBounded | crates/io/src/pool.rs:91-113 | in every run no search goes beyond max_loop probes |
| PoolConstants.BufferPoolFills | crates/io/src/pool.rs:26 | all 128 slots of `BUFFER_POOL` can be AVAILABLE at once |
| PoolLedger.DriftRefuses | crates/io/src/pool.rs:33-46 | with the pool empty and nothing in transit the hook refuses a buffer if and only if it is too large by itself or together with the capacity lost from the books |
| PoolLedger.RefusesExactly | crates/io/src/pool.rs:33-46 | in every reachable state: refused if and only if too large, or more than the limit with what is in cells, in transit and lost |
| PoolLedger.DriftStep | crates/io/src/pool.rs:130-151 | a step adds to the drift exactly the capacity of the counted buffer it drops: one whose search has run out of probes or met DESTROYED, or one the destroyer has claimed |
| PoolLedger.DriftIsForever | crates/io/src/pool.rs:119-152 | no continuation of a run makes up for the drift |
| PoolDrift.DriftReached | crates/io/src/pool.rs:20-46 | in every metered pool a state is reached in which nobody does anything, every slot is EMPTY, and every buffer of a capacity above 0 is refused, one that a caller holds among them |
| PoolDrift.BufferPoolDrifts | crates/io/src/pool.rs:26-46 | `BUFFER_POOL` gets there with a single thread |
| PoolSoftLimit.SoftLimitAttained | crates/io/src/pool.rs:33-46 | for every number of threads there is a run in which the counter reaches the bound exactly |
| PoolProbe.WaitFree | crates/io/src/pool.rs:89-152 | whatever other threads do, a take or return ends after at most max_loop + 6 moves of its own thread |
| PoolProbe.MoveCounts | crates/io/src/pool.rs:89-152 | each move of an operation brings it nearer its end and no other thread sets it back |
| PoolProbe.CoverageExact | crates/io/src/pool.rs:90-92 | CAPACITY probes from an offset reach every slot if and only if CAPACITY divides 2^64 or the sequence does not wrap |
| PoolProbe.ProbesDistinct | crates/io/src/pool.rs:131-132 | such a sequence visits each slot exactly once |
| PoolProbe.MissedIsMissed | crates/io/src/pool.rs:90-92 | otherwise the slot named by the model is hit by no probe |
| PoolProbe.ThreeSlotsNotCovered | crates/io/src/pool.rs:90-92 | a concrete pool and offset for which a slot is missed |
| PoolSolo.FullSearchFinds | crates/io/src/pool.rs:89-152 | without interference a full search finds a slot in the wanted state exactly when there is one, for every undisturbed offset |
| PoolSolo.FirstProbeFails | crates/io/src/pool.rs:91-99 | a search fails exactly when none of its probes succeeds |
| PoolSolo.SoloTake | crates/io/src/pool.rs:89-114 | a take that nobody disturbs is a run of the transition system with its sequential outcome: the value of the first AVAILABLE slot probed, or a new one |
| PoolSolo.SoloReturn | crates/io/src/pool.rs:119-152 | the same for a return: refused, stored in the first EMPTY slot probed, or dropped although counted |
| PoolSolo.SoloDrop | crates/io/src/pool.rs:156-217 | the same for the destroy loop: one pass is enough when nobody is writing |
| PoolSolo.SoloDropExact | crates/io/src/pool.rs:156-217 | left to itself a thread gets through the destroy loop if and only if nobody is in the middle of writing to a slot |
| PoolSolo.DropMeaning | crates/io/src/pool.rs:156-217 | every slot ends DESTROYED, AVAILABLE cells are emptied and all other cells left to their owners |
| PoolObject.PoolState.constructor | crates/io/src/pool.rs:250-286 | an empty pool, its probes capped at CAPACITY |
| PoolObject.PoolState.Take | crates/io/src/pool.rs:89-114 | the loop over the arrays yields the first AVAILABLE value probed or a new one, with the whole new state, and is a run of the transition system |
| PoolObject.PoolState.ReturnValue | crates/io/src/pool.rs:119-152 | the hook and the search have exactly the outcome of a solo return |
| PoolObject.PoolState.Store | crates/io/src/pool.rs:130-151 | the search stores in the first EMPTY slot unless a DESTROYED one comes before |
| PoolObject.PoolState.Drop | crates/io/src/pool.rs:156-217 | the nested loops clear every slot and drop every AVAILABLE value |
| PoolObject.PoolState.Clear | crates/io/src/pool.rs:162-211 | one round counts its slot exactly when it was not WRITING, and clears it then |
| PooledItem.Pooled.Drop | crates/io/src/pool/pooled_item.rs:122-129 | returns the value if there is one, and leaves none |
| PooledItem.Pooled.Forget | crates/io/src/pool/pooled_item.rs:40-42 | hands the value out and returns nothing |
| PooledItem.Pooled.ApplyResult | crates/io/src/pool/pooled_item.rs:45-54 | keeps the new value, or on an error has given the value up without returning it |
| PooledItem.Pooled.Clone | crates/io/src/pool/pooled_item.rs:112-120 | a copy owes the pool nothing |
| PooledItem.Live | crates/io/src/pool/pooled_item.rs:40-129 | over a handle's whole life the pool gets its final value once, or nothing if an application failed or it was forgotten |
| ArchiveParser.ArchiveRoundTrip | crates/archive/src/read.rs:57-153 | parsing any encoded archive yields every blob with its payload and that payload's hash and every entry, in order, then the end |
| ArchiveParser.BlobRoundTrip | crates/archive/src/read.rs:322-363 | however a payload is cut into frames, parsing gives it back with its hash and exactly what follows |
| ArchiveParser.EntryRoundTrip | crates/archive/src/write.rs:45-80 | an encoded entry parses to itself with its known flags, leaving exactly what follows |
| ArchiveParser.ReadBackExact | crates/archive/src/read.rs:88-104 | an entry is unchanged by the round trip if and only if its flags are known |
| ArchiveWire.EntryBytes | crates/archive/src/write.rs:45-80 | an entry is 2, its path behind two bytes of length with the high one first, and 1 with hash type 1, hash and flags, or 2 with target and flags, or 3 |
| ArchiveWire.BlobBytes | crates/archive/src/write.rs:31-42 | a blob is 1, its frames, and 0, 0, 1 with the hash of the payload |
| ArchiveWire.FrameBytes | crates/archive/src/write.rs:185-192 | a frame is two bytes of length, the high one first, and its bytes |
| ArchiveWire.OneDirectory | crates/archive/src/write.rs:24-80 | the ten bytes of the archive of one directory |
| ArchiveWire.OneLink | crates/archive/src/write.rs:58-63 | all bytes of the archive of one executable link |
| ArchiveWire.OneFile | crates/archive/src/write.rs:24-80 | all bytes of the archive of one executable file, blob and entry |
| ArchiveWire.ReadsNumber | crates/archive/src/read.rs:148-152 | two bytes are read as a number with the high byte first |
| ArchiveWire.ReadsDirectory | crates/archive/src/read.rs:81-108 | the bytes of a directory entry, and what is read from them |
| ArchiveWire.ReadsLink | crates/archive/src/read.rs:96-104 | the same for a link with any flags, of which the lowest bit is kept |
| ArchiveWire.ReadsData | crates/archive/src/read.rs:87-95 | the same for a data entry |
| ArchiveWire.ReadsFrames | crates/archive/src/read.rs:341-362 | the bytes of a chunk, of the end of a blob and of its beginning, and what is read from them |
| ArchiveWire.Rejects | crates/archive/src/read.rs:67-108 | every other tag, target type and hash type is invalid data |
| ArchiveTruncation.Truncation | crates/archive/src/read.rs:57-153 | of any byte string, how the reading of a prefix stops says how the whole reads: an orderly end is followed by what the rest holds, invalid data by nothing, and running out of bytes by an extension of what was seen, with at most one blob broken off |
| ArchiveTruncation.TruncatedArchive | crates/archive/src/read.rs:57-153 | of an encoded archive cut off anywhere: the cut goes unnoticed if and only if it is where an item ends; the items wholly before it are delivered as they were put, of a blob that is cut exactly its whole frames, and nothing else |
| ArchiveTruncation.CutBlob | crates/archive/src/read.rs:322-363 | a blob cut off before the end of its hash delivers its whole frames and is never reported complete |
| ArchiveTruncation.BlobExtends | crates/archive/src/read.rs:322-363 | bytes that follow change nothing about a blob that is complete, and only prolong one that is cut off |
| ArchiveWriter.Writer.Open | crates/archive/src/write.rs:24-28 | a writer exists only with its header written |
| ArchiveWriter.Writer.WriteLengthPrefixed | crates/archive/src/write.rs:72-79 | writes length and bytes, or refuses exactly what exceeds MAX_LENGTH and writes nothing |
| ArchiveWriter.Writer.WriteEntry | crates/archive/src/write.rs:45-70 | an entry that fits is encoded; one that does not is refused and leaves exactly the bytes named; a failing sink has taken the first bytes of either |
| ArchiveWriter.Writer.WriteData | crates/archive/src/write.rs:31-42 | emits the blob tag and starts with no frames |
| ArchiveWriter.DataWriter.Write | crates/archive/src/write.rs:169-195 | under every schedule of short, stalled and failed writes output and pending range are exactly the frames of the bytes hashed, each frame non-empty; the counts acknowledge exactly the caller's bytes if it re-offers them |
| ArchiveWriter.DataWriter.Drain | crates/archive/src/write.rs:174-183 | pushes a frame out to its end or stops with it unfinished, and makes no frame |
| ArchiveWriter.DataWriter.MakeFrame | crates/archive/src/write.rs:185-192 | hashes the next chunk once and frames it |
| ArchiveWriter.DataWriter.WriteAll | crates/archive/src/write.rs:214-249 | a caller that offers what is left until it is done has its payload framed exactly once, in order; one that gives up has part of it |
| ArchiveWriter.DataWriter.Finish | crates/archive/src/write.rs:156-166 | emits the terminator and the hash of exactly the framed payload, or fails with the first bytes of them out |
| ArchiveWriter.DataWriter.FinishExact | crates/archive/src/write.rs:157-165 | what is behind the tag after finishing reads as the payload, its hash and whatever follows if and only if no frame was unfinished, however much of it had gone out |
| ArchiveWriter.DataWriter.FinishLosesFrame | crates/archive/src/write.rs:157-165 | if nothing of the last frame had gone out, a reader gets a blob that looks complete, without that frame and with the hash of the payload that has it |
| ArchiveWriter.FinishAfterRefusal | crates/archive/src/write.rs:156-195 | such a state is reached: a sink that refuses once and a caller that finishes all the same make an archive that reads as a blob without payload under the hash of the payload |
| ArchiveWriter.Sink.WriteAll | crates/cli/src/archive/create.rs:30-43 | through a `BufWriter` what was written is out or in the buffer, what has gone further only grows, and a short write always leaves something in the buffer |
| ArchiveReader.Reader.Extend | crates/io/src/bytes_ext.rs:34-82 | both loops append exactly the missing bytes and take no more, or fail at the end of the source, for every way it splits its bytes |
| ArchiveReader.Reader.NextEvent | crates/archive/src/read.rs:57-263 | both forms read the event the parser reads, stop just behind it, fail at the same event for the same reason, and stay invalid after invalid data |
| ArchiveReader.Reader.ReadEntry | crates/archive/src/read.rs:81-108 | agrees with the parser on the entry, the rest and the failure |
| ArchiveReader.Reader.ReadHash | crates/archive/src/read.rs:125-133 | the same for a hash; an unknown hash type invalidates the reader |
| ArchiveReader.DataReader.Read | crates/archive/src/read.rs:322-363 | one call hands out the next bytes of the chunk or goes on to the frame the parser sees; at the end it makes the hash known and consumes nothing more; with a reader that has become invalid it fails exactly if it needs a byte that is not in its buffer, and changes nothing |
| ArchiveReader.DataReader.ReadToEnd | crates/archive/src/read.rs:301-364 | for any buffer sizes the payload comes out in order and the source is left just behind the hash |
| ArchiveReader.DataReader.ReadPastEnd | crates/archive/src/read.rs:344-358 | behind the end every further call, with buffers of any sizes and a valid reader or not, returns nothing and consumes nothing |
| ArchiveReader.DataReader.PollExact | crates/io/src/bytes_ext.rs:84-110 | one poll of the source at most: pending changes nothing, a short answer is ready all the same, and the window is filled exactly if the answer was not short |
| ArchiveReader.DataReader.PollRead | crates/archive/src/read.rs:391-448 | it is `read` with pauses if no ready poll was short, and it panics or leaves a range beyond the buffer if one was |
| ArchiveReader.DataReader.PollToEnd | crates/archive/src/read.rs:366-449 | for any source: a caller that polls on panics if and only if some ready poll was short, and is given nothing at the end only with exactly the payload and the hash; over a source whose ready polls give all there is room for it gets there if and only if the blob is whole, fails if and only if its hash type is unknown, and panics if and only if it is cut off |
| ArchiveReader.DataReader.PollTorn | crates/archive/src/read.rs:400-410 | with a range beyond the buffer a call panics exactly when its part of the range does |
| ArchiveReader.ShortPollPanics | crates/archive/src/read.rs:412-417 | a blob of one byte that the parser reads whole, from a source that gives a byte at a time: the first poll panics |
| ArchiveReader.ReadAll | crates/archive/src/read.rs:57-79 | a caller that reads every event and every blob to its end sees what the parser says of the bytes |
| ArchiveRoundTrip.WriteBlob | crates/archive/src/write.rs:156-196 | however a payload is cut among writes, what comes out is one encoded blob of it |
| ArchiveRoundTrip.WriteArchive | crates/archive/src/write.rs:24-80 | whatever the sink does, success means the output is an archive of what was put; a sink that never stalls succeeds exactly if every entry fits |
| ArchiveRoundTrip.WriteThenRead | crates/archive/src/read.rs:56-153 | the archive law: whatever sink and source do, what was written successfully is read back as it was put |
| StableEncoding.PrefixFree | crates/hashing/src/lib.rs:72-222 | at any nesting of types, equal streams that start with encodings of two values of a type start with the same value and go on alike |
| StableEncoding.IndexedPrefixFree | crates/hashing/src/lib.rs:37-44 | the same for the index-then-element form closed by u64::MAX |
| StableEncoding.EncodeInjective | crates/hashing/src/lib.rs:49-61 | different values of a type feed a hasher differently |
| StableEncoding.BigEndianInjective | crates/hashing/src/lib.rs:72-91 | integers of one width have different bytes |
| StableEncoding.StableHasher.UpdateHash | crates/hashing/src/lib.rs:93-222 | feeds the hasher exactly the value's encoding |
| StableEncoding.StableHasher.UpdateSlice | crates/hashing/src/lib.rs:181-189 | the loop feeds length and elements |
| StableEncoding.StableHasher.UpdateIter | crates/hashing/src/lib.rs:37-44 | the loop feeds every element behind its index, and the closing word |
| StableBytes.BigEndianValue | crates/hashing/src/lib.rs:72-91 | the bytes of an integer are its digits of base 256, the most significant first |
| StableBytes.IntBytes | crates/hashing/src/lib.rs:83-130 | an integer is fed as its width in bytes, two's complement if it is signed |
| StableBytes.Integers | crates/hashing/src/lib.rs:83-116 | bytes of particular integers, signed and unsigned |
| StableBytes.SliceBytes | crates/hashing/src/lib.rs:181-189 | a slice is eight bytes of length and its elements |
| StableBytes.OrderedBytes | crates/hashing/src/lib.rs:37-44 | an ordered collection ends with eight bytes of ones |
| StableBytes.IndexBytes | crates/hashing/src/lib.rs:38-41 | each of its elements comes behind eight bytes of its index |
| StableBytes.Text | crates/hashing/src/lib.rs:160-172 | the bytes of a string |
| StableBytes.ByteSet | crates/hashing/src/lib.rs:203-208 | the bytes of an ordered set |
| StableBytes.Bools | crates/hashing/src/lib.rs:93-102 | 0xFF for true and 0 for false |
| StableBytes.Options | crates/hashing/src/lib.rs:191-199 | 1 and the value, or 0 |
| StableBytes.Hashes | crates/hashing/src/supported.rs:105-111 | 1 and the digest |
| Pipeline.ChildPath | crates/cli/src/archive/create.rs:101-107 | a child's path is its directory's path with its name joined on |
| Pipeline.PrefixAt | crates/cli/src/archive/create.rs:80-111 | whatever is reached lies under directories only |
| PipelineOrder.Logs | crates/cli/src/archive/create.rs:94-132 | sending an entry keeps every occurrence in one place, parents before children, nothing lost and every entry right |
| PipelineRuns.RunKeeps | crates/cli/src/archive/create.rs:51-141 | through every interleaving and failure: no occurrence twice, none lost while the writer lives, directories before what they hold, blobs matched to data entries, at most twenty files waiting |
| PipelineRuns.FinishedArchive | crates/cli/src/archive/create.rs:59-141 | a successful run has exactly one entry for each file, directory and link occurrence the walk reaches, every directory before what lies beneath it; the entry is, read off the tree: the content's hash, the link's target, flag 1 for executables, and a path of the directory's path, a slash and the name; the k-th data entry is that of the k-th blob |
| PipelineBreadth.BreadthFirst | crates/cli/src/archive/create.rs:78-136 | in the archive of a successful run directories and links come breadth first and by place among equals, and so do blobs and data entries; only how the two are interleaved depends on the run |
| PipelineBreadth.RunBreadth | crates/cli/src/archive/create.rs:78-136 | through every interleaving and failure the deque is in that order, after all that has been sent |
| PipelineBreadth.TwentyWait | crates/cli/src/archive/create.rs:51-52 | twenty files can wait for the writer, and with one more the walker has to wait |
| PipelineBreadth.NeverMoreThanTwenty | crates/cli/src/archive/create.rs:51-52 | never more than twenty files wait |
| PipelineEnds.StepLowers | crates/cli/src/archive/create.rs:80-141 | every step, failing or not, lowers the measure over queued subtrees, channels and unwritten entries |
| PipelineEnds.EveryRunEnds | crates/cli/src/archive/create.rs:51-141 | no run is longer than six steps for each node of the tree and four more |
| PipelineEnds.NoDeadlock | crates/cli/src/archive/create.rs:51-141 | until the end the walker or the writer can always go on, full channel or not |
| PipelineEnds.CanEnd | crates/cli/src/archive/create.rs:51-141 | from every state reached the two alone can bring the run to its end |
| PipelineEnds.CleanRunSucceeds | crates/cli/src/archive/create.rs:138-143 | a run in which nothing outside fails succeeds if and only if every path and link target fits |
| PipelineArchive.OutputAppends | crates/cli/src/archive/create.rs:59-72 | the archive is only ever appended to: no blob is written once entries are |
| PipelineArchive.FinishedReadsBack | crates/cli/src/archive/create.rs:59-141 | what a successful run hands to its buffered writer would read back as all blobs, then all entries as sent, the k-th data entry carrying the hash stored with the k-th blob |
| PipelineArchive.CreateArchive | crates/cli/src/archive/create.rs:30-43 | the buffer is dropped without a flush: what reaches the file is an initial part of the archive with all frames of all blobs, all of it if and only if the buffer is empty at the end, which over a buffer of more than 32 bytes it never is; without blobs nothing reaches the file that fits in the buffer |
| ArchiveRoundTrip.WritePut | crates/archive/src/write.rs:24-80 | one entry or blob more keeps the output an archive of what was put; a blob that is flushed before it is finished has all gone further than the buffer but its trailer |
| PipelineArchive.FileShows | crates/cli/src/archive/create.rs:138-143 | what a reader makes of such a file |
| PipelineArchive.EmptyDirectoryLost | crates/cli/src/archive/create.rs:138-143 | the archive of one empty directory: success, and a file of no bytes |
| StoreLocks.RunKeepsCounted | crates/daemon/src/store.rs:75-102 | any interleaving of any requests, whatever fails, keeps the lock map at exactly the number of live guards, no entry for none, nothing freed in excess, and one holder for a build's mutex |
| StoreLocks.EveryRunCounted | crates/daemon/src/store.rs:75-115 | all of this in every run from a store without locks |
| StoreLocks.ActBalances | crates/daemon/src/store.rs:183-279 | each step of a request makes a guard only by taking a lock and loses one only by giving it back |
| StoreLocks.StepKeepsCounted | crates/daemon/src/store.rs:85-101 | the count through one step; the branch that warns is not reached |
| StoreLocks.StepKeepsExclusive | crates/daemon/src/frontend/build.rs:35-52 | one request at a time holds a pending build's mutex, and then its locks are there |
| StoreLocks.Quiescent | crates/daemon/src/frontend/build.rs:130-215 | when no request is under way a path is locked exactly if a pending or started build has it |
| StoreLocks.HandOff | crates/daemon/src/frontend/build.rs:194-215 | a path that a pending build has locked and its start locks too is never unlocked on the way from one to the other, whatever other requests do |
| StoreRequests.PostOutcome | crates/daemon/src/frontend/build.rs:100-192 | whatever other requests do: a post that nothing fails in leaves the build holding what it held and the path of the cached file, or if that was missing or none was asked for of the uploaded one; a post that fails leaves what was there; it tries at most 1024 names |
| StoreRequests.LocksGrowUntilTaken | crates/daemon/src/frontend/build.rs:130-174 | a pending build's set only grows until all of it is taken, for good |
| StoreRequests.RunOnce | crates/daemon/src/frontend/build.rs:194-206 | once a request has run a build no other finds it or runs it |
| StoreRequests.RunOutcome | crates/daemon/src/store.rs:135-167 | a run that takes a build's locks and does not fail has started it with all the paths it asks for |
| StoreRequests.StepStarts | crates/daemon/src/store.rs:159-166 | nothing is started but by a request that has locked all its paths, and with exactly these |
| StoreRequests.CanMove | crates/daemon/src/frontend/build.rs:100-215 | every request can go on unless it waits for a mutex that another holds |
| StoreRequests.AllNamesTried | crates/io/src/fs.rs:45-81 | if every temporary name is taken, 1024 are tried |
| StoreObject.StoreState.IncreaseLock | crates/daemon/src/store.rs:76-83 | one guard more, and the map follows |
| StoreObject.StoreState.DecreaseLock | crates/daemon/src/store.rs:85-101 | one guard fewer, the entry gone with the last; the warning is unreachable |
| StoreObject.DecrementLock.constructor | crates/daemon/src/store.rs:190-198 | a guard counts from its making |
| StoreObject.DecrementLock.Drop | crates/daemon/src/store.rs:200-206 | a guard gives its lock back once |
| StoreObject.GetFile | crates/daemon/src/store.rs:118-129 | a lock is returned exactly if the file opens, with one guard more, and none is left if it does not |
| StoreObject.NewPendingFile | crates/daemon/src/store.rs:246-261 | of at most 1024 names the first that is not taken decides: exactly its guard is left if the file was created, and none otherwise |
| StoreObject.Complete | crates/daemon/src/store.rs:264-278 | the temporary name is let go and the final path is held exactly on success |
| StoreObject.PendingBuildState.Insert | crates/daemon/src/frontend/build.rs:130-133 | a second lock of a path already in the set is dropped and given back |
| StoreObject.PostFile | crates/daemon/src/frontend/build.rs:100-192 | a cached file is kept as it is and a missing one uploaded; on success the build holds its path too, with one guard more if it is new, and on failure nothing has changed |
| StoreObject.Start | crates/daemon/src/store.rs:141-165 | wherever it fails no guard is left; if it does not, the build holds one for each of its paths |
| ReplaceFallback.MoveReplaceFallback | crates/io/src/fs.rs:277-305 | after every step old and new content both exist until the target holds the new, and every other file is as it was; the answers of the calls made determine the outcome and the outcome the files, so a failed final rename that is rolled back leaves everything as it was; on a file system that does what it can, the target is replaced exactly if the new file exists and is another |
| ReplaceFallback.SetAside | crates/io/src/fs.rs:285-294 | the search tries the names in order, ends after no more tries than there are files, with the first free name, and fails exactly if the rename to that name does |
| ReplaceFallback.Finish | crates/io/src/fs.rs:296-304 | the new file goes in and the old one goes; if the new one does not go in the old one is put back, and which of these happened is what the two calls answered |
| ReplaceFallback.TakenBound | crates/io/src/fs.rs:285-294 | there are no more taken names than files, because the names differ |
| ReplaceFallback.HexInjective | crates/io/src/fs.rs:288 | different counters have different hexadecimal digits |
| ReplaceFallback.HexMeans | crates/io/src/fs.rs:288 | the counter is written in lower-case digits of base sixteen without leading zeros |
| ReplaceFallback.OldNames | crates/io/src/fs.rs:285-291 | the first name is `.old0`, the eleventh `.olda`, the seventeenth `.old10` |

## Left out

- Weak memory orderings: every atomic access is sequentially consistent. The probe offset of `next_id` is arbitrary, so
  thread identities and the shared `skip` counter play no part.
- User hooks of a pool: it has the hooks of `BUFFER_POOL` or none. Panics in hooks and constructors are not modelled.
- PoolLedger.CounterExact: asks for fewer threads than would let the bound overflow a `usize`.
- PoolObject.PoolState.Take: the object runs one call while the other threads stand still; racing calls are the business
  of the transition system. The same holds for `ReturnValue` and `Drop`.
- PoolObject.PoolState.Drop: asks that no slot is WRITING. Left to itself the loop does not end otherwise, which is
  `PoolSolo.SoloDropExact`.
- `OwnedPooled`: repeats the handle logic of `Pooled`.
- PooledItem.Pooled.ApplyResult: the function applied is pure and does not panic.
- ArchiveReader.Reader.NextEvent: a source delivers its bytes and ends; other I/O errors of the source are not modelled.
- ArchiveReader.ReadAll: a caller that drops a `DataReader` before its end, and then reads frames as events, is not
  modelled.
- ArchiveWriter.DataWriter.Write: the inner writer never answers with zero bytes, on which the loop would spin, and the
  promise about counts is made to callers that offer the same bytes again after an unfinished call.
- Blake3: a function from bytes to 32 bytes. Collisions are not discussed.
- StableEncoding.StableHasher.UpdateIter: an ordered collection is its elements in iteration order; that this is the order
  of `Ord` is not modelled, nor is the base32 form of a hash.
- PipelineRuns.FinishedArchive: the file tree does not change during the walk and the children of a directory and the
  arguments are given in the order in which they are sorted.
- PipelineArchive.CreateArchive: the buffer has the default size of a tokio `BufWriter`, 8192 bytes, or any other; the
  file itself and its own buffers are not modelled, so even less may reach the disk.
- PipelineEnds.NoDeadlock: panics of the writer task are failures like any other.
- StoreLocks.RunKeepsCounted: `start` is taken as locking a given list of paths, because the specification type it reads
  is not part of the repository, and started builds are never removed, as in the code. Lock counts are unbounded where
  the code has a `usize`. Builds to post to exist from the start, because nothing in the repository registers one.
- StoreObject.Start: requests run one at a time there.
- HTTP routing, header parsing, sockets, settings, the sandbox and mounts: plumbing.
- ReplaceFallback.MoveReplaceFallback: one replacement at a time on a file system nobody else changes; a file or
  directory is one node. The counter is unbounded where the code has an `i32`, which is the same as long as fewer than
  2^31 names are taken.
- `move_replace` itself and `TempFile::write_to`: one call and the fallback.
- Random temporary names: any name may come up, taken or not.
