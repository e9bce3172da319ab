# A verified model of hogl's engine and of its raw record format

hogl is a logging library for threads that must not wait. Writers publish fixed-size records into
per-thread rings; one engine thread polls the rings, puts the records into timestamp order and hands
them to an output. One of the output formats is a binary one that tools read back. This project
models the two halves that everything else rests on and proves what they promise.

**The engine.** `Rings` describes a ring by unbounded positions, with every shared-memory step a
writer can take: taking a slot, filling it, publishing it, dropping it because the ring is full, the
special records of `flush`, waiting for room and for the ack, giving up. `RingBuffers` is the ring as
it lies in memory, with its masked 32-bit indices, proved to be that description. `Sharing` adds what
the process shares: reference counts, the map of registered rings, the dirty flag, and the steps of
`add_ring`, `find_ring` and `release`; `Chronicles` ties the state to what other threads have done, step by
step: which records were posted, which references taken, which rings added. `EngineThread.Engine` is the engine thread as an object whose
methods are the source's functions; between any two of its accesses to shared memory, other threads
may take any number of steps (`Interfere`). What it must keep is split into `Index` (the invariants),
`PollSteps`, `Orphans`, `Commits` and `Rebuild` (one lemma per kind of step), `Abandoned` (what becomes
of rings that are taken out of the map), `Effects` (what the methods do to the engine's state, step by
step over a poll), `Backlogs` (the measure behind draining), `History` (time order over many polls),
`Guarantees` and `DropCounts` (what a user is promised). `EngineRuns` closes the argument over a whole
run: start-up, polls, the end of the other threads, the drain.

The invariant joins four structures: a ring's head and tail, the iterator's snapshot, the contents of
the ordering buffer, and `lastrec` and `seqnum` of the index entry. The buffer holds exactly one
pointer for every record that was read in this poll and not flushed; a pointer stays good because no
writer step touches a slot before the head has passed it; and committing moves the head exactly past
what was delivered, so what the buffer forgets at the end of a poll is read again by the next one.

**The raw format.** `ArgTypes`, `Arguments`, `Packing` and `ArgPacks` model argument packing down to
the bytes of the record, `Overlaps` says which arguments survive it, `RecordBuffers` are the operations
that do it in place. `RawFormat` and
`RawStreams` say what is printed and what is accepted; `RawPackers`, `ReadBuffers`, `RawParsers` and
`RawReaders` are the packer, the two buffers and the parser; `Fitting` says how large the parser's
record buffer has to be; `EndToEnd` composes them.

**A side piece.** `TimestampCache` is the cache that reprints only the parts of a timestamp that
changed.

## Conventions

- Memory is sequentially consistent; a slot is written before the tail that publishes it.
- `std::sort` returns any permutation in key order; equal keys may come out in any order.
- Timestamps are nanoseconds that do not wrap, sequence numbers do not reach 2^52. Where the source
  computes `timestamp - 1` for a line of its own, 64-bit wrap-around is modelled.
- Time-outs, the number of bytes a `read` returns and the moments at which other threads run are
  nondeterministic. What a try-lock finds, and whether internal lines are enabled, are parameters.
- An output is an append-only sequence.
- Ghost state (`log`, `done`, `polls`, `pub`, `acts` and the like) remembers what happened; no step of the
  modelled code depends on it.

## What the proofs brought out

- **A capacity of one.** The emergency flush of a buffer with one entry flushes half of it, that is
  nothing, and leaves it full, so that the next push would be past its end. `FlushFullTso` states that
  the flush makes room if and only if the capacity is not one; polling requires at least two.
- **Rings that come back.** A ring that was killed and is registered again is expected to start from
  sequence number 0 (`KilledAndBack`). Its drop count is then too high, by exactly what it had accounted
  for when it came back into the index, so it is right if and only if that was nothing
  (`ReturningRing`); it is never too low (`DropShare`). `Miscounted` is a state with a drop counted and
  none made. `Conservation` gives the sum of all counters with this excess in it.
- **Orphans.** A ring is tested for being an orphan and empty before the ring map is locked, and is not
  tested again. A kill can lose a published record if and only if, when the lock is taken, the ring is
  not empty any more, or somebody holds it and it has a slot to publish into (`KillDecides`). Looking at
  the reference count again would not be enough: between test and lock a thread can find the ring,
  publish, and leave (`FoundAgain`). A ring that nobody holds when it is killed stays as it is for good
  (`StaysOutOfReach`, `KillLocked`).
- **Gaps in argument lists.** Data is placed behind as many argument words as there are arguments, which
  with a gap in the list is in front of the last words. An argument survives, for all contents of the
  given types and lengths, if and only if its data and its word meet nothing that is written after it,
  except a terminator or marker byte on a descriptor byte that is the same anyway (`StoredIff`).
  `GapOverwrites` is a list that fails; lists without gaps, lists without data, and generally lists in
  which no data meets a word, always survive (`GapFreeSafe`, `NumbersSafe`, `SeparateSafe`); `MeetingSafe`
  is one that survives although they do meet. By way of an argpack nothing is ever lost (`PackedStored`).
- **Terminated strings.** The comment on `copy_cstr` promises a terminator always. One is written if and
  only if the string is not empty and the arguments before it have left any room (`StoredString`,
  `TerminatedIff`); otherwise the argument is offset and length zero. `NoRoomLeft` is a list with a
  non-empty string that gets none.
- **Dump length.** The length of a dump is added up in 32 bits, so a dump of 2^32 - 4 bytes or more is
  stored as if it did not fit at all.
- **Names.** A printed record is accepted by the parser if and only if its three names are 2 to 128
  printable characters; the packer checks nothing.
- **Truncated streams.** A stream that ends less than eight bytes into a record is indistinguishable
  from one that ends at a record.

## Model

| member | source | states |
|---|---|---|
| Rings.ActSafe | include/hogl/detail/ringbuf.hpp:428-450 | slot safety: no step of a writer, the scribble into the tail slot of a full ring included, changes a slot between head and tail or one whose ack is awaited; the ring's invariant, with its count of sequence numbers taken, published, dropped and timed out, is kept |
| Rings.DeliverSafe | include/hogl/detail/record.hpp:391-407 | the slot of the next undelivered record holds what was published, and acking it changes no other record's slot and no record being prepared |
| Rings.CommitHeadSafe | include/hogl/detail/ringbuf.hpp:508-519 | moving the head past what has been delivered keeps the ring's invariant |
| Sharing.EnvSafe | src/engine.cc:647-737 | every step of add_ring, find_ring, release and posting keeps every ring safe and every reference count equal to registration plus holders, and is one the engine may rely on |
| Sharing.ReleaseNeverAborts | include/hogl/detail/ringbuf.hpp:369-376 | whoever releases a reference finds the ring alive and the count positive, so the abort is unreachable; the ring goes away exactly with the last reference unless it is immortal |
| Chronicles.PostPublishes | src/post.cc:92-97 | a whole post is always possible for a holder and, if there is room, appends exactly the record with the caller's timestamp, area, section, type word and arguments and the next sequence number; a full ring keeps its queue and counts the drop, or keeps the record ready if it blocks |
| Chronicles.SpecialPublishes | src/flush.cc:56-72 | a special record of the given kind and argument is appended likewise, with the sequence number taken at the start, and its poster then waits for its ack |
| Chronicles.RecordedRun | src/engine.cc:647-737 | over all steps, every record published to an added ring is what one of its posts has passed, the writer stands where its last steps have left it, references held are those taken less those released, and the ring is as it was asked for |
| Chronicles.PostOrder | src/post.cc:47-64 | published records come from different posts, in the order in which these began |
| Chronicles.HoldersCounted | src/engine.cc:725-737 | over any run, the references other threads hold on a ring change by one for adding it and for every find_ring that returns it, less the releases, and the reference count is that, plus registration, plus what the engine owes |
| Chronicles.RunRegisters | src/engine.cc:652-708 | while only other threads run, whatever was added or registered stays in the map, and the index stays dirty |
| Chronicles.UnsetCounted | src/engine.cc:652-664 | over any run, the add_ring calls that have not set the flag yet are those begun less those that have set it |
| Chronicles.AlwaysEnabled | src/engine.cc:725-737 | a registered ring can be found, a held one released, and a free name registered, at any time |
| Chronicles.WriterEnabled | src/flush.cc:56-81 | a holder can always begin, give up waiting, and fill in a special record once there is room |
| Bits.AndMask | include/hogl/detail/ringbuf.hpp:499-503 | masking an index with capacity minus one is taking the remainder by the capacity |
| RingBuffers.RoundupLog2 | src/ringbuf.cc:64-69 | the smallest exponent whose power of two is at least the argument |
| RingBuffers.RingBuf.constructor | src/ringbuf.cc:80-120 | capacity is the next power of two, the ring starts empty, and a record offers at least 128 bytes and at least the requested tailroom, filling its power-of-two slot exactly |
| RingBuffers.RingBuf.Size | include/hogl/detail/ringbuf.hpp:265 | the masked 32-bit difference is the number of queued records wherever the indices stand |
| RingBuffers.RingBuf.Room | include/hogl/detail/ringbuf.hpp:271 | size() + room() == capacity() - 1 |
| RingBuffers.RingBuf.Empty | include/hogl/detail/ringbuf.hpp:277 | true exactly when nothing is queued |
| RingBuffers.RingBuf.PushBegin | include/hogl/detail/ringbuf.hpp:428-431 | the slot handed out is the tail's and is not the slot of any queued record |
| RingBuffers.RingBuf.Begin | src/post.cc:47-55 | a sequence number is taken whether or not the push will succeed, the tail slot gets the caller's timestamp, area and section, the queue is unchanged, and the ring makes exactly the writer step of the same name |
| RingBuffers.RingBuf.Fill | include/hogl/detail/record.hpp:307-322 | the rest of the tail slot becomes what was passed, the queue is unchanged |
| RingBuffers.RingBuf.Post | src/post.cc:92-97 | with room, exactly the record with what the caller passed joins the queue; without, the queue stays and the drop is counted or the caller waits |
| RingBuffers.RingBuf.PushSpecial | src/flush.cc:67-72 | exactly the special record of this kind joins the queue, and the ring makes the writer steps of that name |
| RingBuffers.RingBuf.PushCommit | include/hogl/detail/ringbuf.hpp:439-450 | with room the tail slot is appended to the queue; without, a non-blocking ring keeps its queue and counts one drop, a blocking one has to try again |
| RingBuffers.PopIterator.Next | include/hogl/detail/ringbuf.hpp:494-503 | returns the slots of the snapshot one by one in order and nothing beyond it |
| RingBuffers.PopIterator.Commit | include/hogl/detail/ringbuf.hpp:516-519 | exactly the records before the iterator leave the queue |
| RingBuffers.PopIterator.ReadThenCommit | include/hogl/detail/ringbuf.hpp:494-528 | iterating yields the queue in order, and rewinding to its m-th record and committing removes exactly the first m |
| RingBuffers.RecordPointers | include/hogl/detail/ringbuf.hpp:117-130 | get_index undoes get_record, also from inside the record, and records do not overlap |
| Tso.TsoBuf.Push | include/hogl/detail/tsobuf.hpp:100-103 | a push into a buffer that is not full appends the entry |
| Tso.TsoBuf.Pop | include/hogl/detail/tsobuf.hpp:108-114 | takes the first entry off, or reports that there is none |
| Tso.TsoBuf.Flip | include/hogl/detail/tsobuf.hpp:132-138 | moves the contents to the start of the array unchanged |
| Tso.TsoBuf.Sort | include/hogl/detail/tsobuf.hpp:140-143 | the contents become some permutation of themselves in timestamp order |
| PollSteps.PushStep | src/engine.cc:441-458 | buffering the next record of a ring, with its timestamp pushed past the previous one of that ring, keeps the correspondence of buffer, iterators and rings |
| PollSteps.ReadNext | src/engine.cc:356-366 | the pointer of an oldest buffered entry leads, whatever writers did since, to the next undelivered record of its ring as it was published, and its sequence number is not below the expected one |
| PollSteps.FlushStep | src/engine.cc:356-381 | delivering that record keeps index, buffer, log, drop accounting and rings consistent, and takes one record off the buffer |
| Orphans.KillStep | src/engine.cc:270-286 | invalidating the entry of an empty ring leaves no buffered entry tagged with it and keeps all invariants, with the map's reference still owed |
| Orphans.ReleaseStep | src/engine.cc:284 | the reference dropped after unlocking is really there, so the ring is alive until then |
| Commits.CommitStep | src/engine.cc:475-486 | rewinding to the last flushed record and committing sets the head exactly past what was delivered and keeps all invariants |
| Rebuild.RebuiltSorted | src/engine.cc:215-231 | sorting the fresh entries by priority keeps one entry per registered ring and every expected sequence number |
| Rebuild.RebuiltMirrors | src/engine.cc:180-231 | the rebuilt index has exactly one entry for every registered ring, and no ring of lower priority stands before one of higher priority |
| Rebuild.RebuildStep | src/engine.cc:199-241 | replacing the index between polls keeps all invariants, for any reordering of ties |
| Rebuild.RebuiltSeqnums | src/engine.cc:215-228 | survivors keep their expected sequence number: the old sum is the new sum plus that of the killed entries |
| EngineThread.Engine.constructor | src/engine.cc:104-119 | a new engine is between polls, its index is dirty, and its buffer has the requested capacity or 2048 |
| EngineThread.Engine.Interfere | include/hogl/detail/ringbuf.hpp:428-450 | the engine's invariants and a poll in progress survive any steps of other threads |
| EngineThread.Engine.FlushRecord | src/engine.cc:288-314 | a regular record is appended to the output, a special one is acked in its slot and announces a timesource switch if it is one; either way recs_out grows by one |
| EngineThread.Engine.CountDrops | src/engine.cc:365-373 | the gap in sequence numbers, and nothing else, is added to recs_dropped, and exactly one drop line with that number is written if there is a gap and such lines are enabled |
| EngineThread.Engine.FlushNow | src/engine.cc:356-381 | the output grows by the drop line, if any, and then the record's own line; exactly this entry leaves the buffer and is logged, all invariants and statistics hold again, nothing but the rings' ack words changes in shared memory |
| EngineThread.Engine.DoFlushTso | src/engine.cc:352-382 | exactly the first min(size, buffered) entries of a sorting of the buffer are delivered in that order, with writers running; the rest stays |
| EngineThread.Engine.FlushFullTso | src/engine.cc:387-403 | the older half is delivered, the rest moves to the front, and there is room afterwards if and only if the capacity is not one; if such lines are enabled the output says so first, dated before the first buffered record |
| EngineThread.Engine.FlushTso | src/engine.cc:408-421 | delivers all but an eighth of the capacity, but at least as many as the last poll left over, records how many were kept, and empties the buffer |
| EngineThread.Engine.PushOne | src/engine.cc:441-458 | the next record of the ring is buffered, with the least timestamp that is not below its own and above that of its predecessor in the ring |
| EngineThread.Engine.PushNext | src/engine.cc:443-460 | the buffer is never pushed into when full and never left full |
| EngineThread.Engine.ReadRing | src/engine.cc:440-461 | everything the ring held when its turn came is read, with emergency flushes in between, and nothing is read twice |
| EngineThread.Engine.TestOrphan | src/engine.cc:463-465 | a ring passes only if it was an orphan at its first test; when it then tests empty, everything published to it so far has been delivered and committed; it passes exactly if both tests say so |
| EngineThread.Engine.KillLocked | src/engine.cc:270-286 | if nobody holds the ring when it is killed, what was published to it and what was delivered of it never change again; otherwise somebody holds it |
| EngineThread.Engine.KillOrphan | src/engine.cc:270-286 | only for a ring that was seen to be an orphan, and in whatever state other threads have left it when the lock is taken, is the entry invalidated; no buffered record is affected; it succeeds exactly if the lock is free |
| EngineThread.Engine.IterateRing | src/engine.cc:424-466 | the entry of a ring is invalidated if and only if the ring is an orphan at the first test, empty at the second, and the lock is free; nothing read is lost |
| Abandoned.KillDecides | src/engine.cc:270-286 | killing a ring whose delivered records are committed can lose a published record if and only if it is not empty at the lock, or is held and has a usable slot |
| Abandoned.FoundAgain | src/engine.cc:463-465 | from an empty orphan, other threads can reach a state in which it is an orphan again and holds an undelivered record |
| Abandoned.StaysOutOfReach | include/hogl/detail/ringbuf.hpp:369-376 | a ring that is in nobody's hands and not in the map is changed by no step of any thread and never comes back |
| Effects.EmptyIsDelivered | src/engine.cc:465 | for a ring that tests empty the delivered records are exactly the published ones |
| Effects.RingKnown | src/engine.cc:424-466 | every ring the engine follows through a valid entry is registered, alive and referenced |
| EngineThread.Engine.CommitAll | src/engine.cc:474-486 | afterwards every head stands exactly past the delivered records of its ring and no entry is in flight |
| EngineThread.Engine.ProcessRingsTso | src/engine.cc:424-487 | a poll keeps all invariants, sees everything that was in the rings when it began, delivers all it saw but at most an eighth of the capacity, and, if nothing is published during it, leaves exactly the leftover undelivered, and nothing at all if no more was undelivered before than the last poll left |
| Effects.PollProgress | src/engine.cc:408-421 | of what an indexed ring held before a poll, at most the leftover is undelivered after it |
| EngineThread.Engine.RebuildRingIndex | src/engine.cc:199-241 | the index becomes exactly one entry per registered ring, none before one of higher priority, with the old expected sequence numbers, and is no longer dirty |
| EngineThread.Engine.RefreshIndex | src/engine.cc:519-528 | a dirty index is rebuilt from the map as it is at the lock if the lock is free, with other threads running, and nothing else happens otherwise; rebuilt or settled, every registered ring is indexed |
| EngineThread.Engine.ProcessRings | src/engine.cc:515-538 | one turn of the loop, rebuilding a dirty index when the lock is free, keeps all invariants and the promises of the poll; what any ring registered at the lock held then is seen by this very poll and delivered but for at most the leftover |
| EngineThread.Engine.EndOthers | src/engine.cc:580-582 | the step to a process in which only the engine runs keeps all invariants and whatever references are still held |
| EngineThread.Engine.DrainInVain | src/engine.cc:540-553 | a ring that somebody who has ended still holds is still registered and indexed after any number of turns, so that the loop never ends |
| EngineThread.Engine.DrainRings | src/engine.cc:540-553 | with no other threads and no outside holders the drain ends within four polls, every record of every registered ring delivered, no ring left in map or index |
| History.NormalPollSound | src/engine.cc:408-421 | a poll whose buffer did not fill delivers in timestamp order, and nothing it saw and kept is older than what it delivered |
| History.TimeOrder | src/engine.cc:448-455 | if the buffer never fills, ring timestamps start above zero and strictly increase, and nothing is published later that is older than what was delivered, the whole run's deliveries are in timestamp order |
| Guarantees.ExactlyOnce | src/engine.cc:352-487 | what was delivered from a ring is a prefix of what was published to it, each record exactly once and in order, over any number of polls and emergency flushes |
| Guarantees.DeliveredAsPosted | src/engine.cc:352-382 | every record delivered from an added ring is what one of the posts into it has passed |
| Guarantees.OutputIsPublished | src/engine.cc:305-311 | the output lines of a ring are the regular records of that prefix |
| Guarantees.OrderedLines | src/engine.cc:305-311 | if the deliveries are in timestamp order, then so are the record lines of the output |
| Guarantees.FlushGuarantee | src/flush.cc:56-81 | the polled ack word reads as acked if and only if that very record has been through flush_record, and then all records published before it have been delivered |
| DropCounts.DropShare | src/engine.cc:366-373 | a ring's counted drops are never fewer than the sequence numbers taken but not published below the last delivered one, and exactly those if it never came back after an absence; once everything taken is delivered, the full-ring drops plus the timed-out flushes |
| DropCounts.ReturningRing | src/engine.cc:366-373 | the drop count of an indexed ring that has delivered since it came into the index is too high by exactly what it had accounted for before, and right if and only if that was nothing |
| DropCounts.KilledAndBack | src/engine.cc:218-227 | a ring that is killed, released and registered again comes into the next index with expected sequence number 0, whatever it had accounted for |
| DropCounts.Miscounted | src/engine.cc:366-373 | a state that keeps every invariant, with one drop counted and no sequence number skipped |
| DropCounts.Conservation | src/engine.cc:372-376 | recs_out + recs_dropped is the sum over all rings of the number after the last delivered one, plus the excess of rings that came back, which is zero for all others |
| EngineRuns.RunEngine | src/engine.cc:564-585 | from start-up, after any polls with any interference, the end of the other threads and the drain: the output shows a prefix of each ring in order, each record as some post has passed it, and is in time order under the stated conditions, and if nobody still holds a registered ring the drain ends with everything ever published to those rings delivered and written, else a ring is still registered however many turns it makes |
| Decimal.U64tod | include/hogl/detail/ntos.hpp:61-77 | writes the decimal digits, zero-padded to at most 32, and nothing else |
| Decimal.DigitsRead | include/hogl/detail/ntos.hpp:61-77 | the digits printed read back as the number, without leading zeros |
| Decimal.PaddedReads | include/hogl/detail/ntos.hpp:61-77 | so they do when padded |
| TimestampCache.PrintedReads | include/hogl/format-basic.hpp:68-87 | the timestamp text is 21 characters long and its two parts read back as the timestamp |
| TimestampCache.PaddedSplit | include/hogl/format-basic.hpp:68-77 | printing the high and the low digits side by side prints the whole number |
| TimestampCache.TsCache.constructor | include/hogl/format-basic.hpp:83-87 | the fresh cache shows timestamp zero |
| TimestampCache.TsCache.Update | src/format-basic.cc:333-354 | after any history of updates the text is that of the last timestamp printed directly |
| ArgTypes.SetThenGet | include/hogl/detail/record.hpp:88-100 | setting one argument's type bits leaves the others and gives an untyped argument its type |
| ArgTypes.ClearThenGet | include/hogl/detail/record.hpp:106-110 | clearing removes one type and nothing else |
| ArgTypes.TypeCountIs | include/hogl/detail/argpack.hpp:58-64 | nargs() is the number of arguments when types fill the low places |
| Arguments.StoredString | include/hogl/detail/record.hpp:187-213 | a stored string is whole if it fits with its terminator, else cut to the room, ending in the marker when there is room for one; it is terminated if and only if it is not empty and there is room |
| Arguments.StoredDump | include/hogl/detail/record.hpp:243-261 | a stored dump is its format and as much data as fits; it is left out if and only if the format does not fit or the 32-bit length wraps |
| Arguments.StoredRaw | include/hogl/detail/record.hpp:223-232 | stored raw data is as many of the source bytes as fit |
| Arguments.PieceAsPassed | include/hogl/detail/record.hpp:187-261 | for all three kinds of data, what is stored is the caller's own bytes, all of them if they fit, else cut to the room with a string's marker |
| Packing.ArgumentLayout | include/hogl/detail/record.hpp:307-322 | whatever the list, data regions lie between the argument words and the tailroom, disjoint and in argument order |
| Packing.TypesStored | include/hogl/detail/record.hpp:318-320 | every argument's type reads back as passed |
| Overlaps.HoldsKept | include/hogl/detail/record.hpp:307-322 | for a list with its contents, an argument's accessor finds what was stored if and only if nothing else was written over its word or its data later |
| Overlaps.StoredIff | include/hogl/detail/record.hpp:307-322 | for any types, lengths and tailroom, gaps or not, an argument is found as passed for all contents if and only if it is safe: what is written over it later is in each byte fixed and the same |
| Overlaps.GapFreeSafe | include/hogl/detail/record.hpp:307-322 | every argument of a list without gaps is safe |
| Overlaps.NumbersSafe | include/hogl/detail/record.hpp:307-322 | every argument of a list without data arguments is safe |
| Overlaps.ArgumentsStored | include/hogl/detail/record.hpp:270-322 | every typed accessor of a safe argument returns what was passed, for data the caller's own bytes, cut only where the room ends |
| Overlaps.TerminatedIff | include/hogl/detail/record.hpp:187-213 | a string of a list is terminated if and only if it is not empty and the arguments before it have left any room, and is offset and length zero otherwise |
| Overlaps.NoRoomLeft | include/hogl/detail/record.hpp:189-193 | a list without gaps in which a non-empty string gets no terminator |
| ArgPacks.TwoPathsAgree | include/hogl/detail/record.hpp:328-350 | a record filled through an argpack has the same type word and the same value through every accessor as one filled directly |
| ArgPacks.PackedStored | include/hogl/detail/record.hpp:328-350 | by way of an argpack every accessor returns what was passed, for lists with gaps too |
| ArgPacks.GapOverwrites | include/hogl/detail/record.hpp:307-322 | a list with a gap whose string is overwritten by its own descriptor, so that it is not safe |
| ArgPacks.MeetingSafe | include/hogl/detail/record.hpp:307-322 | a list in which data meets a word and every argument is safe all the same |
| RecordBuffers.ArgPack.Populate | include/hogl/detail/argpack.hpp:129-162 | whatever the pack held before, it holds the list afterwards |
| RecordBuffers.RecordBuf.CopyCstr | include/hogl/detail/record.hpp:187-213 | writes exactly the specified piece and descriptor and reports the bytes used |
| RecordBuffers.RecordBuf.CopyData | include/hogl/detail/record.hpp:223-232 | the same for raw data, cut silently |
| RecordBuffers.RecordBuf.CopyXdump | include/hogl/detail/record.hpp:243-261 | the same for a dump with its format in front, with the 32-bit length |
| RecordBuffers.RecordBuf.SetArgs | include/hogl/detail/record.hpp:307-322 | the record's memory is that of the specified stores one after the other |
| RecordBuffers.RecordBuf.SetArgsPacked | include/hogl/detail/record.hpp:328-350 | the same for a pack |
| RawFormat.DecodeDecides | src/format-raw.cc:109-129 | parsing a printed record followed by anything yields its normal form and stops at its end if and only if its names are valid; otherwise it fails |
| RawFormat.DecodeMore | tools/raw-parser.cc:185-208 | a recognised record stays recognised whatever follows |
| RawFormat.CutShort | tools/raw-parser.cc:185-197 | a record cut short is the end of the stream if cut within its timestamp and a failure otherwise, never a record |
| RawFormat.RemapTypes | tools/raw-parser.cc:84-89 | the parser changes the types of static strings to plain ones and no others |
| RawStreams.WholeIsMost | tools/raw-parser.cc:185-208 | the number of wholly present records is the largest that fits |
| RawStreams.ReadTruncated | tools/raw-parser.cc:185-208 | from any truncation exactly the wholly present records come back, and failure is reported if and only if eight or more bytes are left over |
| RawStreams.ReadBack | src/format-raw.cc:109-129 | the whole stream comes back in normal form and ends without failure |
| RawPackers.OstrBuf.PushBack | include/hogl/detail/ostrbuf.hpp:134-139 | with any capacity, zero included, everything pushed reaches the stream once and in order |
| RawPackers.OstrBuf.DoFlush | src/ostrbuf-fd.cc:40-69 | buffered data goes out before new data and the buffer is empty afterwards |
| RawPackers.RawPacker.AddArgs | src/format-raw.cc:66-104 | appends the type word and the arguments up to the first missing one |
| RawPackers.RawPacker.Pack | src/format-raw.cc:109-129 | appends the specified encoding of the record, with placeholder names when it has no area or section |
| ReadBuffers.FileRdbuf.Read | tools/rdbuf.cc:124-133 | with any buffer capacity and any chunks, the caller gets the next bytes of the file once and in order, and true if and only if there were enough |
| RawParsers.CheckName | tools/raw-parser.cc:159-170 | accepts a C string exactly if it is 2 to 128 printable characters |
| RawParsers.RecordSays | tools/raw-parser.cc:66-115 | parsed arguments read back from the record's memory through its accessors as they were parsed |
| RawReaders.RawParser.ReadStr | tools/raw-parser.hpp:109-119 | stores exactly the blob and a terminator behind it, or fails |
| RawReaders.RawParser.ReadArgs | tools/raw-parser.cc:66-115 | takes from the input exactly what the format says and leaves a record that says so |
| RawReaders.RawParser.Next | tools/raw-parser.cc:185-208 | returns the next record of the format, the end, or a failure, as specified on the unread bytes; a failed parser only forgets its failure |
| RawReaders.RawParser.ReadAll | tools/raw-parser.cc:185-208 | repeated next() yields the records of the remaining stream |
| EndToEnd.IntendedSays | include/hogl/detail/record.hpp:307-322 | the record that set_args leaves is, to the packer, the record that was posted |
| EndToEnd.CStringIs | src/format-raw.cc:88-92 | a static string is printed from its address up to its first zero byte |
| EndToEnd.ReadBackSays | tools/raw-parser.cc:66-208 | what is read back has the timestamp, ring, area and section names and sequence number of what was posted, and its arguments are the caller's values and bytes, cut to the room and the length field |
| Fitting.FitsWhen | tools/raw-parser.cc:185-208 | a stream, wherever it is cut, needs no larger record buffer than its largest record |
| EndToEnd.FileFits | tools/raw-parser.cc:185-208 | so a buffer that holds each posted record's data behind the argument words is large enough |
| EndToEnd.WriteThenRead | src/format-raw.cc:109-129 | for any argument lists, gaps included, whose arguments in front of the first missing one are safe: posting, printing through any output buffer, cutting the file anywhere and parsing it through any read buffer and chunks returns exactly the records wholly contained in the cut, in normal form and order, each saying what was posted |

## Left out

- DrainRings: terminates with all other threads ended and no reference held outside the engine; with one still held the source loops for ever, which is `DrainInVain`.
- ProcessRings: requires a buffer capacity of at least two, since the emergency flush makes no room in a buffer of one.
- RunEngine: other threads end before the drain begins, with their add_ring calls finished; a drain beside running threads is not part of this model.
- WriteThenRead: takes lists whose arguments in front of the first missing one are safe (`StoredIff`), valid names, and records that fit the parser's record buffer (`FileFits`).
- Read: the input never fails and does not follow a growing file (the tail mode with inotify).
- DoFlush: the underlying write succeeds and is complete; failed streams are not part of this model.
- SetArgsPacked: needs room for the argument words in front of data arguments, as `SetArgs` does.
- SetArgs: needs room for the argument words in front of data arguments, which every ring provides; the 32-bit subtraction that would wrap otherwise is not followed.
- PushCommit: one test of the waiting loop of a blocking ring; the condition variable and its possible missed wake-up are not part of this model.
- Polling without timestamp ordering (the DISABLE_TSO feature), which hands every record straight to flush_record.
- The effect of a timesource switch on later timestamps, and the clocks themselves.
- `ringbuf::reset`, thread-local rings, and the reuse rules of `add_ring` for shared and reusable rings beyond taking or dropping the reference.
- The 32-bit pointer variants of argument storage and the timespec form of timestamps.
- The V1 compatibility decoding with 16-bit blob lengths, which is not the inverse of the packer.
- The text formats, the bundled formatting library, masks, areas' bitmaps, output files and rotation, scheduling parameters, the C interface, coredump recovery and the command-line tools.
- Memory barriers and weaker memory models.
