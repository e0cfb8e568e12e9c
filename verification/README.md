# A verified model of tario

tario reads and writes TAR archives in the ustar format (the "ustar Interchange Format" of the pax
utility, IEEE Std 1003.1-2017) over asynchronous I/O objects. This project models its engine and
proves that what is written is the reference encoding, that reading inverts it, and what happens
on every short write, wait, failure and early end of data in between.

Check it with `dafny verify dfyconfig.toml`.

## How it is laid out

| file | what it holds |
|---|---|
| `Bytes.dfy`, `Format.dfy` | bytes, slices, zero runs; header blocks, entries, the encoding of entries |
| `Automaton.dfy` | the nine-state byte-stream automaton shared by reader and writer, its two loops |
| `Position.dfy` | cursors: an automaton state together with the bytes that led to it |
| `Grammar.dfy` | the language of archives, its unambiguity, and exactness of the automaton |
| `Reachability.dfy` | the bytes read determine the position, and the automaton reaches it |
| `Buffer.dfy`, `Slices.dfy`, `Iterators.dfy` | the two-cursor buffer, splitting of slice arrays, the byte-count iterators |
| `Io.dfy` | sinks and sources driven by an arbitrary schedule of events |
| `Outcomes.dfy` | what becomes of bytes on the way through the write buffer to the sink, as functions of the schedule |
| `WriterSteps.dfy`, `Writer.dfy` | the resumable write engine |
| `ReaderSteps.dfy`, `Reader.dfy` | the peek-and-commit read engine |
| `ReferenceEncoding.dfy` | the encoding the library's tests compare with |
| `WriteClient.dfy`, `ReadClient.dfy` | clients: refinement, round trip, truncation, ways of leaving an entry |
| `WriteRuns.dfy`, `ReadRuns.dfy` | safety over runs of arbitrary operations, with a record of what was handed over |

The two ideas everything rests on:

* **Cursors.** The automaton keeps counters only. A `Cursor` also remembers the entries that are
  complete and the bytes of the current one; `Text` gives the whole stream back and `StateAt` the
  automaton state. Every transition is shown to be a move of the cursor that appends exactly the
  bytes read; `take_marker` (src/shared/state.rs:92-98) is a transition over no bytes. The writer's
  invariant is then `Text(cur) == sink ++ buffered`, the reader's is
  `Text(cur) == data[..pulled - buffered]`, and both include `state == StateAt(cur)`.
* **Unambiguity.** A cursor whose text does not contradict a stream of entries lies inside that
  stream (`Grammar.Located`). Grammar exactness, the round trip and truncation all follow from it.
  Two cursors with the same text differ by steps that read nothing (`Reachability.TextDetermines`),
  so the state in both invariants is the one a run over the bytes ends in.

Each poll consumes events of a schedule, an arbitrary function from the event number to "move up to
n bytes", "not ready" or "failure". A statement about a sink or a source thus holds for every split
into short transfers and for every timing. The outcome of every write is a function of the schedule
and of the queue in front of the sink (`Outcomes.Handed`), so it can be told before a call whether
any sink can make it go wrong. A header block's size field and its checksum test are two
arbitrary functions of the block (`Format.Format`), so results hold for any header format.

## What the environment has to provide

* `usize` is 64 bits wide and sizes are at most 2^64 - 512 (`Format.EntrySize`), so no counter wraps.
  The capacity is a positive number of blocks (src/lib.rs:131-135).
* The same header is supplied throughout an entry. The model is the release build. In debug builds
  two assertions are checked when a write completes an entry: src/write/mod.rs:86 stops a caller that
  offered more than what was left of it, of which the release build takes the part that fits, and
  src/write/mod.rs:89 panics if the alignment failed.
* A source read of 0 bytes means the end (`Io.NeverZero`), which is the contract of a reader.
* To get every header right, source reads return whole blocks, except the last one before the end
  (`Io.WholeBlocks`). The header is sliced from the front of the buffer (src/read/mod.rs:57-60)
  although part of it may have been consumed before. Everything else holds of any reads, and
  `Reader.ArchiveReader.PollNextEntry` says what it answers when a refill splits a header: a block
  that lies as many bytes later as were consumed is taken for the header.
  How many those are is decided before the call by the schedule and by how far the data was pulled.
  `ReaderSteps.SplitHeader` says exactly when that block exists and when it is the header.
* A header is written partially only if a block passes through the buffer, which takes a buffer of
  one block and a sink that takes slices. Then its first byte must not be zero;
  `WriterSteps.ResumableHeaders` shows this to be exactly what resuming needs.
* `finish` is polled where its loop (src/write/mod.rs:150-178) ends. This is no assumption about runs
  and clients, which give a poll of it up after any number of rounds. Header and flush report a write
  of 0 bytes as WriteZero; `finish` tries again.
* A reader stops reading an entry when a read returns nothing.

## Where the code and its comments differ

The model follows the code.

* src/write/mod.rs:88: Pending is reported after the bytes of a write were taken, if the alignment
  then has to wait. A failure of the alignment is not reported at all. The outcome of a write is a
  function of the schedule and of the queue before it (`Outcomes.EntryOutcome`), and
  `Outcomes.AlignmentReliable` says when a caller is safe from either whatever the sink does: if and
  only if the alignment fits the room that the bytes leave, or the bytes are buffered but more than a
  buffer takes. `WriteClient.PendingAfterTaking` is an instance.
* src/write/mod.rs:255-262: neither a wait nor an error of the write of the remainder is reported,
  because data was already written. If no slice is whole nothing was, and a wait or an error is
  answered with 0 bytes written, which callers take for a sink that accepts nothing.
  `Outcomes.NothingTaken` has the exact condition on a live sink, `Outcomes.ProgressReliable` the one
  a caller can check: this never happens if and only if some slice is whole or the bytes do not pass
  through. `Slices.NothingWhole` reads this off the slices: the first that is not empty is longer than
  what the entry still takes. `WriteClient.WaitReportedAsNothing` is an instance.
* src/write/mod.rs:149-179: `finish` need not end. On a sink that takes slices, with a buffer of one
  block, a zero block that is not accepted is offered again at once, for ever if the sink accepts
  nothing any more, as a full cursor does. `Outcomes.FinishReliable`: no sink can make it run for
  ever if and only if blocks go through the buffer or no whole zero block is missing any more;
  `Outcomes.EndsIfMoves`: on any one sink it only does if that accepts nothing from some event on.
  `WriteClient.NeverFinished` is an instance.
* src/read/mod.rs:57-60: after a read that split a header, a wrong header is handed out if the block
  behind it passes for one. `ReadClient.WrongHeader` is an instance.
* src/lib.rs:260-262 offers `skip` for any entry. On a fresh empty entry the assertion at
  src/read/mod.rs:142 fails; this is the only case in which it does (`Reader.ArchiveReader.PollSkip`).
  Asking for the next entry from there panics as well (src/read/mod.rs:80-82, by
  `ReaderSteps.PeekInEntry`), although nothing is left to consume: an empty entry is left by a read.
* src/read/mod.rs:216-218: a header with a good checksum and a size that does not decode makes the
  `unwrap` fail. `ReaderSteps.NextResult` has this case as `Failed(Panic)`; as long as no refill
  splits a header, no other input panics.
* src/shared/slices.rs:124-140: the suffix of a split prefix leaves out the remainder unless the cut
  is in it. `Slices.PrefixSplitAtByteOffset` states the exact condition,
  `Slices.SuffixDropsRemainder` is an instance. The library only uses the prefix half.

## Model

| member | source | states |
|---|---|---|
| Automaton.Next | src/shared/state.rs:172-281 | one transition never reads more than it is given, and if it reads nothing of a non-empty buffer the marker rank drops |
| Automaton.TakeUntil | src/shared/state.rs:141-165 | the loop ends on every buffer and equals the recursive run over it |
| Automaton.TakeSlices | src/shared/state.rs:104-136 | chunking invariance: for any list of slices, empty ones included, state, byte count and error are those of one run over the concatenation |
| Automaton.NextSplits | src/shared/state.rs:172-281 | a longer buffer either gives the same step, or the step over the front followed by one over the back inside the same non-marker state |
| Automaton.RunSplits | src/shared/state.rs:104-165 | a run over two non-empty buffers is the run over the first and then, unless it failed or stopped, over the second |
| Automaton.ReplayIsSafe | src/write/mod.rs:226-282 | if all of `w` is read, every prefix of `w` is read in full without error, and the rest resumes from there to the same state |
| Automaton.RunStops | src/shared/state.rs:104-165 | a run never goes on past a complete header, nor past the second zero block |
| Automaton.ReplayNext | src/read/mod.rs:191-197 | a step repeated over just the bytes it read is the same step |
| Position.NextTracks | src/shared/state.rs:172-281 | every transition is a move of the cursor: the new position is well formed, has the new state, and its text is the old text and the bytes read |
| Position.RunTracks | src/shared/state.rs:104-165 | the same for a whole run |
| Position.BlockAlignment | src/shared/state.rs:187-274 | in every reachable state the offset plus the counter ends a block (for data, plus the alignment to come), counters are in range, and complete archives are whole blocks |
| Position.AtMostSixIdleSteps | src/shared/state.rs:151-162 | from a reachable state at most six consecutive steps read nothing, and an empty entry takes six |
| Grammar.Located | src/shared/state.rs:172-281 | unambiguity: a position whose text agrees with a stream of entries lies in that stream, with the same complete entries, the same header and a prefix of the same data |
| Grammar.DriveFollows | src/shared/state.rs:172-281 | a run over a whole stream, headers supplied as they are received, ends at the position of the bytes read; if it fails, at a position that explains the error |
| Grammar.VerdictAfterZeroBlock | src/shared/state.rs:253-273 | after the entries and a zero block, the verdict is rejection, acceptance or an error past the end, decided by the following bytes alone |
| Grammar.VerdictIsExact | src/shared/state.rs:172-281 | grammar exactness: ReceivedEof at the end of a stream if and only if it is an archive; each error if and only if the stream has the shape that deserves it |
| Slices.FindOffset | src/shared/slices.rs:25-38 | the slice holding the byte at an offset, and where in it |
| Slices.SplitBytes | src/shared/slices.rs:74-88 | a split inside a slice loses and adds nothing, and its prefix has the length asked for |
| Slices.SplitAtByteOffset | src/shared/slices.rs:25-41 | prefix and suffix are the whole, the prefix is its first min(offset, total) bytes, and its slices are leading slices of the array |
| Slices.PrefixSplitAtByteOffset | src/shared/slices.rs:111-142 | the prefix half is right for every offset; the two halves are the whole if and only if there is no remainder or the cut does not come before it |
| Slices.SuffixDropsRemainder | src/shared/slices.rs:124-140 | an instance in which the suffix half loses bytes |
| Slices.TakePrefix | src/shared/slices.rs:48-51 | the first min(len, total) bytes; everything, uncut, if len covers it |
| Slices.NothingWhole | src/shared/slices.rs:25-51 | no slice of a prefix that is not empty is whole if and only if the first slice that is not empty is longer than the prefix |
| Iterators.TakeBytesLen.Next | src/shared/slices.rs:268-296 | yields the next of the bytes still due, and nothing only when none are due |
| Iterators.SkipBytesLen.Next | src/shared/slices.rs:298-332 | the same for the bytes after the ones to skip |
| Iterators.TakeThenSkip | src/shared/slices.rs:268-332 | for every n and list of buffers the two iterators are complementary |
| Buffer.Buf.Fill | src/shared/buffer.rs:140-148 | appends the longest prefix of the slice that fits |
| Buffer.Buf.FillFromSlices | src/shared/buffer.rs:151-156 | appends exactly the longest fitting prefix of the concatenated slices |
| Buffer.Buf.CommitRead | src/shared/buffer.rs:116-119 | takes bytes from the front of the queue |
| Buffer.Buf.CommitWrite | src/shared/buffer.rs:116-119 | admits bytes placed in the free space at the back of the queue |
| Buffer.Buf.Clear | src/shared/buffer.rs:44-47 | empties the queue and frees the whole capacity |
| Writer.ArchiveWriter.constructor | src/lib.rs:131-142 | the stream invariant holds of a new archive |
| Writer.ArchiveWriter.PollFlushBuffered | src/write/mod.rs:183-203 | whatever happens, sink ++ buffered stays the same; the answer, the number of events and what is left are those of sending the queue by the schedule, and when ready, nothing is buffered |
| Writer.ArchiveWriter.PassThrough | src/write/mod.rs:250-264 | what moved is a prefix of the slices; the answer is spelled out from two events: the slices at one and, if they were taken whole, the remainder at the next, whose wait or failure is not reported even if nothing was written before |
| Writer.ArchiveWriter.Transfer | src/write/mod.rs:233-268 | the stream grows by a prefix of the bytes, none if not ready; bytes that fit are taken whole without asking the sink, and before any others are taken everything accepted earlier has reached the sink, which then gets them itself or of which exactly min(bytes, capacity) are buffered; the outcome is decided by the schedule and the queue before |
| Writer.ArchiveWriter.Advance | src/write/mod.rs:270-282 | after a short write the replayed state is that of the bytes accepted; its `expect` and assertion hold |
| Writer.ArchiveWriter.PollWriteVectored | src/write/mod.rs:216-285 | invalid bytes are refused and nothing changes; otherwise stream, state and position advance by exactly the bytes accepted, as many and in the order `Transfer` says |
| Writer.ArchiveWriter.PollWriteHeader | src/write/mod.rs:18-65 | when ready, exactly the header was added, also when resumed at any byte; OverlappingEntry if and only if an entry is open; a decode error if and only if the size does not decode; answer, events and queue are those the schedule decides, for a fresh header and for one resumed anywhere |
| Writer.ArchiveWriter.PollFinishEntry | src/write/mod.rs:107-147 | when ready, the entry is complete with its zero alignment; otherwise it waits before the alignment, which did not fit the buffer; which of the two is decided by the schedule and the queue |
| Writer.ArchiveWriter.PollWriteEntry | src/write/mod.rs:67-105 | what each outcome means for the entry, and which outcome every schedule gives for every queue: also when it is Pending although the bytes were taken, success although the alignment failed, and 0 although there were bytes and the sink is live; bytes that fit are taken whole, and of bytes that need a flush exactly min(bytes, capacity) are taken, after everything before them has reached the sink |
| Outcomes.BufferedWrite | src/write/mod.rs:239-248 | what `Handed` means for bytes that go through the buffer: those that fit need no event; any others are ready exactly if the queue can be sent, and then fill an empty buffer as far as they go |
| Outcomes.PassedWrite | src/write/mod.rs:250-264 | bytes that pass through are all taken if the sink takes the slices at one event and the remainder at the next |
| Outcomes.HeaderMeans | src/write/mod.rs:28-46 | what becomes of a header for each event: it is queued if it fits, queued after the queue was sent if not, and if it passes through, the part the sink does not take at one event is queued; a transfer of nothing is WriteZero |
| Outcomes.AlignmentReliable | src/write/mod.rs:85-92 | no sink makes a write Pending after its bytes were taken, or hides a failure of the alignment, if and only if the alignment fits the room left after the bytes, or they are buffered but exceed the buffer |
| Outcomes.AlignmentUnreliable | src/write/mod.rs:85-92 | in every other case a sink that takes the queue and then waits, or then fails, does it |
| Outcomes.AlignmentFits | src/write/mod.rs:85-92 | if the alignment fits, it is neither waited for nor failed, for every schedule |
| Outcomes.NothingTaken | src/write/mod.rs:250-264 | on a sink that never accepts nothing, a write of some bytes is answered with 0 if and only if they pass through, no slice of them is whole, the queue is sent, and then an event that moves is followed by one that does not |
| Outcomes.ProgressReliable | src/write/mod.rs:250-264 | no such sink causes this if and only if some slice is whole or the bytes do not pass through |
| Outcomes.FinishReliable | src/write/mod.rs:149-179 | no sink makes the loop of `finish` run for ever if and only if a block does not pass through or fewer than 512 zeros are missing |
| Outcomes.EndsIfMoves | src/write/mod.rs:149-179 | the loop ends on every sink that does not accept nothing for ever |
| Outcomes.SameAnswer | src/write/mod.rs:149-179 | once it has answered, more rounds change nothing |
| Writer.ArchiveWriter.PollFinish | src/write/mod.rs:149-179 | where the loop ends, its answer is the one of its rounds; when ready, the sink has the archive of the complete entries, nothing is buffered, and the sink was shut down after its last byte; once both zero blocks were sent, the answer is that of the shutdown at one event |
| Writer.ArchiveWriter.FinishFor | src/write/mod.rs:149-179 | after any number of rounds, on any sink, there is an answer if and only if the rounds give one, and the stream, which never shrinks, is that of the same entries; when ready, the sink was shut down after its last byte, and once both zero blocks were sent the answer is that of the shutdown at one event |
| Writer.ArchiveWriter.PollFlush | src/write/mod.rs:287-290 | when ready, the sink has the whole accepted stream and was flushed after its last byte; answer and events are those of sending the queue and of one more event, which alone decides if nothing is queued |
| Writer.ArchiveWriter.PollShutdown | src/write/mod.rs:320-328 | when ready, the entry is finished, the sink has it, and the sink was flushed after its last byte; answer and events are those of the alignment, the queue and the flush of the sink, one after the other |
| WriterSteps.ResumableHeaders | src/write/mod.rs:38-62 | every partial write of a header leaves a state from which it is resumed if and only if its first byte is not zero |
| WriterSteps.HeaderPart | src/write/mod.rs:29-46 | a header resumed at 512 - rem is valid up to any byte and leads exactly that far |
| WriterSteps.HeaderProgress | src/write/mod.rs:29-46 | a part of a header that is not all zeros leaves a state that resumes it, and every byte brings it nearer its end |
| WriterSteps.TrailerPart | src/write/mod.rs:152-162 | any of the zeros due are valid and bring the trailer nearer its end |
| WriteClient.SendData | src/write/mod.rs:298-314 | data cut into any writes and slices is all in the stream when the client is done; on a sink that always accepts something, one poll a byte and one more are enough |
| WriteClient.WriteArchive | src/write/tests.rs:11-24 | writer refinement: for all files, plans of writes and slices, capacities, sinks and schedules, whether entries are shut down or left queued, and however long `finish` is waited for, a client that finishes has written exactly the reference encoding and the sink was shut down after it, and on a sink that always accepts something it finishes |
| WriteClient.PendingAfterTaking | src/write/mod.rs:85-92 | an instance, with a flush first, of a write that is Pending although its bytes were taken |
| WriteClient.WaitReportedAsNothing | src/write/mod.rs:255-262 | an instance of a write that is answered with 0 because a live sink has to be waited for |
| WriteClient.NeverFinished | src/write/mod.rs:149-179 | an instance in which `finish` has not ended after any number of rounds |
| WriteRuns.AnyWriteRun | src/write/mod.rs:17-333 | any sequence of polls on any sink, waits, failures and a `finish` that does not end included, step by step: every poll the library allows is made and has an answer that its events account for; nothing is taken back; sink ++ buffered is always the text of a well-formed position with zero alignment, whose entries are the headers and bytes handed over by the answers; a complete and flushed stream is the reference encoding of them and an archive the automaton accepts; the client's count of the data is short by exactly the bytes taken under Pending |
| WriteRuns.PollOnce | src/write/mod.rs:17-333 | one such poll has an answer if and only if it is allowed (and for `finish`, if the rounds are enough), never takes back a byte or an entry, and adds to the files exactly the header or the bytes that its operation and answer say; the answer, events and queue of every operation are decided before it, and so is whether a write hides what it took; closing and flushing are only ready after the sink was flushed, and finishing after it was shut down, behind its last byte |
| WriteRuns.AllowedUnlessPanic | src/write/mod.rs:17-333 | a poll is allowed exactly if the operation does not panic in the state, and for a header, if it is the one begun and can be resumed |
| WriteRuns.Accounts | src/write/mod.rs:85-92 | the record by the answers alone falls short of the files handed over by exactly the bytes taken under Pending, and equals them if and only if there were none; `AnyWriteRun` states it of the writer |
| ReadRuns.AnyReadRun | src/read/mod.rs:20-292 | any sequence of polls over an archive, cut off or followed by anything, in which headers may fail the checksum test, reads into a buffer, of the buffered bytes with partial consumption, and skips, step by step: every poll the library allows is made and has an answer that its events account for; the reader stays synchronised and what the answers handed out is the headers in order, none from the first bad one on, each with a prefix of its data; a failure is one of the source, of short data, of the first bad header, which was reached, or of skipping an empty entry, and the end is reported only of a complete archive of good headers |
| ReadRuns.PollOnce | src/read/mod.rs:20-292 | one such poll, on any data, has an answer if and only if it is allowed, keeps the record of what was handed out in step with the position, answers a request for the next entry as the data calls for, hands out only valid headers, gives as much data as there is room for, as is due, or as was pulled, and waits or fails only as the data or, once all that was pulled is consumed, the source calls for |
| ReadRuns.AllowedUnlessPanic | src/read/mod.rs:40-130 | a poll is allowed exactly if the state that its first look ahead finds does not make it panic |
| Reachability.TextDetermines | src/shared/state.rs:172-281 | two positions with the same text lead to the same position by steps that read nothing |
| Reachability.RunReaches | src/shared/state.rs:172-281 | the automaton run over the text of any position does not fail and ends there, up to such steps |
| ReferenceEncoding.ReferenceIsArchive | src/shared/test.rs:3-42 | the reference encoding is the archive of the entries with zero alignment |
| ReferenceEncoding.NextIn | src/read/mod.rs:40-87 | what asking for the next entry must answer at each entry of an archive that may be cut off or followed by anything: its header if that is whole and valid, InvalidHeader if it is whole and not valid, the end, or UnexpectedEof |
| ReaderSteps.NextResultMeans | src/read/mod.rs:40-87 | on any data, each answer of the reader in both directions: a header is handed out exactly if the whole block is not all zeros, passes the checksum test and has a size; InvalidHeader exactly if it is not all zeros and fails the test; and so on for the trailer and the end |
| ReferenceEncoding.FailureIn | src/read/mod.rs:56-60 | in an archive only an early end of the data or the first bad header can stop a reader, the latter exactly when all entries before it were passed |
| Reader.ArchiveReader.constructor | src/lib.rs:131-142 | synchronisation holds of a new archive, for any reads, and the alignment of reads if the source keeps to it |
| Reader.ArchiveReader.PollFillBuf | src/read/mod.rs:150-176 | refills only an empty buffer, with its whole capacity; a read of nothing is the end of the data, and UnexpectedEof unless the archive is over |
| Reader.ArchiveReader.PollNextState | src/read/mod.rs:24-34 | a look ahead that changes neither position nor state |
| Reader.ArchiveReader.Replay | src/read/mod.rs:193-222 | replaying the look ahead cannot fail and reads every byte; with the right header only the size of a new header can make the eager transition fail |
| Reader.ArchiveReader.Consume | src/read/mod.rs:180-243 | with the right header the position moves by exactly the bytes consumed and the eager transition, and synchronisation and the reset of an empty buffer are kept; with another header the state is the one that header leads to |
| Reader.ArchiveReader.ReceiveHeader | src/read/mod.rs:56-64 | the header handed out is the block at the boundary, it passes the checksum test and has a size, or the matching failure; if part of the header was consumed before, the block is the one as many bytes later |
| ReaderSteps.FrontHeaderMeans | src/read/mod.rs:57-60 | what the block at the front of the buffer is taken for, in both directions: handed out exactly if it is whole, valid and has a size |
| Reader.ArchiveReader.PollNextEntry | src/read/mod.rs:40-87 | a decided answer is a function of the data and of the end of the entry before; a header handed out always passes the checksum test; it waits only after all that was pulled was consumed; None for ever after the end; if a refill split the header, the answer is decided by the bytes that lie `late` later, which is a function of the schedule and of how far the data was pulled before, and reads of whole blocks never split one |
| Reader.ArchiveReader.PollReadEntry | src/read/mod.rs:94-130 | returns all buffered data of the entry, never empty while data is due, and nothing only after the alignment; the source is only asked if nothing is buffered |
| Reader.ArchiveReader.PollRead | src/read/mod.rs:247-260 | delivers the next bytes of the entry: as many as there is room for, or all that are due, or all that are buffered; nothing only at its end; the source is asked at most once, and only if nothing is buffered |
| Reader.ArchiveReader.PollSkip | src/read/mod.rs:133-147 | when ready, the whole entry was passed; the assertion fails only on a fresh empty entry, which is never skipped |
| ReaderSteps.SplitHeader | src/read/mod.rs:56-60 | after `k` bytes of a header were consumed the block sliced at the front of the buffer exists if and only if `k` more bytes are buffered behind the header, and is the header for all such bytes if and only if `k` is 0 |
| ReadClient.WrongHeader | src/read/mod.rs:56-64 | an instance in which a good archive is answered with a wrong header |
| ReaderSteps.ResultAtBadTrailer | src/read/mod.rs:33 | a nonzero byte in the second trailer block is the answer ExpectingEmptyBlock |
| ReaderSteps.ResultAtEnd | src/read/mod.rs:164-170 | data that ends outside entry data and before the end of the archive is the answer UnexpectedEof |
| ReadClient.ReadArchive | src/read/tests.rs:54-66 | on any data: what was delivered is what the position says, an error is the one the data calls for, and enough polls on a source that always delivers something reach an end |
| ReadClient.ReadArchiveOf | src/read/tests.rs:148-171 | truncation and bad headers: if the first bad header is in the data the reader ends there with InvalidHeader, having delivered exactly the files before it; a cut archive ends in UnexpectedEof, having delivered the beginning of the files; a complete one of good headers, whatever follows it, gives all files; and nothing else can happen |
| ReadClient.RoundTrip | src/read/mod.rs:40-260 | for all files, schedules, capacities, plans and buffer sizes, with entries shut down or left queued, what is written and read back is unchanged and in order |
| ReadClient.AskAfterEnd | src/read/mod.rs:44-46 | past the end the answer is None any number of times, without asking the source |
| ReadClient.LeaveAndNext | src/read/mod.rs:40-147 | reading to the end, reading exactly the data, skipping, single reads, and any mixture of them lead to the same answer for the next entry, found at the same offset; if the data reaches that far and the source always delivers something, every way that reads the entry up or skips it gets there |

## Left out

- Tokio traits, `Pin`, `Context`, wakers, the lifetime transmute in `NextEntry`/`Entries`, and the
  `streams` feature: each poll is a method whose environment is the schedule.
- Fields, paths and checksums of headers: they are computed by the tar crate, which is not part of
  this model; a block stands for a header. The checks of `Entry::new` (src/lib.rs:216-223) are left out.
- src/shared/block.rs, accessors, error conversions, messages and tracing.
- Sizes within 511 of 2^64 and 32-bit `usize`.
- Writer.ArchiveWriter.PollWriteHeader: requires that the header resumed is the one begun, and a header that is not all zeros (a zero block is the trailer); if a block passes through, also a nonzero first byte. Calls in a state in which the source panics are excluded, as for the other operations of writer and reader.
- Writer.ArchiveWriter.PollFinish: requires that the loop ends, which is exactly when it answers; `Writer.ArchiveWriter.FinishFor` has no such requirement.
- Reader.ArchiveReader.PollNextEntry: after a split header was taken for another one only the state and the offset are stated, because the reader is out of step with the data from there on.
- WriteClient.SendData: a client that is told Pending after its bytes were taken stops writing and finishes the entry; repeating the write panics in the source.
- A client of `ReadRuns` that goes back to reading an entry after a skip of it was Pending.
- Using one archive both for reading and writing, and abandoning a header for another one midway.
