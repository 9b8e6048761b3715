# A verified model of IQLogger's state machines

IQLogger ships log records: inputs read files, sockets and datagrams, queues with a bounded
capacity carry the records on, and outputs send them to other systems. Most of it is glue around
libraries. The parts that carry invariants are modelled here in Dafny, in the form the program has
them: the objects whose fields change are classes, their loops are loops with invariants, and every
such method is proved equal to a function of the old state. The results about whole runs are lemmas
about these functions.

| files | what they model |
|---|---|
| `TailSplitter`, `TailLines`, `TailRecord`, `TailMonitor`, `SavePositions` | file tailing: splitting a file into messages, the record of one tailed file, the table of all of them, the durable store of offsets |
| `TailChunks`, `TailDelivery`, `TailCrashes`, `TailRotation` | what tailing delivers over every run: reads of any size, clean restarts, crashes at any point, renames |
| `GelfChunks`, `GelfReassembly`, `GelfDatagrams` | GELF over UDP: the receive buffer and chunk headers, the reassembly thread, its guarantees over every run, from the datagrams that are sent to the messages that come out |
| `HttpParser`, `HttpGrammar` | the incremental HTTP request parser, and the grammar it accepts (after sections 2.2, 3.1, 4.2 and 5.1 of RFC 1945) |
| `GelfTcp` | NUL-framed GELF over TCP: batching, resending, receiving |
| `MessageQueues`, `Pipeline`, `PipelineRuns`, `PipelineRefinement` | the bounded queue shared by several producers, the import and export loops, conservation through the whole pipeline, and why the loops are runs of it |
| `GelfMessages` | reading a GELF record from JSON and writing it out again |
| `Common` | bytes, options, concatenation, sums of multisets |

## Assumptions

- The regular expression engine is a function from the bytes of a chunk to the match positions it
  reports. Positions are ordered; only chunk invariance also asks that they are strictly increasing,
  that is, that the expression never matches the empty string.
- Files, datagrams, connections and the data directory are state that the environment changes:
  a file grows, shrinks or is renamed, a chunk arrives, a write delivers a part of its buffer, the
  process dies. A read may come up short (`readable` in `Record.Process`) and then leaves the stream
  failed; the theorems about whole runs assume that reads are complete.
- Handing a message to the input queue counts as delivering it, which is what a queue that
  throttles makes of it.
- A TCP write that reports success has reached the receiver; TCP itself can lose it when the
  connection breaks later.
- Every operation on the lock-free queue and on an entry of a concurrent table is one atomic step.
  The size of the queue is exact.
- A file is shorter than 2^63 bytes.

## Where the code is not what its promises suggest

Each of these is kept as it is and proved, with the exact condition under which the promise holds
and an input for which it does not.

- A regular expression match that straddles two reads is not seen: `TailSplitter.ChunkingHarmlessIff`,
  `TailSplitter.StraddlingMatchIsMissed`.
- Newline mode cuts a line at the end of a read: `TailLines.LineChunkingHarmlessIff`,
  `TailLines.BrokenLine`.
- Pending bytes survive a truncation of the file, and can make the saved offset negative:
  `TailDelivery.StartOverInStepIff`, `TailDelivery.NegativeOffsetAfterTruncation`.
- Initialisation deletes the saved offsets, so an incarnation that saves none loses them:
  `TailDelivery.ExactlyOnceIff`, `TailDelivery.RestartedTwice`.
- Two tailed files can share a saved offset: `SavePositions.SavedNamesCollideIff`,
  `SavePositions.CollidingNames`.
- A rename to a name that is already tracked drops the record; if the new name was tracked because
  the two events of one rename were handled in the other order, the file is read again from the
  start: `TailRotation.MoveFollowsFileIff`, `TailRotation.ReorderedRename`.
- An offset stays under the name it was saved for when the file is renamed, and is taken over by the
  next file of that name after a restart, which then loses its first bytes; offsets loaded at
  start-up are never forgotten either: `TailRotation.NothingSkippedIff`,
  `TailRotation.NewFileReadFromStartIff`, `TailRotation.RotatedAcrossRestart`.
- The comment in `src/inputs/gelf/udp/GelfChunk.h` allows up to 128 chunks, but the count goes
  through a signed char, a message of a single chunk only completes when the chunk comes twice, and
  an empty chunk is refused: `GelfDatagrams.SentReceivedIff`, `GelfDatagrams.SinglePiece`,
  `GelfDatagrams.TooManyPieces`, `GelfDatagrams.MissingPiece`.
- A datagram longer than the receive buffer of 4096 bytes is cut, so a chunk with more than 4084 bytes
  of data is accepted and a corrupted message comes out: `GelfDatagrams.SentReceivedIff`,
  `GelfDatagrams.LongPieceIsCut`.
- The import and export loops handle the program's own exceptions only. A timestamp or level that is
  a string without a number makes the standard library throw another one, which ends the process,
  and nothing of the bulk is handed on: `Pipeline.HandedOnIff`, `GelfMessages.LibraryErrorIff`,
  `GelfMessages.BadTimestampEndsTheProcess`.
- The last flush of a batch is skipped if it holds empty records only: `GelfTcp.BatchCompleteIff`,
  `GelfTcp.EmptyRecordIsSkipped`. Records made in `src/outputs/gelf/Output.cpp` are never empty, as
  they start with a brace; only a processor script, which is not part of this model, could make one.
- A queue's capacity can be exceeded by one bulk for every producer: `MessageQueues.OvershootReached`.
- A GELF record with the timestamp `"inf"` or `"nan"`, or one without a timestamp that is read while
  the clock is wrong, is accepted, but what is written for it is not accepted again:
  `GelfMessages.NormalisationIdempotentIff`, `GelfMessages.NonFiniteIsNotReadBack`.

## Model

| member | source | states |
|---|---|---|
| TailSplitter.RegexSplitConserves | src/inputs/tail/TailMonitor.cpp:289-328 | splitting a chunk loses, duplicates and reorders no byte: messages followed by the new pending bytes are the old pending bytes followed by the chunk |
| TailSplitter.RegexSplitMessages | src/inputs/tail/TailMonitor.cpp:300-321 | the loop's view of a chunk with matches: what precedes the first match completes the pending message, every other message lies between two matches, and nothing is emitted for a match on the very first byte |
| TailSplitter.RegexSplitPending | src/inputs/tail/TailMonitor.cpp:323-328 | after a chunk with matches, what is pending starts at its last match |
| TailSplitter.TwoChunks | src/inputs/tail/TailMonitor.cpp:249-264 | two reads in a row give the messages and the pending bytes of one read of their concatenation, matched at the combined positions |
| TailSplitter.ChunkInvariance | src/inputs/tail/TailMonitor.cpp:249-264 | the same for any number of reads and any pending bytes at the start |
| TailSplitter.ChunkingHarmlessIff | src/inputs/tail/TailMonitor.cpp:249-328 | for one and the same expression, reading chunk by chunk gives the result of one read of everything if and only if the whole is cut where the chunks were cut |
| TailSplitter.StraddlingMatchIsMissed | src/inputs/tail/TailMonitor.cpp:249-328 | an expression and two reads for which they differ: the match lies across the end of the first read, and the pending message is not completed |
| TailLines.LinesAreTheMaximalRuns | src/inputs/tail/TailMonitor.cpp:330-343 | newline mode emits, in order and without omission, exactly the maximal non-empty newline-free stretches of a chunk |
| TailLines.LinesConserve | src/inputs/tail/TailMonitor.cpp:330-343 | the messages of a chunk concatenate to its bytes without the newlines |
| TailLines.LinesOfChunksConserve | src/inputs/tail/TailMonitor.cpp:249-264 | whatever the chunking, newline mode emits the content without its newlines |
| TailLines.TwoChunksOfLines | src/inputs/tail/TailMonitor.cpp:330-343 | a boundary between two chunks adds exactly one message if it falls inside a line, and changes nothing otherwise |
| TailLines.LineChunkingHarmlessIff | src/inputs/tail/TailMonitor.cpp:249-343 | the messages of the chunks are the lines of the whole content if and only if no boundary falls inside a line; the surplus is the number of broken lines |
| TailLines.BrokenLine | src/inputs/tail/TailMonitor.cpp:249-343 | two reads that make two messages of one line |
| TailChunks.ReadRegionIsSplitChunks | src/inputs/tail/TailMonitor.cpp:249-264 | the read loop splits the region buffer-full after buffer-full, carrying the pending bytes over |
| TailChunks.FollowIsSplitChunks | src/inputs/tail/TailMonitor.cpp:210-272 | over every run in which the file grows and is read, the calls split all the chunks they read, one after the other, and get to the end of the file |
| TailChunks.FollowInvariance | src/inputs/tail/TailMonitor.cpp:210-328 | the messages and pending bytes of such a run are those of one split of everything at the combined matches, and those of a single read if and only if the expression cuts the whole where it cut the chunks |
| TailChunks.FollowLinesIff | src/inputs/tail/TailMonitor.cpp:210-343 | in newline mode such a run delivers everything but the newlines, and the very lines if and only if no read ended inside one |
| TailLines.LinesFromIsLines | src/inputs/tail/TailMonitor.cpp:330-343 | the loop over indices emits the same messages as cutting off line after line |
| TailRecord.Record.constructor | src/inputs/tail/TailMonitor.cpp:171-203 | a new record has nothing pending and starts at the loaded offset, or at zero if offsets are not saved |
| TailRecord.Record.ProcessMatches | src/inputs/tail/TailMonitor.cpp:293-328 | the iterator loop hands on exactly the messages of the split and leaves its pending bytes |
| TailRecord.Record.ProcessLines | src/inputs/tail/TailMonitor.cpp:330-343 | the index loop hands on the non-empty lines of the chunk, in order |
| TailRecord.Record.FindNewline | src/inputs/tail/TailMonitor.cpp:333-333 | the first newline from a position on, or the end |
| TailRecord.Record.ProcessBuffer | src/inputs/tail/TailMonitor.cpp:285-345 | one chunk appends its messages to the queue and leaves the split's pending bytes, in either mode |
| TailRecord.Record.ProcessMessage | src/inputs/tail/TailMonitor.cpp:347-357 | one message is handed on, at the end of the queue |
| TailRecord.Record.ReadAdded | src/inputs/tail/TailMonitor.cpp:249-264 | the read loop delivers what reading the added region in buffer-fulls delivers, stops where the stream gives out, and tells whether it did |
| TailRecord.Record.SeekAndRead | src/inputs/tail/TailMonitor.cpp:246-266 | reading on from any position, including the failing seek before the start of the file |
| TailRecord.Record.Process | src/inputs/tail/TailMonitor.cpp:210-272 | the whole new state, messages and saved offset of one call, for symlinks, closed files, failed streams, shrunk files, skipped content and short reads |
| TailRecord.Record.Flush | src/inputs/tail/TailMonitor.cpp:274-283 | pending bytes become one message and the offset is saved; without any, nothing happens |
| TailRecord.Record.Save | src/inputs/tail/TailMonitor.cpp:380-384 | the saved offset is the read position less the pending bytes, and only with save_state |
| SavePositions.PositionRoundTrip | src/inputs/tail/SavePositionServer.cpp:76-110 | every 64-bit offset, negative ones included, is read back as it was written |
| SavePositions.TornWriteIsEarlier | src/inputs/tail/SavePositionServer.cpp:76-110 | an offset of which only the first k bytes were written is read as a smaller one, never a larger one |
| SavePositions.SavedNamesCollideIff | src/inputs/tail/SavePositionServer.cpp:70-74 | two files share a saved offset if and only if their names differ, after the first character, only in '/' against '-' |
| SavePositions.CollidingNames | src/inputs/tail/SavePositionServer.cpp:70-74 | two different names that share one |
| SavePositions.SaveIsolatedIff | src/inputs/tail/SavePositionServer.cpp:70-110 | saves for one file never change what another one resumes from if and only if their saved names differ |
| SavePositions.SavePositionServer.Init | src/inputs/tail/SavePositionServer.cpp:38-68 | every saved offset is in the table, known ones are not overwritten, and the directory is empty |
| SavePositions.SavePositionServer.SavePosition | src/inputs/tail/SavePositionServer.cpp:100-110 | one saved file holds the eight bytes of the offset, no other file changes |
| SavePositions.SavePositionServer.ErasePosition | src/inputs/tail/SavePositionServer.cpp:112-121 | the saved file is gone, the loaded offset is not |
| TailDelivery.ReadRegionConserves | src/inputs/tail/TailMonitor.cpp:249-264 | the whole read loop conserves bytes: messages and new pending bytes are the old pending bytes and the region read |
| TailDelivery.ReadOnConserves | src/inputs/tail/TailMonitor.cpp:246-271 | a call that reads on conserves bytes and gets as far as the stream delivers |
| TailDelivery.ProcessKeepsStepIff | src/inputs/tail/TailMonitor.cpp:210-272 | on a file that only grew, delivered and pending bytes stay equal to the file up to the read position if and only if the call does not skip existing content |
| TailDelivery.StartOverInStepIff | src/inputs/tail/TailMonitor.cpp:228-235 | when reading starts over after a truncation or a failure, the same holds for the new content if and only if nothing was pending |
| TailDelivery.NegativeOffsetAfterTruncation | src/inputs/tail/TailMonitor.cpp:228-235 | a concrete state in which a truncation leads to a saved offset of -3 |
| TailDelivery.ReadDelivers | src/inputs/tail/TailMonitor.cpp:246-271 | in either mode the messages of a read, however short it comes up, are what is to be delivered of the file between the old and the new pending bytes |
| TailDelivery.ProcessDelivers | src/inputs/tail/TailMonitor.cpp:210-272 | the same for a whole call, which also gets to the end of the file and saves |
| TailDelivery.DeliveredMore | src/inputs/tail/TailMonitor.cpp:246-283 | an outcome that delivers what continues the file keeps the invariant of reachable states, saved offset included |
| TailDelivery.StepReached | src/inputs/tail/TailMonitor.cpp:198-283 | every append, open, process, flush and clean restart keeps the invariant; only a restart without a saved offset delivers bytes again |
| TailDelivery.ExactlyOnceIff | src/inputs/tail/TailMonitor.cpp:198-384 | in either mode, over every run with clean restarts the messages of all incarnations concatenate to exactly the delivered part of the file, in newline mode without its newlines, if and only if every restart found an offset saved by its incarnation or nothing had been delivered |
| TailDelivery.RestartedTwice | src/inputs/tail/SavePositionServer.cpp:50-61 | after any run that delivered something, two restarts in a row make it be delivered again |
| TailCrashes.ReadProgress | src/inputs/tail/TailMonitor.cpp:251-264 | one read, in either mode, hands on messages that the file really holds and leaves nothing undone before what is then pending |
| TailCrashes.StepSafe | src/inputs/tail/SavePositionServer.cpp:50-110 | every small step of reading, handing on, saving, torn saving, loading, deleting and crashing keeps the durable offset at or below the bytes handed on |
| TailCrashes.CrashAtLeastOnce | src/inputs/tail/TailMonitor.cpp:251-281 | over every run with crashes anywhere, in either mode, no byte before the point of resumption was skipped and every message handed on is what the file holds at its place |
| TailCrashes.ActionsAreSteps | src/inputs/tail/TailMonitor.cpp:210-283 | every action of the clean model is a sequence of these small steps, so crashes fall at every point inside it |
| TailMonitor.TailMonitor.Track | src/inputs/tail/TailMonitor.cpp:42-45 | a record is created exactly when the name is not tracked |
| TailMonitor.TailMonitor.Modify | src/inputs/tail/TailMonitor.cpp:37-53 | the record of the name, tracked or new, is processed, its offset saved, and no other entry changes |
| TailMonitor.TailMonitor.Move | src/inputs/tail/TailMonitor.cpp:55-85 | the whole table after a rename, a new name that is already tracked included; the record itself is kept if and only if the new name was not tracked |
| TailMonitor.TailMonitor.Remove | src/inputs/tail/TailMonitor.cpp:87-109 | record and saved offset go, and nothing else |
| TailMonitor.TailMonitor.Flush | src/inputs/tail/TailMonitor.cpp:159-169 | every record is flushed, whatever the order of iteration; the directory changes only for records that had pending bytes |
| TailMonitor.DiskFlushedStep | src/inputs/tail/TailMonitor.cpp:159-169 | flushing one more record extends what the directory holds, whatever the order |
| TailRotation.ModifyIsModify | src/inputs/tail/TailMonitor.cpp:37-48 | the modification event of these runs changes table and directory as the monitor's own operation does |
| TailRotation.HandedIsHonest | src/inputs/tail/TailMonitor.cpp:210-272 | the range that counts as handed on during a call is what its messages hold |
| TailRotation.RotationKeepsTrack | src/inputs/tail/TailMonitor.cpp:37-109 | in either mode, over every run of writes, creations, modifications, renames, removals, flushes and restarts every record is filed under its own name and delivered a contiguous part of its open file up to what is pending |
| TailRotation.StepGapIff | src/inputs/tail/TailMonitor.cpp:37-109 | one step makes a record leave out bytes if and only if a new record takes over an offset that was saved for another file, within its own file and beyond what was handed on of it |
| TailRotation.NothingSkippedIff | src/inputs/tail/TailMonitor.cpp:198-202 | over every such run no record ever leaves out a byte before those that are pending, counting all incarnations, if and only if no such offset was ever taken over |
| TailRotation.FromTheFirstStart | src/inputs/tail/TailMonitor.cpp:37-109 | both results for every run that begins with an empty table and an empty directory |
| TailRotation.MoveFollowsFileIff | src/inputs/tail/TailMonitor.cpp:67-79 | after a rename the open file is still followed if and only if the new name was not tracked or another record is on the same open file; in the first case offset and pending bytes are kept, in the second the table just loses the record |
| TailRotation.ReorderedRename | src/inputs/tail/InotifyServer.cpp:83-91 | if the creation event of a rename is handled first, the file stays followed under the new name but all its bytes are handed on again |
| TailRotation.NewFileReadFromStartIff | src/inputs/tail/TailMonitor.cpp:198-235 | in either mode, a new file under a name is delivered from its first byte if and only if it is shorter than the offset loaded for the name or there is nothing to deliver before that offset |
| TailRotation.RotatedAcrossRestart | src/inputs/tail/SavePositionServer.cpp:50-61 | a log file that was handed on is renamed, and after a restart the next file under the old name, if it is no shorter, loses as many bytes as the first one had |
| GelfChunks.HeaderReadBackIff | src/inputs/gelf/udp/GelfChunk.cpp:15-33 | a chunk header is read back if and only if number and count are below 128 and the piece is not empty |
| GelfChunks.UdpSession.HandleReceive | src/inputs/gelf/udp/Server.h:79-105 | a datagram of any length is handled as what fits into the buffer of it |
| GelfChunks.UdpSession.Process | src/inputs/gelf/udp/Server.cpp:14-45 | the filled part of the buffer becomes a chunk, a message, or nothing, by its length and magic bytes |
| GelfChunks.ChunkThread.HandleOne | src/inputs/gelf/udp/GelfInput.cpp:67-126 | the map, the messages handed on and the counters after one chunk, with all the ways it is ignored |
| GelfChunks.ChunkThread.Assemble | src/inputs/gelf/udp/GelfInput.cpp:95-99 | the data of the chunks in the order of their numbers |
| GelfChunks.ChunkThread.HandleBulk | src/inputs/gelf/udp/GelfInput.cpp:64-127 | a bulk is handled chunk by chunk, in order |
| GelfChunks.ChunkThread.Sweep | src/inputs/gelf/udp/GelfInput.cpp:131-143 | erasing while iterating ends, in any order, with exactly the expired entries gone and counted |
| GelfChunks.ChunkThread.Turn | src/inputs/gelf/udp/GelfInput.cpp:60-143 | one turn of the thread is a bulk followed by a sweep |
| GelfReassembly.Pigeonhole | src/inputs/gelf/udp/GelfInput.cpp:92-99 | as many chunks as the count, all numbered below it, means one chunk for every number |
| GelfReassembly.RunValid | src/inputs/gelf/udp/GelfInput.cpp:67-143 | in every reachable state every entry holds only its own chunks, numbered below its size of at most 128, and is incomplete unless its size is 1 |
| GelfReassembly.Accounting | src/inputs/gelf/udp/GelfInput.cpp:117-143 | over every run, entries created are the messages handed on plus the bad ones plus the live ones; and after a sweep exactly the entries younger than the limit, in whole seconds, are left unchanged, and all others were counted as bad |
| GelfReassembly.Isolation | src/inputs/gelf/udp/GelfInput.cpp:81-126 | what becomes of a message id depends only on its own chunks and the sweeps |
| GelfReassembly.PieceArrives | src/inputs/gelf/udp/GelfInput.cpp:81-126 | a piece is kept, and the one that completes the numbers emits the original payload |
| GelfReassembly.CollectedSoFar | src/inputs/gelf/udp/GelfInput.cpp:64-127 | as long as a piece is missing nothing is emitted and exactly the pieces that came are kept |
| GelfReassembly.OwnReassembled | src/inputs/gelf/udp/GelfInput.cpp:64-127 | pieces in any order, with duplicates, are emitted as the original, once, by the chunk that brings the last missing one, if no sweep comes too late |
| GelfReassembly.Reassembled | src/inputs/gelf/udp/GelfInput.cpp:60-143 | the same among the chunks of any other messages |
| GelfDatagrams.SingleCopies | src/inputs/gelf/udp/GelfInput.cpp:81-126 | the single chunk of a message, coming any number of times, completes the message with every second copy |
| GelfDatagrams.SinglePiece | src/inputs/gelf/udp/GelfInput.cpp:81-126 | a message of one non-empty chunk, sent k times without a sweep, is emitted k / 2 times, cut to what fits, so not at all if it is sent once |
| GelfDatagrams.TooManyPieces | src/inputs/gelf/udp/GelfChunk.cpp:30-31 | from 128 chunks on nothing is emitted |
| GelfDatagrams.MissingPiece | src/inputs/gelf/udp/GelfChunk.cpp:16-17 | a message with an empty piece is never emitted |
| GelfDatagrams.ConcatFitted | src/inputs/gelf/udp/Server.cpp:15-18 | cutting the pieces to what fits changes the message if and only if one of them does not fit |
| GelfDatagrams.SentReceivedIff | src/inputs/gelf/udp/GelfChunk.cpp:15-33 | the chunks of a message, sent once each in any order, come out as the message, once, if and only if there are 2 to 127 of them, none is empty, and each has at most 4084 bytes of data |
| GelfDatagrams.LongPieceIsCut | src/inputs/gelf/udp/Server.h:30-31 | two pieces of which the first is too long come out as another message |
| GelfDatagrams.HeardIsOwn | src/inputs/gelf/udp/Server.cpp:27-35 | of everything that comes to the socket, what concerns a message id are the chunks of its pieces and the sweeps |
| GelfDatagrams.DatagramsReassembled | src/inputs/gelf/udp/GelfInput.cpp:60-143 | datagrams of 2 to 127 pieces that fit, in any order, any of them repeatedly, among any other datagrams, chunked ones included, are emitted as the message, once, by the datagram that brings the last missing piece, if no sweep comes too late |
| HttpParser.RequestParser.Consume | src/stats/http/RequestParser.cpp:20-238 | one byte changes parser and request like the automaton says, in all twenty states |
| HttpParser.RequestParser.Parse | src/stats/http/RequestParser.h:31-40 | a buffer is consumed up to the first verdict, and no further |
| HttpParser.RequestParser.Reset | src/stats/http/RequestParser.cpp:16-18 | the parser is back in its first state |
| HttpParser.Connection.Serve | src/stats/http/Connection.cpp:31-53 | successive reads continue one parser and one request until there is a verdict |
| HttpParser.FeedAppend | src/stats/http/RequestParser.h:31-40 | parsing a buffer and then another one is parsing both at once |
| HttpParser.BufferingIndependence | src/stats/http/Connection.cpp:31-53 | however the bytes are divided into reads, verdict, state, request and consumption are those of one read |
| HttpParser.VerdictAtLastByte | src/stats/http/RequestParser.h:31-40 | no proper prefix of what led to a verdict has one, and nothing after it matters |
| HttpGrammar.Loop | src/stats/http/RequestParser.cpp:32-220 | in a state that collects a class of bytes the whole stretch of that class goes to the field at hand |
| HttpGrammar.LineAccepted | src/stats/http/RequestParser.cpp:156-228 | every header line and every folded continuation takes the parser to the next line start, with the header added or its value extended |
| HttpGrammar.LineSound | src/stats/http/RequestParser.cpp:156-228 | what the parser reads between two line starts of an accepted request is such a line |
| HttpGrammar.MessageAccepted | src/stats/http/RequestParser.cpp:20-238 | every message of the grammar is accepted at its last byte, whatever follows, with the request it denotes |
| HttpGrammar.AcceptedIsMessage | src/stats/http/RequestParser.cpp:20-238 | whatever is accepted is a message of the grammar, and the request is the one it denotes |
| HttpGrammar.AcceptsExactlyTheGrammar | src/stats/http/RequestParser.cpp:20-238 | a fresh parser answers `good` after n bytes with a request if and only if these bytes are a message of the grammar that denotes it |
| HttpGrammar.RoundTripIff | src/stats/http/RequestParser.cpp:20-238 | a request with natural version numbers, written out, is accepted at the last byte with exactly its fields if and only if it is well formed |
| GelfTcp.FramingIff | src/outputs/gelf/tcp/GelfOutput.cpp:144-144 | the receiver undoes the framing if and only if no record holds a NUL byte |
| GelfTcp.FramesAppend | src/inputs/gelf/tcp/Server.h:48-84 | what a stream completes can be taken piece by piece, the unfinished frame carried over |
| GelfTcp.SegmentationInvariance | src/inputs/gelf/tcp/Server.h:48-84 | the frames received are those of the whole stream under every segmentation |
| GelfTcp.TcpConnection.HandleRead | src/inputs/gelf/tcp/Server.h:71-75 | one completed read hands on the bytes before the NUL and consumes it too |
| GelfTcp.TcpConnection.FindNul | src/inputs/gelf/tcp/Server.h:53-53 | where the next read completes, if it does |
| GelfTcp.TcpConnection.Receive | src/inputs/gelf/tcp/Server.h:48-84 | a segment hands on exactly the frames it completes and keeps the rest |
| GelfTcp.GelfOutput.Flush | src/outputs/gelf/tcp/GelfOutput.cpp:106-126 | the whole buffer is written again on a new connection after every failed write, until one succeeds or the output stops |
| GelfTcp.GelfOutput.SendBatch | src/outputs/gelf/tcp/GelfOutput.cpp:134-161 | the batching loop flushes exactly the groups of records, framed, and counts the batch |
| GelfTcp.BatchCompleteIff | src/outputs/gelf/tcp/GelfOutput.cpp:134-158 | the flushed groups concatenate to the batch if and only if its last group is not made of empty records only |
| GelfTcp.EmptyRecordIsSkipped | src/outputs/gelf/tcp/GelfOutput.cpp:156-158 | a batch that is not sent |
| GelfTcp.NonEmptyNeverSkipped | src/outputs/gelf/tcp/GelfOutput.cpp:156-158 | with non-empty records the last flush is never skipped |
| GelfTcp.GroupsSized | src/outputs/gelf/tcp/GelfOutput.cpp:147-151 | no group reaches the buffer length without its last record, and every group but the last does with it |
| GelfTcp.FlushBound | src/outputs/gelf/tcp/GelfOutput.cpp:144-151 | every flushed payload is shorter than the buffer length plus the longest record |
| GelfTcp.PrefixOfFrames | src/outputs/gelf/tcp/GelfOutput.cpp:118-122 | any part of a buffer that was delivered is some whole records and the beginning of the next |
| GelfTcp.SenderAtLeastOnce | src/outputs/gelf/tcp/GelfOutput.cpp:106-163 | over every sequence of batches and failures that ends without error each connection decodes to a stretch of the record list, none corrupted or merged, and every record lies in one |
| MessageQueues.MessageQueue.EnqueueBulk | src/MessageQueue.h:56-76 | contents, counters and outcome of one call under each overflow strategy, consumers taking items while it waits |
| MessageQueues.MessageQueue.TryDequeueBulk | src/MessageQueue.h:102-105 | the oldest items, up to the limit and the buffer, move to the buffer in order |
| MessageQueues.CallIsSteps | src/MessageQueue.h:56-76 | one such call is a run of the shared queue's separate check, wait and enqueue steps, with the same contents and counters |
| MessageQueues.OvershootAndConservation | src/MessageQueue.h:56-98 | under every interleaving of P producers with consumers, length plus admitted items is at most the capacity less one plus P bulks; every item offered is queued, taken, on its way or refused, never refused when throttling, and counted exactly when dropping |
| MessageQueues.OvershootReached | src/MessageQueue.h:56-98 | for every capacity and number of producers some interleaving reaches that bound |
| Pipeline.FirstEscapeFinds | src/inputs/Input.h:42-49 | where the conversion loop is left by an exception that is not handled, if it is |
| Pipeline.HandedOnIff | src/inputs/Input.h:42-63 | a queue with room gets the converted records of a bulk if and only if no exception of its conversions escapes, and otherwise none |
| Pipeline.Input.ImportMessages | src/inputs/Input.h:31-73 | one bulk leaves the input queue; the main queue is offered exactly its converted records, in order, or an exception leaves the call at the first record whose exception is not handled; no buffer is overrun |
| Pipeline.Output.ImportMessages | src/outputs/Output.h:33-61 | the same for the queue of an output, the shared buffer being unchanged; the call tells whether something was enqueued |
| Pipeline.OutputServer.ExportTo | src/OutputServer.cpp:61-63 | one output gets the bulk, unless an exception escapes, and the others keep what they have |
| Pipeline.OutputServer.ExportToAll | src/OutputServer.cpp:61-63 | one output after the other gets the bulk, up to the first whose call does not return |
| Pipeline.OutputServer.ExportBulk | src/OutputServer.cpp:55-64 | one bulk leaves the main queue and every output it reaches is offered the same one |
| PipelineRuns.KeptAndDropped | src/inputs/Input.h:44-51 | compaction splits a bulk into the records that convert and those that do not, and loses none |
| PipelineRuns.OutputStep | src/OutputServer.cpp:61-63 | no step, an offer, a wait or an enqueue at another output included, unbalances the account of an output |
| PipelineRuns.Conservation | src/OutputServer.cpp:49-68 | in every reachable state, whatever the capacities and strategies, every record put in an input queue is there, with an importer, failed to convert, was refused by the full main queue or was put in it; for every output, what was taken from the main queue was put in its queue, failed its conversion, was refused by its full queue, or is owed to it; those that failed have a handled exception, all others convert, a queue that throttles has refused none, and the process has only ended at a bulk with an exception that escapes |
| PipelineRuns.QuietPipe | src/OutputServer.cpp:49-68 | once nothing is under way, what an output's queue got together with what full queues refused is exactly the records put in the input queues that convert at the input and at that output, each as often as it was put; and none was put whose exception escapes |
| PipelineRuns.ThrottledPipe | src/OutputServer.cpp:49-68 | with queues that throttle, every run that has come to rest has put in every output's queue exactly the records that convert, and no record was put whose exception escapes |
| PipelineRefinement.KeptRepresents | src/inputs/Input.h:44-51 | the messages a loop makes of a bulk are made, one by one, of the records the account keeps |
| PipelineRefinement.EnqueueRepresents | src/MessageQueue.h:56-76 | a queue of messages changes like the queue of the records they were made of |
| PipelineRefinement.CallRepresents | src/inputs/Input.h:42-63 | a whole call changes both alike and ends alike: it returns, waits, or is left by an exception |
| PipelineRefinement.ImportMessagesIsRun | src/inputs/Input.h:31-73 | what the import call's contract says of the two queues, however it ends, is what a run of the pipeline makes of them, exporters taking while it waits |
| PipelineRefinement.ReachedAgrees | src/OutputServer.cpp:61-63 | an export turn reaches as many outputs with the messages as the pipeline's with the records |
| PipelineRefinement.ExportBulkIsRun | src/OutputServer.cpp:55-64 | what the export turn's contract says of the main queue and of every output's queue, however the calls of the outputs end, is what a run of the pipeline makes of them |
| GelfMessages.CollectFields | src/formats/gelf/GelfMessage.cpp:113-136 | the loop collects the additional fields, the first of several with one key, or stops with the error of the first bad one |
| GelfMessages.ReadIsWellformed | src/formats/gelf/GelfMessage.cpp:30-137 | whatever is accepted has version 1.1, a host, a message, a level from 1 to 9, and only additional fields whose keys start with '_' |
| GelfMessages.FieldsOfDump | src/formats/gelf/GelfMessage.cpp:195-198 | the additional fields of a dump are read back, in whatever order the table lists them |
| GelfMessages.ReadBackIff | src/formats/gelf/GelfMessage.cpp:167-202 | what is written for a record is read back as the same record if and only if its timestamp is finite and not before the limit |
| GelfMessages.NormalisationIdempotentIff | src/formats/gelf/GelfMessage.cpp:30-202 | an accepted object is normalised once and for all if and only if its timestamp, where it is a string, spells a finite number, and where it is missing, the clock is not before the limit |
| GelfMessages.NonFiniteIsNotReadBack | src/formats/gelf/GelfMessage.cpp:90-96 | an object with the timestamp "inf" or "nan" is accepted, and what is written for it is not |
| GelfMessages.LibraryErrorIff | src/formats/gelf/GelfMessage.cpp:87-106 | which objects make the standard library throw: those whose timestamp or, after a timestamp in order, whose level is a string without a number, everything read before being in order |
| GelfMessages.BadTimestampEndsTheProcess | src/inputs/Input.h:43-48 | a bulk with one record of that kind ends the process, and nothing of it gets to the main queue |
| GelfMessages.DumpNamesDistinct | src/formats/gelf/GelfMessage.cpp:167-202 | no two members of a dump have the same name |

## Left out

- TailDelivery.ExactlyOnceIff: one file with complete reads; other files cannot interfere where `SavePositions.SaveIsolatedIff` holds.
- TailCrashes.CrashAtLeastOnce: the file only grows; truncation and failed reads are in `TailDelivery.StartOverInStepIff`.
- TailChunks.FollowInvariance: without flushes between the reads, which end the pending message.
- TailRecord.Record.ProcessMessage: a message that its queue drops or that throws is not told apart from one that is delivered.
- TailRotation.RotationKeepsTrack: reads are complete and files do not shrink; every action is atomic, so a restart is clean.
- GelfDatagrams.SentReceivedIff: the chunks of the round trip arrive without a sweep in between; `GelfDatagrams.DatagramsReassembled` has the sweeps, the duplicates and the other datagrams.
- HttpParser.RequestParser.Consume: version numbers do not overflow.
- MessageQueues.CallIsSteps: a waiting producer's consumers take at most one bulk at a time.
- `TailMonitor::run`, which only dispatches events to the modelled operations, and the inotify server's watches and event records.
- Two threads working on one tail record: the table's accessors are taken to make every call atomic.
- What a process does that starts again after an exception ended it, other than reading files on.
- Write errors of the offset files, other than writes that are cut short by a crash.
- Connecting, resolving names, and stopping; the streams and buffers of Boost.
- The text of JSON numbers and strings, `stod`, `stoi` and the clock, which are parameters; finite doubles are written and read exactly.
- Compressed GELF, `setField`, and the constructor of an empty record.
- The single-record `enqueue`, which is a bulk of one, and the lock-free queue inside.
- The processor and its scripts, and all other inputs and outputs.
- Configuration, metrics, stock HTTP replies, MIME types, `url_decode` and the telegraf export, which would only add easy members.
