# A verified model of the rsync delta transfer

This project models, in Dafny 4.11, what the Go packages `rsyncsender`, `rsyncreceiver`, `rsync`,
`rsynccommon`, `rsyncchecksum`, `rsyncwire`, `utils` and `rsyncopts` do to move a list of files from a
sender to a receiver that may have older copies, and proves when that works. `dafny verify dfyconfig.toml`
checks all of it.

How the parts fit together, from the bottom up:

* **Wire formats.** `Bytes` and `Wire` hold machine integers, their encodings and `Conn`, a connection as
  the bytes still to be read and the bytes written. `Multiplex` is the message framing around a stream.
* **Block signatures.** `SumHead` cuts the receiver's copy of a file (its basis) into blocks and sends their
  sums; `Checksum` and `Rolling` are the weak checksum, unrolled and rolling. MD4 (RFC 1320) is an arbitrary
  function to 16 bytes, so every theorem holds for any hash.
* **The search.** `MapStruct` is the sliding window over the file. `Search` specifies the search twice: a naive
  one that tries every block at every offset it visits, and one with the sender's backlog of unsent literals,
  its flushes and its window requests. `Matching` is the sorted target table with its 16-bit tag index. `Sender`
  is the search as the program performs it, method by method, proved to put exactly the specified bytes on the wire.
* **The replay.** `Tokens` and `Receiver` decode a reply over the basis, and check the sum of the whole file.
* **Files and sessions.** `DeltaTransfer` puts one file's request, reply and replay together; `MainLoops` runs
  `GenerateFiles`, `SendFiles` and `RecvFiles` over all files of a list; `WholeTransfer` puts the file list in front:
  if the transfer succeeds, every file is stored under its own name, and it says exactly for which lists and files it
  does not. `Session` is the protocol between the three processes as a
  step relation over two bounded channels, for every interleaving.
* **The file list.** `FileEntry`, `FileRecord`, `FileList` and `Names`: the encoder, the decoder that inherits
  fields, the id sets, and the two independent sorts after which an index means the same file on both sides.
* **Options.** `Popt` is the command line scanner.

## What the code does not do

Some promises hold only under conditions. Each condition is proved as an equivalence.

* `ptr` rounds a region that the default window does not cover up to 1024 bytes, and returns nothing when that
  runs past the end of the file. `Fits` is exactly when it serves a region, and does not depend on what is cached
  (`MapStruct.MapStruct.Ptr`). The rolling update then indexes nothing and the sender panics. `Served` says exactly
  which files that spares. When nothing matches, the lengths decide: `Unserved.UnmatchedServed` gives the condition
  for every length and block length, with the number of flushes; for blocks outside 255 to 256 KiB it is that the
  file is whole kilobytes or that what is left after the last flush fits the default window
  (`Unserved.UnmatchedServedByRest`). `Unserved.PanickingTransfer` is a concrete file that is not served: 263169 zeros
  against a basis of 700 ones. A non-empty file of whole kilobytes, or one no longer than the default window, always is.
* A file that is still the receiver's copy is always served: only references go out, one for each block
  (`DeltaTransfer.UnchangedFile`).
* An empty file sent against a non-empty basis panics: the first visit finds no window, no block agrees with nothing,
  and the rolling update has no byte 0 (`Sender.Transfer.HashSearch`, `DeltaTransfer.EmptyPanics`).
* A request with sums for blocks of length 0, which `receiveSums` accepts, always panics the sender. Every window is
  empty then: if a block agrees with it, the search starts over before the file, and if none does, there is no byte
  left to roll on from at its end (`Sender.Transfer.HashSearch`).
* A peer refuses the geometry of a file whose truncated root is above 2^29 (`SumHead.GeometryAccepted`), so a longer
  file that is sent whole never arrives, and neither does any file against a longer copy (`DeltaTransfer.Synchronize`).
* A file list record is understood if and only if its name is clean and shorter than 4096 bytes, its time fits
  an int32, devices and specials are both on or both off when the file is a pipe or a socket, a wanted link can be
  read, and no checksum follows it (`FileRecord.UnderstoodIffAgrees`). The sender writes checksums that the receiver
  does not read, and writes only the first part of a record when `os.Readlink` fails.
* A serving sender writes the whole file list as one message, which is read if and only if it is at most 256 KiB
  (`FileList.ListInOneMessage`).
* Different DryRun options make one side misread the other in some run, unless no file is requested
  (`Session.SafeWhenAgreeing`).
* Without a report, which is how a serving receiver runs, nobody reads the three statistics. Then every session
  completes if and only if the channel to the receiver has room for them (`Session.CompletesIffRoom`); with less
  room, no run reaches its end (`Session.NoRoom`).

## Modelling choices

* The strong sum, `filepath.Clean`, `strconv.ParseInt` and Go's `|` on option values are uninterpreted constants;
  `Clean` is assumed idempotent and never longer than its argument, except that "" becomes ".".
* `math.Sqrt` on float64 followed by truncation is any integer from the exact floor root to one more, and the exact
  one below 2^52, where float64 still tells the root of (s+1)^2 - 1 from s+1. Lengths are below (2^31 - 2)^2, so that
  the root and the number of blocks fit an int32.
* `hashSearch` opens the list entry's `Path`, which the sender sets to "/" for every file (`rsyncsender/flist.go`, line
  69); the model takes the content of the requested file instead, as `sendFile` does.
* Only what the server writes is multiplexed; `Conn` keeps the writes one by one, so that the theorems about whole
  sessions send them through messages.
* `io.Reader` may return short reads, but returns at least one byte before the end; `ReadAt` fills its buffer or fails.
* `sort.Slice` (module `Sorting`) is known only to return an ordered rearrangement; no theorem depends on how
  ties come out.
* `x | y` of numbers without common bits is written as a sum, and `(l-1)|1023` as the division it amounts to.
* A run-time panic is an error value, so that the theorems can say exactly when it happens.

## Model

| member | source | states |
|---|---|---|
| Bytes.WordBytes | rsyncwire/wire.go:147-150 | the four bytes of a word, lowest first, in two's complement |
| Wire.ParseInt64RoundTrip | rsyncwire/wire.go:135-186 | every int64 survives the short form or the -1 escape, and the reader stops where it ends |
| Wire.ParseInt32RoundTrip | rsyncwire/wire.go:131-166 | an int32 is read back and nothing behind it is touched |
| Wire.WordParsed | rsyncwire/wire.go:131-166 | any integer is read as the int32 with the same 32 bits |
| Wire.Conn.WriteInt64 | rsyncwire/wire.go:135-145 | appends exactly the encoding, in writes that fit messages |
| Wire.Conn.ReadInt64 | rsyncwire/wire.go:168-186 | yields what the pure decoder yields and leaves the same rest, or the same error |
| Multiplex.MessageRoundTrip | rsyncwire/wire.go:27-68 | a message with any tag is read back with the stream behind it intact if and only if its payload is at most 256 KiB |
| Multiplex.HeaderBytes | rsyncwire/wire.go:27-35 | a message starts with three bytes of its length, lowest first, and its tag from 7 on |
| Multiplex.TagsRead | rsyncwire/wire.go:70-88 | tag 0 yields the payload, tag 1 the peer's error, any other tag is unexpected |
| Multiplex.MessagesRoundTrip | rsyncwire/wire.go:27-68 | a whole sequence of messages is read back if and only if each is within the limit |
| Multiplex.StreamSurvives | rsyncwire/wire.go:23-25 | however a stream is cut into writes within the limit, the data payloads concatenate to the stream |
| Multiplex.ConnSurvives | rsyncwire/wire.go:122-150 | if every write on a connection was within the limit, the reader of its messages gets exactly what was written |
| Multiplex.LongMessage | rsyncwire/wire.go:53-60 | a message over the limit, of less than 16 MiB, is refused with that error |
| Multiplex.LargeBufferNeverPanics | rsyncwire/wire.go:70-88 | with room for a largest message, Read never panics, whatever bytes arrive |
| Multiplex.MultiplexWriter.WriteMsg | rsyncwire/wire.go:27-35 | appends the header and the payload of the message |
| Multiplex.MultiplexReader.Read | rsyncwire/wire.go:70-88 | the payload of a data message that fits, else the error that the tag or the size calls for |
| Checksum.SignExtendShifts | rsyncchecksum/rsyncchecksum.go:24-27 | a byte is extended as by shifting it to the sign bit of an int32 and back |
| Checksum.Checksum2 | rsyncchecksum/rsyncchecksum.go:53-58 | the MD4 of the bytes followed by the seed |
| Checksum.SumsCons | rsyncchecksum/rsyncchecksum.go:29-51 | both sums of a window from its first byte and the rest, weighting the byte by the window's length |
| Checksum.SumsFour | rsyncchecksum/rsyncchecksum.go:34-44 | four bytes at once change both sums as four single bytes do |
| Checksum.UnrolledRound | rsyncchecksum/rsyncchecksum.go:34-44 | one unrolled round in wrapping 32-bit arithmetic with sign extension keeps both sums those of the bytes taken |
| Checksum.Checksum1 | rsyncchecksum/rsyncchecksum.go:29-51 | the unrolled loop returns the weak checksum defined by plain integer sums, modulo 2^16 each |
| Rolling.RollIn | rsyncsender/match.go:173-183 | sliding the rolled sums of a full window yields the sums of the next window |
| Rolling.RollOut | rsyncsender/match.go:173-183 | at the end of the file it yields the sums of the shrunk window |
| Rolling.Seeded | rsyncsender/match.go:76-78 | both halves of the weak checksum are the rolled sums, and its tag is the tag of the halves |
| Rolling.TagOfWindow | rsyncchecksum/rsyncchecksum.go:11-17 | the tag of a window is its two plain sums, added modulo 2^16 |
| Files.OsFile.Read | rsyncsender/fileio.go:103-110 | a read returns some bytes at the cursor, possibly fewer than asked for, or the end of the file |
| Files.OsFile.ReadSome | rsyncsender/sender.go:172-187 | the same as a value; the end may come with the last bytes or after them |
| MapStruct.FitsShrinks | rsyncsender/fileio.go:61-69 | a region inside a region that can be served can be served |
| MapStruct.FitsAlways | rsyncsender/fileio.go:61-69 | every region of a file of whole kilobytes, or of one no longer than the default window, can be served |
| MapStruct.CachedFits | rsyncsender/fileio.go:54-69 | a region that the cache holds is one that could be served without the cache |
| MapStruct.WindowCovers | rsyncsender/fileio.go:61-69 | the chosen window is aligned, covers the region, and lies in the file exactly when the region fits |
| MapStruct.MapStruct.constructor | rsyncsender/fileio.go:32-41 | the default window is the read size rounded up to blocks and then to 1024 |
| MapStruct.MapStruct.Fill | rsyncsender/fileio.go:103-114 | under any short reads the window gets the file's bytes at the cursor; it fails exactly when the file ends too early |
| MapStruct.MapStruct.Reuse | rsyncsender/fileio.go:81-88 | what the old window shows of the file from the new start on, all of it and no more, is moved to the front in place |
| MapStruct.MapStruct.ReadMore | rsyncsender/fileio.go:103-110 | one read extends the bytes that the window has from the file, however many it returns |
| MapStruct.MapStruct.Load | rsyncsender/fileio.go:70-114 | afterwards the window mirrors the file at the new start, or the start lies too near the end of the file |
| MapStruct.MapStruct.Ptr | rsyncsender/fileio.go:43-116 | returns file[offset..offset+l] if and only if that lies in the file and fits, whatever was asked before, also for offsets before the file; the mirror invariant is kept |
| SumHead.RootBounds | rsynccommon/rsynccommon.go:22 | all that is used of the truncated float64 root: the floor root or one more, exact below 2^52, and an int32 |
| SumHead.BlocksTile | rsynccommon/rsynccommon.go:14-37 | for every length and however the root rounds, the block length is the root and at least 700, and the blocks tile the file without gap or overlap; none if and only if the file is empty, and at most two more than the exact root of its length |
| SumHead.GeometryAccepted | rsync/types.go:38-77 | the peer accepts the header for a length if and only if its truncated root is at most 2^29: so for all lengths below 2^58, and for none from (2^29+1)^2 on; else the error is that of the block length |
| SumHead.BlockFits | rsyncreceiver/receiver.go:130-137 | every block lies in the file, right before the next one or at the end |
| SumHead.OffIsProduct | rsyncsender/sender.go:118-135 | the running offset of block i is i times the block length |
| SumHead.HeadRoundTrip | rsync/types.go:38-86 | a header survives the wire if and only if its four fields are in range |
| SumHead.SumsToAt | rsyncsender/sender.go:120-135 | sum i is that of block i: its offset, length, weak sum and the MD4 of its bytes and the seed |
| SumHead.RequestRoundTrip | rsyncreceiver/generator.go:129-154 | receiveSums takes exactly the generator's bytes and yields the signature of the basis, for every basis |
| SumHead.ParsedSums | rsyncsender/sender.go:113-146 | any accepted request has as many sums as its header says, each with the length its position calls for, and with zeros behind the strong sum that was sent |
| SumHead.WriteHead | rsync/types.go:79-86 | appends the header's encoding |
| SumHead.ReadHead | rsync/types.go:38-77 | the header or the first failed check, in the order of the checks |
| SumHead.ReceiveSums | rsyncsender/sender.go:113-146 | yields what the pure decoder yields and leaves the same rest |
| SumHead.GenerateAndSendSums | rsyncreceiver/generator.go:129-154 | for a file of any length, appends exactly the request of the first fileLen bytes; fails if and only if the file is shorter |
| Tokens.ChunksFlatten | rsyncsender/token.go:8-19 | the chunks of a literal run carry exactly its bytes |
| Tokens.ReplayFlattened | rsyncreceiver/receiver.go:106-151 | where literals are cut into tokens makes no difference to the replay |
| Tokens.ReadBlockIs | rsyncreceiver/receiver.go:130-137 | the receiver reads for token i the block that sum i was computed from |
| Tokens.TokensRoundTrip | rsyncreceiver/receiver.go:106-151 | decoding the encoded tokens outputs their replay over the basis and stops after the end mark |
| Tokens.LiteralsRoundTrip | rsyncreceiver/receiver.go:106-151 | literals alone need no local file and come back as they are |
| Search.Plan.GreedyRefinesNaive | rsyncsender/match.go:86-199 | up to token boundaries, the search with backlog, flushes and early restart sends what the naive search sends |
| Search.Plan.NaiveRebuilds | rsyncsender/match.go:86-199 | if picked blocks equal their windows, the naive search's output replays to the file |
| Search.Plan.GreedySendable | rsyncsender/token.go:8-23 | every literal fits an int32 length and every reference names a block |
| Search.Plan.GreedyRebuilds | rsyncsender/match.go:86-199 | if picked blocks equal their windows, the sender's tokens replay to the file |
| Search.Plan.BoundedStep | rsyncsender/match.go:185-191 | a flush never moves the unsent position backwards or past the offset, and the backlog stays within a block and two chunks |
| Search.Plan.ReadyStep | rsyncsender/match.go:163-199 | from visit to visit the backlog stays bounded and can be served, and at the end so can the rest |
| Search.Plan.ServableAlways | rsyncsender/fileio.go:61-69 | a non-empty file of whole kilobytes, or no longer than the default window, is searched to the end |
| Search.Plan.FlushCountIs | rsyncsender/match.go:185-191 | when nothing matches, how often the backlog is flushed, from the lengths alone |
| Search.Plan.UnmatchedServable | rsyncsender/match.go:163-191 | when nothing matches, the search succeeds if and only if the last flush and what is left after it can be served, for a file of any length |
| Search.Plan.ServableTieFree | rsyncsender/match.go:101-127 | which of several agreeing blocks is picked does not decide whether the search succeeds |
| Search.Plan.BlockByBlock | rsyncsender/match.go:86-199 | where every block of the file itself is picked at its place, the search sends one reference for each block and nothing else, and is served by any window |
| Matching.ChoiceComplete | rsyncsender/match.go:101-127 | a block is chosen if and only if some block agrees in weak sum, length and truncated strong sum, and the chosen one agrees |
| Matching.TagIndexExact | rsyncsender/sender.go:71-77 | starting at the table's entry and going on while tags are equal visits exactly the targets with the tag |
| Matching.TagIndexComplete | rsyncsender/sender.go:56-77 | so every block with the tag is visited, no other, and none twice |
| Matching.SkipTo | rsyncsender/match.go:88-103 | targets before the scanned ones cannot agree with the window, whose weak sum fixes the tag |
| Matching.NoCollisionFaithful | rsyncsender/match.go:101-127 | if agreement implies equal bytes, every picked block is its window |
| Matching.BuildTargets | rsyncsender/sender.go:56-77 | the targets are the blocks in an order that sorts the tags, and the table maps each tag to its first target |
| Sorting.SortSlice | rsyncsender/sender.go:67-69 | for any weak order, an ordered rearrangement of the elements |
| Matching.SortByTag | rsyncsender/sender.go:67-69 | the same targets, ordered by tag |
| Matching.IndexTags | rsyncsender/sender.go:75-77 | counting down leaves the first target of each tag in the table |
| Sender.Transfer.SendLiterals | rsyncsender/token.go:8-20 | file[offset..offset+n] goes out as literal tokens of at most 256 KiB, in writes within the message limit |
| Sender.Transfer.SimpleSendToken | rsyncsender/token.go:4-24 | the literals, then the block reference, the end mark or nothing |
| Sender.Transfer.Matched | rsyncsender/match.go:216-257 | the hash absorbs exactly the range from the old to the new lastMatch, and the literals and the mark go out |
| Sender.Transfer.ReadChunk | rsyncsender/match.go:69-80 | k is the window's length and s1, s2 are its sums, from scratch |
| Sender.Transfer.Confirm | rsyncsender/match.go:102-127 | a candidate is taken if and only if it agrees, and what is kept of an earlier candidate is the window's strong sum |
| Sender.Transfer.FindMatch | rsyncsender/match.go:88-127 | the tag scan finds what trying every block finds |
| Sender.Transfer.ReadUpdate | rsyncsender/match.go:157-171 | the oldest byte of the window and the one behind it, or nothing exactly when there is no oldest byte or the region cannot be served |
| Sender.Transfer.Slide | rsyncsender/match.go:161-183 | the sums and length move on by one byte; it fails if and only if the region from the first unsent literal on cannot be served |
| Sender.Transfer.Restart | rsyncsender/match.go:143-155 | starting one byte early and sliding lands on the byte after the block with the right sums |
| Sender.Transfer.Flush | rsyncsender/match.go:185-191 | a long backlog is sent up to one block length before the offset, else nothing happens |
| Sender.Transfer.Visit | rsyncsender/match.go:86-197 | one visit sends what the specification says for the offset and moves as far; it panics exactly when nothing matches and the region cannot be served |
| Sender.Transfer.Search | rsyncsender/match.go:86-197 | the loop ends, and succeeds if and only if every request of a visit can be served |
| Sender.Transfer.VisitEmpty | rsyncsender/match.go:86-197 | with blocks of length 0, a visit panics if and only if a block agrees with nothing, or no byte is left to roll on from, or the region cannot be served |
| Sender.Transfer.HashSearch | rsyncsender/match.go:23-213 | writes exactly the index, header, greedy tokens, end mark and the MD4 of seed and file; panics if and only if the blocks are empty, or the file is, which its first visit finds out, or it is not servable; every write fits a message |
| Sender.Visited | rsyncsender/match.go:216-257 | the ranges passed to matched tile the file: the hash has absorbed the file up to lastMatch after every visit, and all of it at the end |
| Receiver.RecvToken | rsyncreceiver/token.go:6-20 | a token with its data, or the first missing byte's error |
| Receiver.RecvTokens | rsyncreceiver/receiver.go:106-151 | writes to the pipe and to the hash the same bytes, those the pure decoder outputs |
| Receiver.ReceiveData | rsyncreceiver/receiver.go:76-170 | accepts a reply if and only if the bytes it wrote have the sum that follows; the pipe has the whole file either way |
| Receiver.ReplyReceived | rsyncreceiver/receiver.go:153-165 | a reply is accepted if and only if its replay has the MD4 of the file sent, also when strong sums collide, and exactly its bytes are consumed |
| Receiver.LiteralsReceived | rsyncsender/sender.go:148-216 | a file sent whole always comes back, whatever the local copy |
| SendFiles.SendFile | rsyncsender/sender.go:148-216 | for any sizes of the reads, the reply's literals are the file and its sum is the file's |
| SendFiles.Answer | rsyncsender/sender.go:46-101 | takes any request off the stream and answers it by the search, which may panic, or with the whole file when it has no sums; or returns the error of the first check that failed |
| DeltaTransfer.SearchableTieFree | rsyncsender/sender.go:67-69 | how the sort leaves ties does not decide whether a search succeeds |
| DeltaTransfer.ServedAlways | rsyncsender/fileio.go:61-69 | against any signature, a non-empty file of whole kilobytes or no longer than the default window is served |
| DeltaTransfer.NoSumsBytes | rsyncreceiver/generator.go:74-87 | the request for a whole file is sixteen zero bytes after the index |
| DeltaTransfer.RequestUnderstood | rsyncreceiver/generator.go:74-125 | the sender reads the request as the signature of the local copy, or as no sums if and only if there is no copy or an empty one |
| DeltaTransfer.EmptyPanics | rsyncsender/match.go:170-173 | an empty file panics the sender for every non-empty basis |
| DeltaTransfer.UnchangedFile | rsyncsender/match.go:23-213 | a non-empty file sent against its own signature goes out as exactly as many references as it has blocks, without literals, and is served whatever its length |
| DeltaTransfer.UnchangedServed | rsyncsender/match.go:157-171 | so the sender never panics over an unchanged file |
| DeltaTransfer.LongCopyRefused | rsync/types.go:51-57 | the sender refuses the request for a copy whose blocks are above the limit |
| DeltaTransfer.RefusedYields | rsync/types.go:51-57 | a reply whose header has blocks above the limit is refused for that, whatever follows |
| DeltaTransfer.RebuiltIsFile | rsyncsender/match.go:23-213 | if a window of the file and a block of the basis with the same length, the same weak sum and the same MD4 of bytes and seed are the same bytes, the replay is the file |
| DeltaTransfer.SearchYields | rsyncreceiver/receiver.go:76-170 | wherever the reply stands on the stream, the receiver decodes it up to its last byte to the replay, or to a corruption error if and only if the MD4s differ |
| DeltaTransfer.SendReply | rsyncsender/sender.go:46-101 | consumes one request, appends one reply that arrives, and panics if and only if the signature does not serve the file; a request for a copy whose blocks are too long is refused |
| DeltaTransfer.Synchronize | rsyncreceiver/receiver.go:103-165 | one file of any length, against a copy of any length, from end to end: it is refused if and only if the copy's blocks, or those of a file that goes whole, are too long; else it arrives when there is no copy or no collision; what is accepted has its MD4; it panics exactly when not served |
| Unserved.UnmatchedServed | rsyncsender/match.go:163-191 | a file of any length that shares nothing with the basis is served if and only if its last flush is, and it is whole kilobytes or what is left after the flushes fits the default window |
| Unserved.UnmatchedServedByRest | rsyncsender/match.go:163-191 | for blocks of at most 255 KiB or of more than 256 KiB, the flush condition always holds |
| Unserved.FlushCanFail | rsyncsender/fileio.go:67-69 | for blocks of 256 KiB it does not: lengths for which only a flush fails |
| Unserved.PanickingTransfer | rsyncsender/match.go:170-173 | a concrete transfer on which the sender panics, whatever the seed |
| MainLoops.SkipFile | rsyncreceiver/generator.go:42-54 | skips if and only if no option forces the file, the lengths agree, and so do the times unless only sizes count |
| MainLoops.RecvGenerator | rsyncreceiver/generator.go:57-126 | writes nothing if and only if files are only listed, or the file is not regular, or it has a copy of the listed length and, unless only sizes count, the listed time, and nothing forces it; else the index and, outside a dry run, the sums |
| MainLoops.GenerateFiles | rsyncreceiver/generator.go:15-39 | the requests of all wanted entries in order and two marks |
| MainLoops.HandleRequest | rsyncsender/sender.go:39-101 | one request, with a file that opens, one that does not, or in a dry run |
| MainLoops.SendFiles | rsyncsender/sender.go:17-110 | every request is answered in order, with the marks between; it reads nothing past the second mark and fails only by a panic |
| MainLoops.RecvFiles | rsyncreceiver/receiver.go:17-40 | every reply is stored for the index it was written for, up to the first that is not accepted |
| MainLoops.SynchronizeAll | rsyncreceiver/receiver.go:17-40 | a whole session: each answered index is handled once, in order, its file arriving as for one file; it panics exactly for a file that is not served, and else ends early only by a collision or a refused geometry; what the server writes goes through messages |
| WholeTransfer.SendsEntry | rsyncreceiver/generator.go:42-72 | what the program decides on the decoded entry is what the sender's file, the copy and the options call for |
| WholeTransfer.TransferredPermuted | rsyncsender/do.go:31-35 | the names to be transferred are those of the list as it was sent, each as often, however the receiver's sort arranges it |
| WholeTransfer.FatalIsListed | rsyncsender/do.go:28-35 | the sender panics on some index if and only if some listed file has to be transferred and is not served |
| WholeTransfer.ListedIsStored | rsyncsender/do.go:28-35 | every listed file that is to be transferred is stored under its own name |
| WholeTransfer.TransferAll | rsyncreceiver/client.go:95-106 | list and files: it fails to read a path, has too long a list, or panics exactly when some path, the list, or a listed file to be transferred is so; any other failure is a collision or a refused geometry of a listed file; if it succeeds, whatever is stored is the file of that name, and the stored names are exactly those of the listed regular files that open and have no copy of the same length and time, as the options count them, each as often as listed |
| Session.StepKeeps | rsyncreceiver/do.go:29-65 | every step of generator, sender or receiver keeps the invariant on what is in the channels and what is still to come |
| Session.Safety | rsyncsender/sender.go:17-110 | in every state of every interleaving nothing is misread, each payload that is read is decoded, as the file it was written for, the receiver's files are a prefix of those the sender answered, in order, and no phase overtakes: the receiver's is not ahead of the sender's, nor the sender's of the generator's marks |
| Session.AllAnswered | rsyncsender/sender.go:87-101 | if every requested file opens, the answered files are the requested ones |
| Session.AnsweredExactly | rsyncsender/sender.go:87-101 | outside a dry run the answered files are the requested ones that open, each as often as it is requested |
| Session.WithinCapacity | rsyncreceiver/do.go:29-65 | in no state does a channel hold more than it can |
| Session.MisreadingFails | rsyncsender/sender.go:17-110 | a step fails if and only if it reads an item of another kind than the process is about to read |
| Session.Progress | rsyncreceiver/do.go:29-65 | no reachable state but a final one is stuck, if the channels hold anything and unread statistics have room |
| Session.RunsEnd | rsyncreceiver/do.go:29-65 | no run is longer than what there is to do at its start |
| Session.Completion | rsyncsender/do.go:35-61 | a run that cannot go on has ended well: all files handled, both channels consumed but for unwanted statistics, the files handled being the requested ones that open, each as often as requested, both transcripts with two marks each, three statistics and one goodbye |
| Session.NoRoom | rsyncreceiver/do.go:52-60 | without a report and with room for fewer than three statistics, no run reaches its end |
| Session.CompletesIffRoom | rsyncreceiver/do.go:52-65 | with channels that hold anything, every run that cannot go on has ended if and only if there is a report or room for three statistics |
| Session.SafeWhenAgreeing | rsyncsender/sender.go:39-44 | no run fails if and only if both sides have the same DryRun option or no file is requested |
| Session.DryReceiverFails | rsyncreceiver/generator.go:79-81 | if only the receiver makes a dry run, some run misreads the next index as sums |
| Session.DrySenderFails | rsyncsender/sender.go:39-44 | if only the sender does, some run misreads sums as an index |
| Names.LessTotal | utils/file.go:55-59 | any two different names are ordered one way and not the other |
| Names.LessIsPrecedes | utils/file.go:55-59 | a name is before another exactly when at the first difference it ends or has the smaller byte |
| Names.OrderedNamesAgree | rsyncsender/do.go:31-35 | two ordered lists with the same names, each as often, agree at every index |
| Names.SortByName | utils/file.go:55-59 | the same elements, of which none precedes one to its left at the first difference of their names |
| Names.FindInFileList | utils/file.go:62-67 | in an ordered list, found if and only if some entry has the name |
| FileEntry.FlagsRoundTrip | rsyncreceiver/flist.go:148-155 | the status byte's eight flags are read back |
| FileEntry.StatusBits | rsync/consts.go:5-13 | the value of each of the eight flags |
| FileEntry.FormatPeriodic | rsync/consts.go:22 | only the low 16 bits of a mode decide its type |
| FileEntry.NameRoundTrip | rsyncreceiver/flist.go:17-58 | a clean name is recovered from any prefix shared with the last name |
| FileEntry.EntryRoundTrip | rsyncreceiver/flist.go:14-141 | whichever fields are inherited, the decoder recovers the entry and stops where it ends |
| FileEntry.ReceiveFileEntry | rsyncreceiver/flist.go:14-141 | yields what the pure decoder yields, including the overflow error and the panics on negative lengths |
| FileRecord.PlainStatus | rsyncsender/flist.go:53-61 | the status byte of a record is 64, and 65 for the root |
| FileRecord.AgreesUnderstood | rsyncsender/flist.go:74-200 | the record of an agreeing file is decoded as its entry, after any entry and before any bytes |
| FileRecord.UnderstoodIffAgrees | rsyncsender/flist.go:74-200 | a record is decoded in every place as the file's own name, length, time, permissions and type if and only if name, time, special files, link and checksum agree with the options |
| FileList.InheritanceIsInvisible | rsyncreceiver/flist.go:144-168 | a list of any length, written with any fields inherited, is decoded as the same entries as with every field written out |
| FileList.IdsRoundTrip | rsyncreceiver/uidlist.go:12-36 | an id set without id 0 and with names of at most 255 bytes is read back |
| FileList.RecvIdMapping | rsyncreceiver/uidlist.go:12-36 | the loop reads the set up to id 0 and nothing behind it |
| FileList.FileListRoundTrip | rsyncsender/flist.go:207-236 | the list, both id sets and the error flag are read as the entries in the order sent, up to the last byte |
| FileList.ReceiveFileList | rsyncreceiver/flist.go:144-191 | the decoded entries in an ordered arrangement, and the error flag |
| FileList.ViewsListed | rsyncsender/flist.go:51-131 | in whatever order the receiver has sorted them, every listed file has an entry with its own name ("." for "/"), its own length (4096 for a directory), its time, permissions and type, and every entry is that of a listed file |
| FileList.SendFileList | rsyncsender/flist.go:31-237 | writes exactly the list of the files the filter lets through, in one write, and returns them with the sum of their sizes in wrapping 64-bit arithmetic; writes nothing if and only if some path's last checksum failed |
| FileList.TotalAgrees | rsyncsender/flist.go:94 | the reported total differs from the sum of the lengths the receiver decoded by a multiple of 2^64, in whatever order it sorted them |
| FileList.ListInOneMessage | rsyncsender/flist.go:232-234 | as a message the list is understood if and only if it is at most 256 KiB; if longer, up to 16 MiB, the reader says so |
| FileList.IndexAgreement | rsyncsender/do.go:31-35 | after both independent sorts, every index names the same file on both sides, also among duplicates |
| FileList.ExchangeFileList | rsyncsender/do.go:31-35 | the whole exchange, multiplexed or not: if the list fits, both sides number the files alike, every entry is that of a listed file and the other way round, and the next byte read is the first one after the list; a path that cannot be read and a list too long for a message give their errors |
| Popt.TurnShrinks | rsyncopts/popt.go:145-251 | every turn that does not end the scan uses up a word or a letter |
| Popt.Bundling | rsyncopts/popt.go:145-251 | wherever it stands, a word `-xyz` of letters without arguments, ended by anything, gives the same codes, arguments, stored values, remaining words and end as the letters and the rest as words of their own |
| Popt.LongArgument | rsyncopts/popt.go:166-169 | `--name=value` has the same outcome as `--name value`, wherever it stands, for any option with an argument |
| Popt.ShortArgument | rsyncopts/popt.go:222-226 | `-xvalue` and `-x=value` have the same outcome as `-x value` |
| Popt.ArgumentStored | rsyncopts/popt.go:119-143 | a string target holds exactly the value and an int target its number, or the error is -17, -18 or, where no argument is taken, -12 |
| Popt.SwitchStored | rsyncopts/popt.go:201-220 | a switch stores 1, or its own value |
| Popt.OptionReturned | rsyncopts/popt.go:202-249 | an option with a number returns it; a missing argument is error -10 and a missing target -19 |
| Popt.NoOption | rsyncopts/popt.go:155-199 | a word without a dash, or a single one, is kept; an empty word or an unknown letter is error -11 |
| Popt.Cut | rsyncopts/popt.go:166 | splits at the first "=", or not at all |
| Popt.Context.FindOption | rsyncopts/popt.go:94-104 | the first option of the table with the long or the short name |
| Popt.Context.PoptSaveArg | rsyncopts/popt.go:119-143 | stores the argument, or the error its type, format or range calls for |
| Popt.Context.PoptGetNextOpt | rsyncopts/popt.go:145-251 | the loop ends and returns and stores what the turn-by-turn specification does |
| Popt.ParseArguments | rsyncopts/rsyncopts.go:695-702 | the driving loop collects the codes and arguments in order up to the end or the first error |

## Left out

- MD4 and `FileChecksum` themselves, and `nofollow`: foreign code, arbitrary functions here.
- Network, file and pipe errors other than a stream or file that ends, the closed-pipe branch of `receiveData`, and `Files.Put`.
- MapStruct.MapStruct.Ptr: returns the region as a value; that later calls overwrite a slice still held by the caller is not modelled. No caller in the repository holds one across a call.
- Session.Safety: a receiver or sender that stops with an error ends its run; how the error group cancels the others is not modelled.
- MainLoops.SynchronizeAll: runs the three loops one after the other on the streams between them; their interleavings are the subject of `Session`. Local copies are within the limit on geometry; `DeltaTransfer.Synchronize` has the case that one is not.
- MainLoops.RecvGenerator: what a list-only run prints is left out.
- WholeTransfer.TransferAll: takes a multiplexed list of less than 16 MiB; from there on the length no longer fits the 24 bits of a message header, and the reader takes parts of the list for messages. Local copies are as in `MainLoops.SynchronizeAll`.
- FileList.SendFileList: the lookups of user and group names, which `stat.go` never asks for, are left out; the filter is an arbitrary predicate on names; each file has exactly one type.
- Popt.ParseArguments: handlers do no more than take an option's argument; the option tables and the daemon's second scan are left out.
- `FileMode` but for regular files, `deleteFiles`, statistics counters, loggers, `ClientRun` and `exclude.go`: they would add only easy members.
