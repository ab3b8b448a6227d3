# ts-torrent core in Dafny

This project models the sequential core of ts-torrent, a BitTorrent client written in TypeScript and JavaScript, and proves properties of that model. The core has five parts:

- **Piece storage.** `Piece` keeps the list of received blocks: a sorted insert with a tie-break, then an in-place merge. It splits a piece-relative `(begin, length)` range across its seek pointers, and it drives the completion and verification state. `TorrentDisk` lays the pieces over the concatenated files and keeps the MSB-first bitfield. `CustomInfoDictCommon` derives the piece count, the total size and the last piece's length.
- **Peer wire codec.** The BitTorrent peer protocol messages and their `build()` layout. `MessagesHandler` is a resumable frame decoder that keeps a partial length prefix, ID and payload between chunks. The 68-byte handshake is parsed and built.
- **Peer state.** The choke and interest flags, the FIFO queue of outbound jobs, and the tiling of a piece into 16 KiB `Request` blocks.
- **Rarest-first scheduler.** The functional `peerManager.ts` and its older class-based twin `peerManager.js`. Pieces are handed out in tiers of increasing availability. A peer is eligible while it has fewer than 3 pieces in flight, and the peer for each piece is picked by reshuffling.
- **Metainfo layer.** The bencode decoder, the token classes with `encode`, `get`, `toString` and `putContent`, the checks that turn a decoded dictionary into a torrent dictionary, and the helpers for percent-encoding and hex.

## How the model is built

- Bytes are `Bytes.byte`, the integers 0..255. Strings are `seq<char>`, and `Buffer.from(string)` is the UTF-8 encoding in `Utf8`.
- The files behind the pieces are `Files.FileSystem`, whose `files` field maps a descriptor to its contents.
- The SHA-1 check of a piece is an input to the methods that perform it (`digestMatches`, `verified`).
- `_.shuffle` is a permutation parameter: `Scheduler.PieceShuffle` and `Scheduler.PeerShuffle`.
- Promise chains are run to their outcome, in the order the source issues them. The outcome datatypes (`WriteOutcome`, `ReadOutcome`, `Decoded`, `Either`) carry the rejected, thrown and never-settling cases.

Code that updates state step by step is modelled as classes and methods, each proved against a function of its inputs and old state. These are `Pieces.Piece`, `Disks.TorrentDisk`, `Framing.MessagesHandler`, `Peers.Peer`, `PeerManagers.PeerManager`, `Bencode.BencodeDict`, and the loops of `Scheduler`, `Bdecode`, `Bitfields`, `Disks` and `Utils`. The properties the source promises are then lemmas about those functions.

Several places are modelled as written, not as intended:

- `parseMessage` never goes back to the length-prefix state after a message.
- `decodeHandshake` calls `.cata` on a Promise.
- The scheduler keeps a peer exactly when `peer_choking` is set.
- `start()` tests `isCompleted` without calling it.
- `write` places the first sub-write at `file_offset + begin` and slices the remainder from the original block.
- `KeepAlive` builds to five zero bytes.
- `peerManager.js` calls `peer.requestpiece`, which no peer has.

Where a quirk has a visible effect, a lemma states it: `Frames.SignalRepeats`, `Frames.KeepAliveThenChokes`, `Pieces.WriteFromLaterPointerUsesPieceOffset`, `Pieces.WriteOverThreeFilesResendsRemainder` and `Messages.KeepAliveBuildsFiveZeros`.

## Model

| member | source | states |
|---|---|---|
| Pieces.LastPointerAtOrBefore | src/disk/piece.ts:203-205 | The result is -1 or a pointer index; that pointer's `piece_offset` is at most `begin`, and every later pointer starts after `begin` |
| Pieces.Piece.GetFilePointerIndex | src/disk/piece.ts:203-205 | `getFilePointerIndex(begin)` is the last pointer starting at or before `begin`, or -1 when there is none |
| Pieces.Piece.constructor | src/disk/piece.ts:24-34 | A new piece keeps its fingerprint and length, and has no pointers, no blocks and `isCompletedAndValid` false |
| Pieces.Piece.AddSeekPointer | src/disk/piece.ts:199-201 | The pointer is appended; blocks and the completion flag are unchanged |
| Pieces.Piece.InsertBlock | src/disk/piece.ts:185-197 | The in-place splice loop leaves `blocks` equal to `Blocks.Inserted` of the old list |
| Pieces.Piece.MergeBlocks | src/disk/piece.ts:162-183 | The in-place merge loop leaves `blocks` equal to `Blocks.Merged` of the old list |
| Pieces.Piece.Write | src/disk/piece.ts:36-106 | A range past the piece is rejected with nothing changed. Otherwise the pointer loop issues the planned sub-writes. A missing pointer throws, and a failed sub-write never settles. After all succeed, the block is inserted and merged. When the piece is complete, a digest mismatch empties `blocks` and answers (bytes, false), and a match sets `isCompletedAndValid` and answers (bytes, true). The files and blocks afterwards are `FilesAfterWrite` and `BlocksAfterWrite` of the old state |
| Pieces.Piece.Read | src/disk/piece.ts:108-160 | A range past the piece is rejected. Otherwise the pointer loop issues the planned sub-reads; a missing pointer throws, a failed sub-read gives the empty buffer, and success gives the parts concatenated in pointer order |
| Pieces.IssueWrites | src/disk/piece.ts:44-83 | The `write` loop changes the files exactly as the planned sub-writes do, in order, and reports whether it dereferenced a missing pointer |
| Pieces.IssueReads | src/disk/piece.ts:114-153 | The `read` loop returns the concatenation of the planned sub-reads and whether all of them succeeded |
| Pieces.RunWritesFollowsPlan | src/disk/piece.ts:50-83 | The step-by-step `write` loop issues exactly the sub-writes of the plan |
| Pieces.RunReadsFollowsPlan | src/disk/piece.ts:119-153 | The step-by-step `read` loop issues exactly the sub-reads of the plan |
| Pieces.RunWritesStep | src/disk/piece.ts:50-83 | One turn of the `write` loop: one sub-write of min(remaining, available) bytes at `file_offset + newBegin`, then the next pointer |
| Pieces.RunReadsStep | src/disk/piece.ts:119-153 | One turn of the `read` loop: one sub-read of min(newLength, available) bytes, then the next pointer with the remainder |
| Pieces.WritesCons | src/disk/piece.ts:85-88 | Sub-writes apply in order, succeed together and add up their byte counts |
| Pieces.ReadsCons | src/disk/piece.ts:154-156 | Sub-reads concatenate in order and succeed together |
| Pieces.ApplyWrites | src/disk/piece.ts:70-75 | Writing never adds or removes a file |
| Pieces.WritePlanOnePointer | src/disk/piece.ts:50-83 | A range inside one file is one sub-write of the whole block at `file_offset + begin` |
| Pieces.WritePlanTwoPointers | src/disk/piece.ts:50-83 | A range over two files writes min(len, available) bytes at `file_offset + begin`, then the rest at the next pointer's `file_offset` |
| Pieces.WritePlanPastLastPointer | src/disk/piece.ts:50-53 | A range that overflows the last pointer's file dereferences a missing pointer and throws |
| Pieces.WritePlanNoPointer | src/disk/piece.ts:47-52 | A `begin` before every pointer makes the index -1 and `write` throws |
| Pieces.ReadPlanOnePointer | src/disk/piece.ts:119-153 | A range inside one file is one sub-read at `file_offset + begin` |
| Pieces.ReadPlanTwoPointers | src/disk/piece.ts:119-153 | A range over two files reads the available bytes from the first and the rest from the next pointer's `file_offset` |
| Pieces.ReadAfterWrite | src/disk/piece.ts:44-159 | Over one or two files, reading back the range just written gives the written block |
| Pieces.ReadAfterWriteOne | src/disk/piece.ts:44-159 | The one-file case of the read-back |
| Pieces.ReadAfterWriteTwoData | src/disk/piece.ts:44-159 | The two-file case of the read-back: the two parts concatenate to the block |
| Pieces.TwoWritesReadBack | src/disk/piece.ts:70-75 | Two sub-writes to distinct files are read back by the matching sub-reads |
| Pieces.WriteFromLaterPointerUsesPieceOffset | src/disk/piece.ts:53 | Concrete case: a `begin` inside the second pointer's run is still added to that file's `file_offset` |
| Pieces.WriteOverThreeFilesResendsRemainder | src/disk/piece.ts:81 | Concrete case: over three files, the third sub-write resends `block.slice(available)` of the original block |
| Blocks.Range | src/disk/piece.ts:13-21 | The offsets covered by one block `[begin, begin + size)` |
| Blocks.Inserted | src/disk/piece.ts:185-197 | Inserting adds exactly one entry |
| Blocks.InsertPos | src/disk/piece.ts:187-193 | The scan position never moves backwards or past the end |
| Blocks.InsertPosSpec | src/disk/piece.ts:189-191 | The new block goes after every block that begins earlier. Before a block with the same `begin` only if strictly longer, otherwise after it |
| Blocks.InsertedAddsOne | src/disk/piece.ts:185-197 | `insertBlock` adds exactly the new block and keeps the others in their relative order (a multiset and an order statement) |
| Blocks.InsertedSorted | src/disk/piece.ts:185-197 | Inserting into a begin-sorted list keeps it sorted |
| Blocks.CoveredInserted | src/disk/piece.ts:185-197 | Inserting adds exactly the new block's offsets to the covered set |
| Blocks.MergeFrom | src/disk/piece.ts:162-183 | The merge loop never lengthens the list |
| Blocks.MergedSeparated | src/disk/piece.ts:162-183 | After `mergeBlocks` on a begin-sorted list, no two consecutive blocks touch or overlap, and the list stays sorted |
| Blocks.MergedCovered | src/disk/piece.ts:162-183 | `mergeBlocks` leaves the set of covered offsets unchanged |
| Blocks.AbsorbKeepsCovered | src/disk/piece.ts:170-178 | Extending a block to `max end`, or dropping a contained one, keeps the covered offsets |
| Blocks.SumSizesOfSeparated | src/disk/piece.ts:207-213 | On a separated list `getCompleted` (the sum of sizes) is the number of covered offsets, so `isCompleted` means the covered offsets number `length` |
| Blocks.InsertMergeCount | src/disk/piece.ts:85-89 | After insert then merge, `getCompleted` counts the offsets covered by the old blocks and the new range |
| Blocks.SeparatedChain | src/disk/piece.ts:162-183 | In a separated list the begins strictly increase |
| Disks.ComputeChunkSizeToFillEmptyFile | src/disk/torrentDisk.ts:39-56 | Below 1 GiB there are 11 steps. From 1 GiB up the chunk is 1 GiB and the last chunk is less. In both branches (nbSteps − 1)·chunk + last = the length |
| Disks.FillWithEmptyBytes | src/disk/torrentDisk.ts:64-103 | A file of the right length is left alone. Otherwise the loop writes `chunk` nbSteps − 1 times and then `lastChunk`, in total the theoretical length: the write stream truncates the file and rewrites it whole; a negative length throws |
| Disks.SumRepeat | src/disk/torrentDisk.ts:73-94 | n chunks of size x write n·x bytes |
| Disks.LayPiece | src/disk/torrentDisk.ts:189-207 | The inner layout loop keeps the file cursor valid. A piece with bytes to place starts its next run at piece offset 0; one with none adds no pointer |
| Disks.LayPieceChain | src/disk/torrentDisk.ts:189-207 | A piece's pointers run through consecutive files. Every pointer after the first starts at file offset 0 with `piece_offset` advanced by the previous run, and the runs add up to the piece length |
| Disks.LayPieceAdvance | src/disk/torrentDisk.ts:189-207 | The file cursor moves on by exactly the piece's length in the concatenated files |
| Disks.LayPieceStep | src/disk/torrentDisk.ts:190-205 | One turn of the inner loop: a run of min(remaining, room) bytes in the current file, moving to the next file when it is filled |
| Disks.AddPiecePointers | src/disk/torrentDisk.ts:187-207 | The inner loop adds exactly the pointers of `LayPiece` to the piece, or reports that the files ran out |
| Disks.InitPieces | src/disk/torrentDisk.ts:171-211 | `initPieces` creates one piece per 20 prints, with fingerprint bytes [20i, 20i+20) and the `piece length`, or the last piece's length for the final one. Their pointers are the layout of `LayoutFrom`; it fails when the files run out |
| Disks.LayoutTiling | src/disk/torrentDisk.ts:179-207 | The cursor carries across pieces, so the pieces tile the concatenated files in order; every piece after the first starts at piece offset 0 |
| Disks.LayoutShape | src/disk/torrentDisk.ts:183-186 | One piece per started 20 bytes of prints; only when the prints are a whole number of 20-byte prints does the final piece get the last-piece length |
| Disks.PieceIndexCompare | src/disk/torrentDisk.ts:183-185 | The loop's real-valued tests `i < nbPieces` and `i == nbPieces - 1` are the integer tests on the prints' length |
| Disks.MarkVerified | src/disk/torrentDisk.ts:239-249 | The `forEach` of `getBitfield` fills a fresh buffer with exactly the packed verified bits and adds up the verified lengths |
| Disks.VerifiedTotalBounds | src/disk/torrentDisk.ts:254-264 | The completed count lies between 0 and the total length, is the total when all verify and 0 when none do |
| Disks.TorrentDisk.constructor | src/disk/torrentDisk.ts:134-137 | A new disk keeps the info dictionary and save path, with no pieces, no files, 0 completed and no bitfield |
| Disks.TorrentDisk.Init | src/disk/torrentDisk.ts:139-148 | `init` stores the files and the laid-out pieces, or rejects and stores nothing |
| Disks.TorrentDisk.Read | src/disk/torrentDisk.ts:213-216 | A missing piece throws; otherwise the piece's `read` outcome |
| Disks.TorrentDisk.Write | src/disk/torrentDisk.ts:218-233 | A missing piece throws. A piece already completed and valid answers (0, true), and the files, blocks and pointers stay as they were. Otherwise the piece's `write` outcome, the files and blocks as that write leaves them (`Pieces.FilesAfterWrite`, `Pieces.BlocksAfterWrite`), the pointers unchanged, and the bitfield bit set exactly when the piece reports completed and valid |
| Disks.TorrentDisk.GetBitfield | src/disk/torrentDisk.ts:235-252 | A fresh ⌈n/8⌉-byte bitfield with bit i set iff piece i verified (padding 0) is stored, with the sum of verified lengths |
| Disks.TorrentDisk.Verify | src/disk/torrentDisk.ts:254-264 | `verify` returns, and stores as `completed`, the sum of the lengths of the verified pieces |
| Bitfields.SetPiece | src/disk/torrentDisk.ts:118-123 | Only the byte holding piece i can change, and the length is kept |
| Bitfields.ContainsPieceOfSetPiece | src/disk/torrentDisk.ts:111-123 | After `updateBitfield(b, i)` piece j is present iff it was, or j = i and i is addressable: exactly that bit is set |
| Bitfields.SetPieceIdempotent | src/disk/torrentDisk.ts:118-123 | `updateBitfield` twice is `updateBitfield` once |
| Bitfields.SetPieceNoop | src/disk/torrentDisk.ts:118-123 | Setting a bit that is already set changes nothing |
| Bitfields.UpdateBitfield | src/utils/utils.js:67-72 | The in-place OR leaves the buffer equal to `SetPiece` of its old contents |
| Bitfields.BitfieldLength | src/disk/torrentDisk.ts:239 | `(n >> 3) + (n & 7 ? 1 : 0)` is the least number of bytes holding n bits |
| Bitfields.ContainsPieceOfPacked | src/disk/torrentDisk.ts:239-247 | Bit i of the packed bitfield is set iff piece i verified; no bit past the pieces is set |
| Bitfields.ContainsPieceOfMarkAll | src/disk/torrentDisk.ts:242-247 | After marking pieces 0..k−1, piece j is present iff it was or it is below k and verified |
| Bitfields.ShiftedMarkIsMask | src/disk/torrentDisk.ts:244 | `(v ? 0x80 : 0) >> (i & 7)` is the same MSB-first bit that `bitfieldContainsPiece` tests |
| Bitfields.MarkTurn | src/disk/torrentDisk.ts:242-247 | One turn of the `forEach` marks piece i exactly when it verified |
| InfoDicts.JsRem | src/disk/customInfoDict.ts:30-34 | JavaScript `%`: for a non-negative dividend, the Euclidean remainder |
| InfoDicts.CustomInfoDict.NbPieces | src/disk/customInfoDict.ts:26-28 | `nbPieces` times 20 is the prints' length (a real number when the blob is not a whole number of prints) |
| InfoDicts.CustomInfoDict.LastPieceLength | src/disk/customInfoDict.ts:30-34 | Undefined (NaN) iff the piece length is 0; else the piece length when `totalSize % pieceLength` is 0 and the remainder otherwise |
| InfoDicts.CustomInfoDict.GetFilesInfos | src/disk/customInfoDict.ts:40-42 | The stored file list, unchanged |
| InfoDicts.LastPieceLengthBounds | src/disk/customInfoDict.ts:30-38 | For a positive piece length and non-negative sizes, the last piece length lies in (0, pieceLength] and the rest of the total is whole pieces |
| InfoDicts.SumLengthsAppend | src/disk/customInfoDict.ts:36-38 | `totalSize` of a concatenated file list is the sum of the two totals |
| Files.WriteAt | src/disk/piece.ts:70-75 | After a write the range holds the data, everything else is unchanged, and a gap past the end reads as zeros |
| Files.ReadAt | src/disk/piece.ts:138-142 | A read fills a zeroed buffer of the requested size with the file's bytes |
| Files.ReadAtWriteAt | src/disk/piece.ts:70-75 | Reading back the range just written gives the data |
| Files.ReadAtWriteAtElsewhere | src/disk/piece.ts:70-75 | A write leaves every range it does not touch unchanged |
| Files.FileSystem.Write | src/disk/piece.ts:70-75 | `fs.write` succeeds iff the descriptor, position and length are valid, then changes only that file |
| Files.FileSystem.Read | src/disk/piece.ts:138-142 | `fs.read` succeeds iff the descriptor, position and length are valid, and returns the bytes at that position |
| Framing.MessagesHandler.constructor | src/peer/messagesHandler.ts:36-42 | Offset 0, empty partial buffers, and status AWAIT_HANDSHAKE or DECODING_LENGTH_PREFIX as `waitingForPeerId` says |
| Framing.MessagesHandler.Clear | src/peer/messagesHandler.ts:70-77 | `clear` always empties the partial prefix and payload. Only `clear(true)` resets the status and the ID |
| Framing.MessagesHandler.DecodeLengthPrefix | src/peer/messagesHandler.ts:220-241 | One step of the prefix accumulator |
| Framing.MessagesHandler.DecodeMessageID | src/peer/messagesHandler.ts:243-257 | One step of the ID reader |
| Framing.MessagesHandler.DecodePayload | src/peer/messagesHandler.ts:259-282 | One step of the payload accumulator |
| Framing.MessagesHandler.PayloadCase | src/peer/messagesHandler.ts:105-128 | The ID switch of `parseMessage`, with the state it leaves |
| Framing.MessagesHandler.ParseMessage | src/peer/messagesHandler.ts:79-136 | `parseMessage` resets the offset, then runs the prefix, ID and payload phases; the new state and message are `ParseMessageStep` |
| Framing.MessagesHandler.Parse | src/peer/messagesHandler.ts:44-68 | In AWAIT_HANDSHAKE, `parse` throws. Otherwise it runs its loop from offset 0 for at most `fuel` iterations |
| Framing.MessagesHandler.ParseLoopFrom | src/peer/messagesHandler.ts:61-66 | The `while` loop pushes every non-null message of `parseMessage(chunk, true)` |
| Framing.MessagesHandler.DecodeHandshake | src/peer/messagesHandler.ts:179-196 | Right iff the handshake parses and carries the handler's own info-hash |
| Framing.LoopStep | src/peer/messagesHandler.ts:61-66 | One iteration of the `parse` loop appends the message it returned |
| Framing.SpecRunsLoop | src/peer/messagesHandler.ts:44-68 | Outside AWAIT_HANDSHAKE, `parse` is its loop from offset 0 |
| Frames.LengthPrefixAccumulates | src/peer/messagesHandler.ts:220-241 | The prefix accumulates up to 4 bytes across calls. Only with the fourth byte does the status become DECODING_BYTE_ID and the big-endian int32 come back |
| Frames.PayloadAccumulates | src/peer/messagesHandler.ts:259-282 | The payload accumulates across calls and is returned only when exactly prefix − 1 bytes are held |
| Frames.LengthPrefixOutcomes | src/peer/messagesHandler.ts:89-101 | A prefix < 0 or > (1<<14)+13 drops the message (null), and a prefix of 0 gives KeepAlive |
| Frames.StepFrame | src/peer/messagesHandler.ts:79-136 | Within a frame, one call consumes all its bytes and yields the message only with the frame's last byte |
| Frames.ChunkSplit | src/peer/messagesHandler.ts:44-68 | Feeding one frame to a fresh handler in any non-empty chunks yields the same single message, and the same state up to the offset, as feeding it whole |
| Frames.FeedFrame | src/peer/messagesHandler.ts:44-68 | Feeding the rest of a frame in chunks ends in the state and message of its last byte |
| Frames.RoundTrip | src/peer/torrentMessages.ts:16-133 | A fresh handler fed `build(m)` for a constructed message (int32-range fields, non-empty bitfield), in any chunks, returns [m] |
| Frames.BuildIsFrame | src/peer/messagesHandler.ts:138-177 | Every constructed message builds to a frame whose last byte yields it again through `parsePayload` |
| Frames.SignalRepeats | src/peer/messagesHandler.ts:61-66 | After a completed ID 0-3 the state is never cleared to the prefix phase, so every further iteration yields that message again |
| Frames.PayloadStalls | src/peer/messagesHandler.ts:105-131 | With any other ID the emptied prefix makes every iteration throw inside: nothing is returned and no progress is made |
| Frames.KeepAliveThenChokes | src/peer/torrentMessages.ts:29-33 | The five zero bytes of `KeepAlive().build()` parse as KeepAlive, then as Choke on every further iteration |
| Frames.DecodeHandshakeOfBuild | src/peer/messagesHandler.ts:179-196 | `decodeHandshake` accepts a handshake built with the handler's info-hash and refuses one with another hash |
| Messages.Build | src/peer/torrentMessages.ts:16-26 | `build()` is the 4-byte big-endian prefix, the ID byte (0 when absent), then the payload |
| Messages.ConstructorsFramed | src/peer/torrentMessages.ts:35-133 | Every constructor but KeepAlive sets a length prefix of 1 + payload and its ID (0-8), with the payload layout of the protocol |
| Messages.BuildFramed | src/peer/torrentMessages.ts:16-26 | A framed message builds to 4 + `lengthPrefix` bytes starting with its prefix, then its ID |
| Messages.KeepAliveBuildsFiveZeros | src/peer/torrentMessages.ts:17-33 | KeepAlive sets no prefix or ID, and `build` still writes a 5-byte header: five zeros |
| Messages.ReadTriple | src/peer/torrentMessages.ts:88-133 | Request, Cancel and Piece payload fields read back at offsets 0, 4 and 8 |
| Handshakes.ProtocolName | src/peer/handshake.ts:3-10 | The protocol name is 19 bytes |
| Handshakes.Parse | src/peer/handshake.ts:12-64 | Accepted iff the length is 48 or 68, byte 0 is 19 and bytes 1..19 are the protocol name. Info-hash [28,48); peer id [48,68) for 68 bytes, none for 48; any other length is InvalidLength |
| Handshakes.Build | src/peer/handshake.ts:67-71 | 68 bytes: 19, the name, 8 zeros, the 20-byte hash, the 20-byte peer id |
| Handshakes.ParseBuild | src/peer/handshake.ts:39-71 | `parse(build(h, p))` gives back h and p |
| Handshakes.ParseBuildPrefix | src/peer/handshake.ts:39-71 | The first 48 bytes of a built handshake parse to h with no peer id |
| Handshakes.BuildParse | src/peer/handshake.ts:12-71 | A 68-byte chunk that parses is rebuilt from its fields when its reserved bytes are zero |
| Peers.Peer.constructor | src/peer/peer.ts:51-60 | A new peer is choking and not interested, is choked and not wanted, has 0 pieces in flight, no bitfield and an empty queue |
| Peers.Peer.AddMessageToQueue | src/peer/peer.ts:85-121 | A message without an ID (KeepAlive) is ignored; any other joins the queue's end |
| Peers.Peer.RunNextJob | src/peer/peer.ts:89-117 | Running the head job applies its flag update and then writes the message's `build()` |
| Peers.JobFlags | src/peer/peer.ts:90-113 | The job for ID 0/1 sets `am_choking` true/false and for 2/3 sets `am_interested` true/false; no other job changes a flag |
| Peers.EnqueueKeepAlive | src/peer/peer.ts:85-121 | KeepAlive never enters the queue; every other message enters it behind what was queued before |
| Peers.Peer.Start | src/peer/peer.ts:123-129 | `start` queues Unchoke and Bitfield; as `isCompleted` is tested uncalled, it never sends Interested |
| Peers.Peer.SendUnchoke | src/peer/peer.ts:131-134 | Queues Unchoke and clears `am_choking` |
| Peers.Peer.SendInterested | src/peer/peer.ts:136-139 | Queues Interested and sets `am_interested` |
| Peers.Peer.SendBitfield | src/peer/peer.ts:141-143 | Queues Bitfield, no state change |
| Peers.Peer.SendHave | src/peer/peer.ts:152-154 | Queues Have, no state change |
| Peers.Peer.SendRequest | src/peer/peer.ts:145-150 | Queues the Requests of `createRequestMessages` in block order |
| Peers.SendRequestQueues | src/peer/peer.ts:145-150 | Every Request of a piece joins the queue, in block order, behind what was there |
| Peers.BlockRequestsTile | src/peer/peer.ts:241-250 | Begins 0, bL, 2bL, … < pL; every block bL long but the last, which is pL − begin; together they tile [0, pL) |
| Peers.BlockRequestsShape | src/peer/peer.ts:241-250 | There are ⌈pL/bL⌉ blocks at stride bL |
| Peers.LastBlockBounds | src/peer/peer.ts:241-250 | The last block begins inside the piece and at most one block before its end |
| Peers.BlocksWithin | src/peer/peer.ts:241-250 | Every block begins inside the piece and is at most the piece long |
| Peers.RequestMessagesCoverPiece | src/peer/peer.ts:164-178 | The Requests of a piece use block length min(16 KiB, piece length), the last piece's length for the last index, and ask for the whole piece once, in order |
| Peers.Peer.ReceiveChoke | src/peer/peer.ts:186-189 | Sets `peer_choking` |
| Peers.Peer.ReceiveUnchoke | src/peer/peer.ts:191-194 | Clears `peer_choking` |
| Peers.Peer.ReceiveInterested | src/peer/peer.ts:196-199 | Sets `peer_interested` |
| Peers.Peer.ReceiveNotInterested | src/peer/peer.ts:201-204 | Clears `peer_interested` |
| Peers.Peer.ReceiveHave | src/peer/peer.ts:206-209 | With a bitfield, sets exactly that piece's bit; without one, `updateBitfield(null)` fails and nothing changes |
| Peers.Peer.ReceiveBitfield | src/peer/peer.ts:211-214 | Stores the peer's bitfield |
| Peers.Peer.ReceiveRequest | src/peer/peer.ts:216-224 | Queues a Piece with the block read back when the torrent holds the piece, and nothing otherwise |
| Peers.Peer.ReceivePiece | src/peer/peer.ts:226-234 | Decrements the in-flight count only when the piece was not held and the write reports completed |
| Peers.Peer.ReceiveKeepAlive | src/peer/peer.ts:182-184 | No state change |
| Peers.Peer.ReceiveCancel | src/peer/peer.ts:236-239 | No state change |
| Scheduler.HoldsIsContainsPiece | src/peer/peer.ts:156-162 | The scheduler's view of a peer holds piece i iff `containsPiece(i)`: false with no bitfield, else the MSB-first bit |
| Scheduler.NonRequestedPiecesMembers | src/peer/peerManager.ts:10-14 | `getNonRequestedPieces` lists, in increasing order, exactly the pieces in [0, nbPieces) neither held nor asked for |
| Scheduler.AvailabilityMembers | src/peer/peerManager.ts:25-36 | A piece is listed iff some peer holds it, with the number of peers holding it, each once, in increasing order |
| Scheduler.Eligible | src/peer/peerManager.ts:21-23 | `computeRemainingActivePeers` keeps exactly the peers with fewer than 3 pieces in flight |
| Scheduler.EligibleTwice | src/peer/peerManager.js:53 | Refiltering the eligible peers on grown counts equals filtering all peers, so the two loops agree |
| Scheduler.ChoosePeer | src/peer/peerManager.ts:65-79 | A peer is returned only if it holds the piece and has `peer_choking` set; null iff no peer qualifies |
| Scheduler.Permute | src/peer/peerManager.ts:69 | The shuffled list takes its entries at the permutation's positions |
| Scheduler.PermuteMembers | src/peer/peerManager.ts:17 | A shuffle keeps every entry and adds none |
| Scheduler.ToRequest | src/peer/peerManager.ts:41 | `piecesToRequest` is the availability entries whose piece is still wanted |
| Scheduler.MinCount | src/peer/peerManager.ts:42 | `_.min(...).count` is the least count present, undefined for an empty list |
| Scheduler.WithCount | src/peer/peerManager.ts:16-19 | The filter keeps exactly the entries with that count |
| Scheduler.Above | src/peer/peerManager.ts:57 | The filter keeps exactly the entries above the floor |
| Scheduler.RarestMembers | src/peer/peerManager.ts:16-19 | The tier is exactly the entries with the minimum count, each once |
| Scheduler.IndexOf | src/peer/peerManager.ts:53 | `indexOf` is the first position of x, or -1 iff x is absent |
| Scheduler.SpliceRemoves | src/peer/peerManager.ts:53 | Splicing out a present piece removes one copy and nothing else |
| Scheduler.StepDecreases | src/peer/peerManager.ts:46-61 | Each turn shortens the tier or moves to a tier with fewer pieces above it, so the loop ends |
| Scheduler.PrepareProperties | src/peer/peerManager.ts:38-63 | Every request goes to a peer that holds the piece with `peer_choking` set, for a wanted piece; no piece twice; rarest first; each count grows by its requests and stays within max(start, 3); requested pieces are spliced out; the pass ends when no peer is eligible or no tier is left |
| Scheduler.RequestLoop | src/peer/peerManager.ts:46-61 | The `while` loop on the peers themselves computes exactly `RunPass`; only in-flight counts change |
| Scheduler.PreparePiecesRequests | src/peer/peerManager.ts:38-63 | `preparePiecesRequests` returns the pass's requests and spliced list, raising each chosen peer's count in place |
| Scheduler.NextBatch | src/peer/peerManager.ts:81-94 | One `next()`: done when the torrent is complete, else the batch for the non-requested pieces |
| Scheduler.BatchWanted | src/peer/peerManager.ts:81-94 | Every piece of a batch is one the torrent lacks and has not asked for, served by a peer holding it |
| PeerManagers.PeerManager.constructor | src/peer/peerManager.js:4-13 | `nonRequestedPieces` is exactly the pieces the torrent lacks, in order, without repeats |
| PeerManagers.PeerManager.UpdateNonRequestedPieces | src/peer/peerManager.js:15-18 | The filter reads an unbound `torrent`: a ReferenceError as soon as there is a piece |
| PeerManagers.PeerManager.GatherAllBitfields | src/peer/peerManager.js:20-33 | `piecesWithCount` becomes the availability of the active peers |
| PeerManagers.PeerManager.PreparePiecesRequests | src/peer/peerManager.js:45-76 | The pass refilters all active peers each turn and splices the manager's own list |
| PeerManagers.PeerManager.AskPeersForPieces | src/peer/peerManager.js:35-43 | After the pass, `peer.requestpiece` throws a TypeError when there is any request |
| PeerManagers.SplicedOut | src/peer/peerManager.js:66 | After a pass the list left holds no assigned piece, no repeats and only original pieces |
| PeerManagers.NoReassign | src/peer/peerManager.js:45-76 | A later pass on the same manager never hands out a piece an earlier pass handed out |
| Bencode.Find | src/bencode/types.ts:152-158 | The position of a key is the first entry with that key, or none |
| Bencode.Put | src/bencode/types.ts:116-118 | An existing key keeps its place and takes the value; a new key goes last; a new `__proto__` runs the prototype setter and leaves the own keys as they were; other entries are unchanged |
| Bencode.PutLookup | src/bencode/types.ts:116-118 | After `obj[key] = v` the key reads v, unless it was a new `__proto__`, and every other key reads as before |
| Bencode.PutKeys | src/bencode/types.ts:116-118 | The own keys grow by that key only, never by `__proto__`, and stay free of repeats |
| Bencode.BencodeDict.constructor | src/bencode/types.ts:103-114 | One entry per own key of the object, each made a token, except `__proto__`, whose assignment in `Object.assign` runs the prototype setter |
| Bencode.BencodeDict.PutContent | src/bencode/types.ts:116-118 | `putContent` assigns the token of v to the key as `obj[key] = v` does (a new `__proto__` adds no key) and keeps the keys distinct |
| Bencode.FromObject | src/bencode/types.ts:103-114 | The dictionary has each key of the object once, and no `__proto__` |
| Bencode.CreateOfGet | src/bencode/types.ts:3-15 | `createBencodeToken(t.get())` is t for a well-formed token: every dictionary has distinct keys and no `__proto__`, as assignment builds them |
| Bencode.GetOfCreate | src/bencode/types.ts:3-15 | `createBencodeToken(v).get()` is v for a plain value: numbers to Int, Buffers to String, arrays to List, objects with distinct own keys other than `__proto__` to Dict |
| Bencode.GetAllOfCreateAll | src/bencode/types.ts:24-51 | The same through a list's items |
| Bencode.GetEntriesOfFromObject | src/bencode/types.ts:103-158 | The same through a dictionary's entries, for objects without an own `__proto__` |
| Bencode.EncodeString | src/bencode/types.ts:70-76 | A string's encoding is longer than its bytes (the length prefix and ':') |
| Bencode.EncodeOrderIndependent | src/bencode/types.ts:135-150 | Two dictionaries with the same entries encode the same, whatever their insertion order |
| Bencode.SortedView | src/bencode/types.ts:137-144 | The entries in `keys.sort()` order are strictly sorted and are the same entries |
| Bencode.ToStringFirstBytes | src/bencode/types.ts:66-68 | A string token's text depends only on its first 255 bytes |
| Bencode.ToStringOfKey | src/bencode/utils.ts:35-37 | A key written as a string token reads back as itself when it fits in 255 bytes |
| KeyOrder.OrderSorted | src/bencode/types.ts:138 | `keys.sort()` lists each position once, in UTF-16 code-unit order |
| KeyOrder.OrderOfSorted | src/bencode/types.ts:138 | Keys already in order are left in place |
| KeyOrder.KeyTotal | src/bencode/types.ts:138 | The code-unit order is total on distinct strings |
| KeyOrder.KeyTransitive | src/bencode/types.ts:138 | The code-unit order is transitive |
| KeyOrder.UnitsInjective | src/bencode/types.ts:138 | Distinct strings have distinct code units |
| Bdecode.IntegerFrom | src/bencode/utils.ts:73-88 | The `decode_integer` loop ends inside the input or fails |
| Bdecode.ReadInteger | src/bencode/utils.ts:70-89 | `decode_integer` never throws; when it succeeds it consumes at least the 'e' |
| Bdecode.DecodeString | src/bencode/utils.ts:58-68 | `decode_string` succeeds within the input or fails |
| Bdecode.ReadStream | src/bencode/utils.ts:91-155 | `decodeTokenStream` returns a result or an error, never undefined, and moves forward |
| Bdecode.ReadList | src/bencode/utils.ts:46-56 | `decode_list` moves forward when it succeeds |
| Bdecode.ReadDict | src/bencode/utils.ts:24-44 | `decode_dictionary` moves forward when it succeeds |
| Bdecode.PairsStep | src/bencode/utils.ts:35-37 | Each pair of tokens assigns the value to the key named by the key token's `toString()`, as `Bencode.Put` does, so a `__proto__` key adds nothing |
| Bdecode.PairsDistinct | src/bencode/utils.ts:24-44 | The decoded dictionary has each key once |
| Bdecode.DecodeInteger | src/bencode/utils.ts:70-89 | The scanning loop computes `ReadInteger` |
| Bdecode.DecodeTokenStream | src/bencode/utils.ts:91-155 | The scanning loop computes `ReadStream` |
| Bdecode.DecodeList | src/bencode/utils.ts:46-56 | Computes `ReadList` |
| Bdecode.DecodeDictionary | src/bencode/utils.ts:24-44 | The `putContent` loop computes `ReadDict` |
| Bdecode.Decode | src/bencode/utils.ts:169-213 | A Buffer decodes as `Parse`; a string input throws |
| Bdecode.DecodeEncode | src/bencode/utils.ts:169-217 | `decode(encode(t))` is t for every encodable token: non-negative integers up to 2^53 - 1, dictionaries with sorted keys other than `__proto__` |
| Bdecode.FlatDictParse | src/bencode/utils.ts:24-44 | Any even stream of encodable tokens between 'd' and 'e' decodes to the dictionary `putContent` builds from its pairs, whatever their order or repeats |
| Bdecode.ProtoKeyDropped | src/bencode/utils.ts:24-44 | `d9:__proto__i1ee` decodes to a dictionary without keys, which encodes as `de` |
| Bdecode.TrailingBytesRejected | src/bencode/utils.ts:157-167 | Bytes after a complete token are rejected at the parser's position |
| Bdecode.StringLengthChecked | src/bencode/utils.ts:58-68 | "n:" then at least n bytes decodes to those n bytes, or is rejected as trailing; fewer bytes are rejected |
| Bdecode.StringSlice | src/bencode/utils.ts:58-68 | `decode_string` takes exactly n bytes when there are that many, else fails |
| Bdecode.NegativeIntegerRejected | src/bencode/utils.ts:70-89 | The '-' that `encode` writes for a negative integer is rejected |
| Bdecode.UnterminatedInteger | src/bencode/utils.ts:70-89 | An integer without its 'e' fails, or throws for a lone 'i' at the end |
| Bdecode.DigitsOnly | src/bencode/utils.ts:184-213 | Input of digits only falls off the end of `decode` (undefined) |
| Bdecode.InvalidFirst | src/bencode/utils.ts:197-206 | A first byte that is no token lead, or ':' without a length, is an invalid token |
| Bdecode.UnterminatedList | src/bencode/utils.ts:101-154 | A list whose 'e' is missing runs into the end of input |
| Bdecode.OddDictionary | src/bencode/utils.ts:31-33 | A dictionary holding an odd number of tokens is rejected with that number |
| Bdecode.TokenInStream | src/bencode/utils.ts:101-150 | Inside a stream, an encoded token is read and the stream goes on right after it |
| Bdecode.PairsOfFlatten | src/bencode/utils.ts:35-37 | Putting back a sorted dictionary's pairs, key text by key text, rebuilds it |
| TorrentDicts.Prop | src/torrent/torrentDictUtils.ts:41-75 | Property access: an object's own entry; the `length` of a Buffer, an array or a string; nothing else |
| TorrentDicts.AllEntries | src/torrent/torrentDictUtils.ts:59-65 | `R.all` over an array never throws |
| TorrentDicts.ConvertEntry | src/torrent/torrentDictUtils.ts:77-95 | A converted value is in converted form: Buffers remain only under 'pieces' |
| TorrentDicts.ConvertItem | src/torrent/torrentDictUtils.ts:97-115 | A converted list item holds no Buffer |
| TorrentDicts.ConvertDict | src/torrent/torrentDictUtils.ts:77-95 | `convertBencodeDictValues` keeps the keys and their order and converts every value |
| TorrentDicts.ConvertList | src/torrent/torrentDictUtils.ts:97-115 | `convertBencodeListValues` converts every item in place, whatever the key above the list |
| TorrentDicts.ConvertTwice | src/torrent/torrentDictUtils.ts:77-115 | Converting is idempotent |
| TorrentDicts.ConvertLookup | src/torrent/torrentDictUtils.ts:77-95 | Reading a key of the converted object reads the converted value |
| TorrentDicts.PickLookup | src/torrent/torrentDictUtils.ts:31-34 | The picked object has a key iff it is a listed key other than `__proto__` that the source has, with the same value |
| TorrentDicts.PickKeys | src/torrent/torrentDictUtils.ts:7-15 | The picked object has each key once, only listed keys |
| TorrentDicts.ConvertTorrent | src/torrent/torrentDictUtils.ts:17-39 | Input that is not a dictionary token throws |
| TorrentDicts.Acceptance | src/torrent/torrentDictUtils.ts:17-39 | The input is accepted iff 'announce' is a Buffer, 'announce-list' an Array, and 'info' a dictionary that passes `checkInfoDict`, whose `checkFiles` on an object walks the indices below its `length` converted to a number |
| TorrentDicts.Rejections | src/torrent/torrentDictUtils.ts:24-29 | Missing info, a non-Buffer announce or a non-list announce-list gives None |
| TorrentDicts.InfoOfToken | src/torrent/torrentDictUtils.ts:28 | Only a dictionary can pass the 'info' test; anything else fails without throwing |
| TorrentDicts.SingleFileAccepts | src/torrent/torrentDictUtils.ts:67-75 | Without 'files', the check holds iff 'pieces' and 'name' are Buffers and 'piece length' and 'length' are numbers |
| TorrentDicts.MultiFileBranch | src/torrent/torrentDictUtils.ts:41-57 | With 'files', the multi-file check is used; it needs 'piece length', 'pieces' and 'name' before looking at the files |
| TorrentDicts.MultiFileAccepts | src/torrent/torrentDictUtils.ts:49-65 | With a list of files, the check holds iff the three fields are right and every file has a number 'length' and an Array 'path' |
| TorrentDicts.FilesListAccepts | src/torrent/torrentDictUtils.ts:59-65 | `R.all` over the files holds iff every entry is a file entry |
| TorrentDicts.FilesNumberPasses | src/torrent/torrentDictUtils.ts:59-65 | A number 'files' iterates nothing, so only the three fields decide |
| TorrentDicts.MissingFromBound | src/torrent/torrentDictUtils.ts:59-65 | An object has no index key at or beyond `IndexBound` |
| TorrentDicts.EndlessWalk | src/torrent/torrentDictUtils.ts:59-65 | `R.all` over an object whose `length` is +Infinity stops, without holding, at the first missing index, so any bound past `IndexBound` gives the same verdict |
| TorrentDicts.WalkToMissing | src/torrent/torrentDictUtils.ts:59-65 | A walk that reaches a missing index throws there, whatever its bound beyond it |
| TorrentDicts.DecimalTextWalk | src/torrent/torrentDictUtils.ts:59-65 | `idx < "n"` compares with n: a decimal text `length` converts to its own value |
| TorrentDicts.MantissaOfDigits | src/torrent/torrentDictUtils.ts:59-65 | Reading a digit string as a number gives its decimal value |
| TorrentDicts.TextLengthThrows | src/torrent/torrentDictUtils.ts:59-65 | A files dictionary whose `length` is the byte string "1" makes `R.all` read the missing entry "0", and the check throws |
| TorrentDicts.ConvertedIs | src/torrent/torrentDictUtils.ts:30-34 | An accepted dictionary becomes the torrent keys of its converted values |
| TorrentDicts.ConvertedEntries | src/torrent/torrentDictUtils.ts:30-34 | The result keeps exactly the torrent keys the input has, each once, with its value converted |
| TorrentDicts.PickedEntries | src/torrent/torrentDictUtils.ts:30-34 | Picking the torrent keys from the converted values keeps each key the input has once, converted |
| TorrentDicts.ConvertedFields | src/torrent/torrentDictUtils.ts:77-95 | In the result the announce URL is text and the info dictionary's 'pieces' stays raw bytes |
| TorrentDicts.ConvertedForm | src/torrent/torrentDictUtils.ts:77-115 | Every Buffer left in the result sits directly under a 'pieces' key |
| TorrentDicts.PropKinds | src/torrent/torrentDictUtils.ts:67-75 | The type tests see a Buffer for a byte string, a number for an integer and an Array for a list |
| Utils.PadLeft | src/utils/utils.js:6-8 | The result ends with `str`, has length max(|pad|, |str|), and starts with a prefix of `pad` |
| Utils.EncodeByte | src/utils/utils.js:10-15 | Bytes 49-57, 65-90 and 97-122 stay themselves; any other byte is '%' and two lowercase hex digits |
| Utils.HexPair | src/utils/utils.js:12-14 | `padLeft(b.toString(16), "00")` is the byte's two hex digits |
| Utils.EncodeBuffer | src/utils/utils.js:17-19 | One to three characters per byte |
| Utils.DecodeEncodeBuffer | src/utils/utils.js:10-19 | `encodeBuffer` loses nothing: decoding it gives the buffer back |
| Utils.EncodeBufferInjective | src/utils/utils.js:10-19 | Two buffers with the same encoding are equal |
| Utils.EncodeBufferSafe | src/utils/utils.js:10-19 | An encoded buffer holds only kept characters, '%' and hex digits, never '&' or '=' |
| Utils.Stringify | src/utils/utils.js:30-40 | The `forEach` loop gives "" for no keys, else the `key=value` fields joined by '&' with no trailing '&' |
| Utils.TerminatedJoin | src/utils/utils.js:33-38 | The accumulated text is the joined fields plus one trailing '&' that `slice(0, -1)` removes |
| Utils.QueryFields | src/utils/utils.js:30-40 | Fields free of '&' come back one per key when the request is cut at '&' |
| Utils.BufferFieldSafe | src/utils/utils.js:21-27 | A Buffer value's field holds no '&' when its key does not |
| Utils.DecimalToHexString | src/utils/utils.js:51-58 | The result has even length: the hex digits, with one '0' prefixed exactly when their count is odd |
| Utils.DecimalToHexValue | src/utils/utils.js:51-58 | For n ≥ 0 the result is a hex numeral of n |
| Utf8.DecodeEncode | src/bencode/types.ts:62 | `Buffer.from(s).toString()` is s |
| Utf8.EncodeAscii | src/bencode/types.ts:71-73 | ASCII text encodes one byte per character |
| Utf8.EncodeInjective | src/bencode/types.ts:62 | Distinct strings have distinct encodings |
| Numerals.DecimalValueOfNatToDecimal | src/bencode/types.ts:94 | `n.toString()` reads back as n |
| Numerals.HexValueOfNatToHex | src/utils/utils.js:52 | `n.toString(16)` reads back as n |
| Bytes.ReadInt32BEOfInt32BE | src/peer/torrentMessages.ts:20-23 | `readInt32BE` reads back what `writeInt32BE` wrote |
| Bytes.Int32BEOfReadInt32BE | src/peer/messagesHandler.ts:228-230 | Writing back a read int32 gives the same four bytes |
| Bytes.Slice | src/peer/messagesHandler.ts:224-226 | `slice` clamps its bounds and takes the range between them |
| Bytes.Fit | src/peer/handshake.ts:67-71 | `Buffer.concat(list, n)` truncates or zero-fills to n bytes |

## Left out

- Real file I/O and SHA-1: the backing files are the `FileSystem` map, and a digest check is an input. `openOrCreateFile`, `initFiles`, mkdirp and the stream writes of `fillWithEmptyBytes` are not modelled; `FillWithEmptyBytes` models the chunk sizes it writes, not the bytes (`allocUnsafe` leaves them unspecified).
- `passSha1Verification` reads an unbound `length` (src/disk/piece.ts:218), which throws in Node and makes it answer false. The model takes the check's answer as the `digestMatches` input instead, so a matching digest can be modelled.
- Pieces.Piece.Write: a failed sub-write leaves the inner async function's rejection unhandled, so the promise `write` returns never settles (outcome `NeverSettles`). The `.catch` answer (0, false) is unreachable in the model.
- Promise.all runs its sub-writes concurrently; the model applies them in issue order. The `queue` package's concurrency is a FIFO sequence of jobs, and EventEmitter `emit` calls are not modelled, only returned values and state.
- InfoDicts.CustomInfoDict.NbPieces is a `real`, as JavaScript division gives; loop bounds on it are compared through `Disks.PieceIndexCompare`.
- Framing.MessagesHandler.Parse runs at most `fuel` iterations. After a completed message the loop makes no progress (`Frames.SignalRepeats`, `Frames.PayloadStalls`), so it does not terminate on such input, and the fuel bound is the only cut-off.
- Framing.MessagesHandler.Parse: in AWAIT_HANDSHAKE, `decodeHandshake` returns a Promise whose `.cata` is undefined, so `parse` throws. Its offset advance of 20 and `decodePeerID` are therefore not reached and not modelled. The `Either` check it evidently means is stated by the members on the next line.
- Framing.MessagesHandler.DecodeHandshake and Frames.DecodeHandshakeOfBuild state the `Either` check `decodeHandshake` evidently means (parse the handshake, compare the info-hash). The source calls `.cata` on the Promise it returns and throws, so that check never runs as written.
- Peers.Peer.ReceiveChoke and the other `receive*` handlers state the update each handler intends. In the source they are arrow functions outside the class, bound with `.bind(this)`, so their `this` is not the peer.
- The `receive*` handlers' reads and writes on the torrent are inputs (`torrentHasPiece`, `pieceCompleted`, `chunk`).
- Sockets, trackers, UI, torrent creation, `torrent.ts`, the torrent managers and `app.js` are outside this model.
- `createInfoHash` needs a module that is not part of this model and the crypto library. `querystring.escape` is an `escape` function parameter of `Stringify`.
- `encode_to_file` and `decodeFile` are file I/O around `encode` and `decode`.
- TorrentDicts.Prop: a string's `length` counts characters, not UTF-16 code units.
- TorrentDicts.ConvertDict and the other conversions require values without token instances inside, which is what `get()` returns (`TorrentDicts.TokenFreeGet`).
- The `toString` of lists and dictionaries is modelled (`Bencode.ToString`), but no lemma is stated about its layout.
- Bencode.EncodeString states only the length bound; the byte layout is what `Bdecode.DecodeEncode` relies on.
- Numbers are integers or NaN: fractional and non-finite values are not modelled in bencode.
- Bdecode.ReadInteger and `Bdecode.ParseDigits` read a digit string exactly; `parseInt` rounds one beyond 2^53 to the nearest double.
- Bencode.Encode writes an integer in full decimal. JavaScript writes integers beyond 2^53 rounded and those from 10^21 on in exponent form ("1e+21"), which `decode` rejects. `Bdecode.DecodeEncode` is therefore stated for integers up to 2^53 - 1 (`Bencode.MAX_SAFE_INTEGER`), where the two agree.
- Bencode.Put keeps own keys in the order they were first assigned. JavaScript lists integer-like keys ("0", "9", "10") first, in ascending numeric order, then the others in assignment order. So `Bencode.BencodeDict.PutContent`, `Bencode.FromObject` and `Bdecode.Pairs` can list keys in another order than `Object.keys` would. That order shows through `get()`, `TorrentDicts.ConvertDict` and the keys of `TorrentDicts.ConvertTorrent`'s result, but not through `encode` or `toString`, which sort the keys.
- Bencode.Lookup reads own keys only. After a `__proto__` assignment the source's object inherits the token's properties (`value`, `encode`, ...), and every object inherits `toString`; the torrent checks read none of these names.
- TorrentDicts.CheckFiles reads a decimal text `length` exactly; JavaScript converts it to the nearest double first.
- TorrentDicts.DecimalTextWalk states that the decimal text of every n walks to n. JavaScript rounds a text beyond 2^53 to the nearest double first, so there the lemma is stated for the exact reading only.
- Disks.InitPieces and Disks.TorrentDisk.Init require a non-zero 'piece length'. With 0, which `checkInfoDict` lets through, the source still ends normally. It builds `pieces.length / 20` pieces, each of length 0 except the last, whose length is NaN (`totalSize % 0`), and none of them gets a seek pointer. A piece length here is an integer, so that outcome is not modelled.
- Messages.Have, Messages.Request, Messages.Cancel, Messages.PieceMessage, Messages.Build, Peers.RequestMessages, Peers.Peer.SendHave, Peers.Peer.SendRequest, Peers.Peer.ReceiveRequest and Peers.SendRequestQueues require int32 fields (`IsInt32`, `Buildable`). The RangeError `writeInt32BE` throws for a field outside the int32 range is not modelled.
