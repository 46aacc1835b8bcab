# Media framework: byte streams, queues and allocators

A Dafny model of the byte-level machinery of the framework, and proofs of what it
promises. It has five parts.

* **KLPF files.** `PersistWriter` is the streaming writer over a chain of 2048-byte
  buffers, with nested blocks, reserved headers and zero-copy links; `PersistChain` holds
  what its operations do to the chain. `PersistReader` is the reader, `PersistBlocks` the
  encoding of block trees and what a reader makes of it, `PersistSave` the way blocks are
  written, and the round trip. An address is a region and an offset.
* **Large buffer allocator.** `Lba` and `LbaBins`: blocks of buffers, bins by utilisation,
  and the ordered list of active bins. A buffer is a slot of a block.
* **KMP.** `KmpSession` says what a connection means when its stream is read in one go;
  `KmpIn` is the receiver that does it piece by piece; `KmpAccounts` are properties of
  whole sessions, `KmpReasons` says which frames are delivered and why others are dropped,
  and `KmpAcks` are the acknowledgements. `BufQueue` is the queue of buffers
  with its streams, `KmpOut` the sender over it, `KmpUpstreams` what it keeps for each
  upstream. `KmpEndToEnd` joins sender and receiver. Handlers are functions of the events
  so far; sockets are parameters.
* **Captions.** `CcReader` reads a NAL unit without its emulation prevention bytes,
  `CcReorder` puts caption packets in presentation order, which `CcOrder` tells by the frames
  alone, `CcSettings` collects settings, `CcTime` is the timing of a caption, `CcService`
  writes captions as nested boxes, `CcBoxes` reads them.
* **JSON.** `JsonSpec` is the reading of a text as a function, `JsonParser` the parser,
  `JsonGrammar` the texts it accepts and what they mean, `JsonPrint` compact printing and the
  round trip, `JsonString` decoding in place, `JsonUnicode` the escapes as code points;
  `JsonTokens` and `JsonPretty` are the pretty-printer.

Code that works by changing fields step by step is a class whose methods are proved against
functions on values; the properties are lemmas about these functions and invariants
(`Valid`) that every method keeps. `Sequences`, `Bytes` and `Wrappers` hold shared definitions.

## Where the code differs from what is said of it

* `ngx_persist_write_chain` returns an error for an empty other context whether or not its
  size is looked at (nginx-common/src/ngx_persist_write.c:689-718): see
  `PersistWriter.WriteCtx.WriteChain`.
* With one buffer per block, freeing can unlink the sentinel of the active list
  (nginx-common/src/ngx_lba.c:134-148). `Lba.Lba.Free` says exactly when, and
  `Lba.OneBufferPerBlock` gives a run.
* A caption without text leaves its settings in the buffer
  (nginx-kmp-cc-module/src/ngx_kmp_cc.c:605-607). `CcService.Caption` is stated with what
  was left behind. `CcService.WrongFrame` is a run with a wrong frame;
  `CcSettings.OwnSettingsBehind` and `CcService.CleanLeavesNothing` say exactly when a
  caption gets its own settings. A setting that does not fit is left out
  (nginx-kmp-cc-module/src/ngx_kmp_cc.c:453-458): `CcSettings.OwnSettings` says exactly
  when none is, and `CcSettings.DroppedSetting` is a case.
* Integers in JSON are accepted up to 9223372036854775799, eight short of the 64-bit range.

## Assumptions

* `ngx_queue_remove` clears the `next` pointer of the removed element. The allocator tests
  this pointer to tell whether a bin or a block is linked (nginx-common/src/ngx_lba.c:117,
  198 and 246), but nginx clears it in debug builds only. Everything proved of `Lba` rests
  on this.
* Acknowledged frame ids and positions of the upstreams agree: a larger id means a position at
  least as far, and one id means one position. Acks from the other end stop right behind a
  frame and keep this. Automatic acks do not: they pass media infos and null packets without
  a new id (nginx-kmp-out-module/src/ngx_kmp_out_upstream.c:757-809), and then the position
  chosen in nginx-kmp-out-module/src/ngx_kmp_out_track.c:832-846 need not be the least, as in
  `KmpUpstreams.ReleaseAtTie`; `KmpUpstreams.ReleaseExactly` says when it does no harm.
  `KmpUpstreams.Release` and everything proved of `KmpOut.Track` rest on this.
* Handlers and connections are functions and flags chosen by the caller; the memory limit of
  a buffer queue is not shared with other queues.

## Model

| member | source | states |
|---|---|---|
| `PersistWriter.WriteCtx.constructor` | nginx-common/src/ngx_persist_write.c:305-380 | a fresh context has written nothing; its current buffer is not linked |
| `PersistWriter.WriteCtx.File` | nginx-common/src/ngx_persist_write.c:305-380 | with a file type, the output starts with the file header, whose size is reserved; without one, it is empty |
| `PersistWriter.WriteCtx.FlushBuf` | nginx-common/src/ngx_persist_write.c:119-138 | what is left of a linked buffer becomes the current buffer, without changing the output or losing a reserved interval |
| `PersistWriter.WriteCtx.Write` | nginx-common/src/ngx_persist_write.c:167-215 | appends the bytes to the one byte string the chain stands for, whatever buffers they fall in; no link is left empty, and every reserved interval survives |
| `PersistWriter.WriteCtx.Append` | nginx-common/src/ngx_persist_write.c:141-164 | links caller memory behind the data written so far, splitting the current buffer; the byte string grows by exactly that data |
| `PersistWriter.WriteCtx.Reserve` | nginx-common/src/ngx_persist_write.c:218-266 | the byte string grows by the stale bytes, and the marker names exactly that interval |
| `PersistWriter.WriteCtx.MarkerWrite` | nginx-common/src/ngx_persist_write.c:269-302 | overwrites exactly the start of the reserved interval in the byte string, even if it straddles links or its buffer was split since; the marker moves on to the rest of the interval; every reserved interval stays valid |
| `PersistWriter.WriteCtx.BlockSetHeader` | nginx-common/src/ngx_persist_write.c:397-413 | the first call after a block is opened fixes its header length and flags; later calls change nothing |
| `PersistWriter.WriteCtx.BlockOpen` | nginx-common/src/ngx_persist_write.c:416-448 | fails exactly when five blocks are open; otherwise reserves a block header and fixes the header length of the parent, flagged as a container; intervals reserved before survive |
| `PersistWriter.WriteCtx.BlockClose` | nginx-common/src/ngx_persist_write.c:451-473 | the reserved header becomes id, total size and header length; everything else written is unchanged, and reserved intervals survive |
| `PersistWriter.WriteCtx.WriteBlock` | nginx-common/src/ngx_persist_write.c:476-494 | a complete block is appended: header then data; reserved intervals survive |
| `PersistWriter.WriteCtx.Close` | nginx-common/src/ngx_persist_write.c:660-686 | fails exactly when a block is open; otherwise patches the size into the file header and nothing else |
| `PersistWriter.WriteCtx.WriteChain` | nginx-common/src/ngx_persist_write.c:689-718 | appends the other context's byte string without copying; an empty other context is refused, which the code's own check of a zero size never gets to decide |
| `PersistWriter.WriteCtx.Output` | nginx-common/src/ngx_persist_write.c:390-394 | the chain read link by link is the byte string, and its length is the recorded size |
| `PersistWriter.WriteCtx.WriteListData` | nginx-common/src/ngx_persist_write.c:721-736 | the parts of a list are written in order |
| `PersistWriter.WriteCtx.AppendBufChainN` | nginx-common/src/ngx_persist_write.c:782-812 | a number of bytes of a buffer chain is linked without copying, the last link trimmed |
| `PersistChain.PutKeeps` | nginx-common/src/ngx_persist_write.c:186-208 | bytes copied into the current buffer change the data of the last link only |
| `PersistChain.SplitKeeps` | nginx-common/src/ngx_persist_write.c:119-138 | splitting the current buffer keeps all links apart in memory |
| `PersistChain.AttachKeeps` | nginx-common/src/ngx_persist_write.c:98-164 | linking one more buffer keeps the links apart and appends its data |
| `PersistChain.PatchKeeps` | nginx-common/src/ngx_persist_write.c:269-302 | an overwrite inside one link leaves the data of all other links alone |
| `PersistChain.AdoptKeeps` | nginx-common/src/ngx_persist_write.c:689-718 | two chains joined keep their data, in order |
| `PersistBlocks.ReadEncoded` | nginx-common/src/ngx_persist.c:207-249 | for every block tree that fits its size fields, reading its encoding gives exactly the known blocks with their ids, flags, header fields, data and children, or fails exactly when a known header is too short for its handler |
| `PersistBlocks.Layout` | nginx-common/src/ngx_persist_read.c:158-225 | the front of an encoded block: its id, size, header length and flags are found where the reader looks |
| `PersistBlocks.ReadAhead` | nginx-common/src/ngx_persist.c:207-249 | blocks followed by anything: the reader sees their known part and then what it sees in the rest; a refusal in either part refuses all |
| `PersistBlocks.BrokenTail` | nginx-common/src/ngx_persist_read.c:158-192 | bytes that are too few for a block header, or whose size field is below 12 or beyond the end, are refused |
| `PersistBlocks.CutOff` | nginx-common/src/ngx_persist_read.c:158-192 | a run of blocks that is cut off inside its last one, known or not, is refused |
| `PersistBlocks.ForwardCompatible` | nginx-common/src/ngx_persist.c:207-249 | blocks of unknown id among the children, and longer headers of known blocks, leave what the reader sees unchanged |
| `PersistBlocks.ForwardCompatibleBytes` | nginx-common/src/ngx_persist.c:207-249 | the same on the bytes: both files read alike |
| `PersistReader.MemRStream.GetPtr` | nginx-common/src/ngx_mem_rstream.h:62-75 | advances only if that many bytes are left |
| `PersistReader.MemRStream.Read` | nginx-common/src/ngx_mem_rstream.h:48-59 | copies that many bytes and advances, or fails without moving |
| `PersistReader.MemRStream.GetStream` | nginx-common/src/ngx_mem_rstream.h:78-96 | a bounded reader over the next bytes |
| `PersistReader.MemRStream.ReadBlock` | nginx-common/src/ngx_persist_read.c:158-192 | splits off the block the size field announces; fails exactly when the header is cut short, the size is below a header or beyond the end |
| `PersistReader.MemRStream.SkipBlockHeader` | nginx-common/src/ngx_persist_read.c:195-225 | ends at the end of the header whatever part was read, or fails if that lies before the cursor or behind the block |
| `PersistReader.ConfReadBlocks` | nginx-common/src/ngx_persist.c:207-249 | the reading loop is the one-shot reading of the bytes: unknown blocks skipped, the first bad one fails all |
| `PersistReader.HandleBlock` | nginx-common/src/ngx_persist_read.c:195-225 | a handler sees its header fields, and data or children behind the whole header |
| `PersistReader.ReadFileHeader` | nginx-common/src/ngx_persist_read.c:8-77 | opens, refuses or declines a file as `OpenFile` says, whose outcomes `OpenAnyFile` and `OpenShortFile` list, and leaves a reader over what is behind the header |
| `PersistReader.OpenOwnFile` | nginx-common/src/ngx_persist_read.c:8-77 | a header of the current version opens and hides itself from the reader |
| `PersistReader.OpenAnyFile` | nginx-common/src/ngx_persist_read.c:8-77 | a file with any header: another magic or another type than wanted is malformed, then another version than 9 or 10 is declined, then a header length below 32 or beyond the file is malformed; all others open behind their whole header |
| `PersistReader.OpenShortFile` | nginx-common/src/ngx_persist_read.c:15-21 | a file shorter than 32 bytes is malformed |
| `PersistFormat.FileFields` | nginx-common/src/ngx_persist_format.h:27-35 | each field of a file header at its place, in little-endian order |
| `PersistSave.WritePlan` | nginx-common/src/ngx_persist_write.c:416-494 | open, header pieces, set_header, data or children, close, with any mix of copied and linked pieces, appends the encoding of the block it stands for, and the caller's reserved intervals survive; it fails exactly beyond five levels |
| `PersistSave.WritePlans` | nginx-common/src/ngx_persist.c:156-204 | siblings are appended in order; the caller's reserved intervals survive |
| `PersistSave.SaveFile` | nginx-common/src/ngx_persist_write.c:660-686 | a closed file is its header, with the final size, and the encodings of its blocks |
| `PersistSave.SaveAndLoad` | nginx-common/src/ngx_persist.c:156-249 | round trip: what is written is read back, for every tree of at most five levels |
| `LbaBins.BinStep` | nginx-common/src/ngx_lba.c:151-253 | since there are no more bins than buffers in a block, one buffer more or less moves a block by at most one bin |
| `LbaBins.BinFull` | nginx-common/src/ngx_lba.c:92-207 | a block is in the last bin exactly when it is full |
| `LbaBins.RelinkUpOk` | nginx-common/src/ngx_lba.c:151-207 | the relinking when a block moves up a bin leaves the active list exactly the occupied bins, in order |
| `LbaBins.RelinkDownOk` | nginx-common/src/ngx_lba.c:210-253 | the same when a block moves down a bin |
| `LbaBins.RelinkGoneOk` | nginx-common/src/ngx_lba.c:134-148 | the same when a block is unmapped |
| `Lba.Lba.constructor` | nginx-common/src/ngx_lba.c:314-368 | an empty allocator is sound |
| `Lba.Create` | nginx-common/src/ngx_lba.c:314-368 | refused exactly for buffers that are too small or too large; otherwise as many buffers as fit, and no more bins than that |
| `Lba.Lba.BlockAlloc` | nginx-common/src/ngx_lba.c:92-131 | a new block has its first buffer in use, and its bin joins the active list |
| `Lba.Lba.BlockAllocBuf` | nginx-common/src/ngx_lba.c:151-207 | takes the last freed slot, else the first unused one; the branch for a block without buffers is unreachable; the invariant is kept |
| `Lba.Lba.Alloc` | nginx-common/src/ngx_lba.c:256-281 | the buffer was not in use and nothing else changes hands; memory is mapped only when all blocks are full; the fullest bin that is not full is used; the branch for an empty active bin is unreachable |
| `Lba.Lba.BlockFree` | nginx-common/src/ngx_lba.c:134-148 | unmapping keeps the invariant; the list's sentinel is lost exactly when the block was alone among the full ones |
| `Lba.Lba.BlockFreeBuf` | nginx-common/src/ngx_lba.c:210-253 | the slot goes on the free list and the block down a bin, or the block is unmapped because bin 0 holds another |
| `Lba.Lba.Free` | nginx-common/src/ngx_lba.c:284-294 | exactly this buffer goes out of use; at most one block without buffers in use is kept; with two or more buffers per block the allocator stays valid, and otherwise the sentinel is lost exactly in the named case |
| `Lba.SlotsConserved` | nginx-common/src/ngx_lba.c:151-253 | every slot ever used is live or on the free list once, and used counts the live ones |
| `Lba.SlotsDisjoint` | nginx-common/src/ngx_lba.c:92-207 | buffers of one block do not overlap and lie inside it |
| `Lba.OneBufferPerBlock` | nginx-common/src/ngx_lba.c:134-148 | with one buffer per block, two allocations and two frees lose the sentinel |
| `BufChain.Copy` | nginx-common/src/ngx_buf_chain.c:47-74 | copies the first bytes of a chain and trims it to the rest; fails exactly when the chain is shorter |
| `BufChain.Skip` | nginx-common/src/ngx_buf_chain.c:21-44 | trims a chain to what lies behind; fails exactly when it is shorter |
| `BufChain.GatherAppend` | nginx-common/src/ngx_buf_chain.c:47-74 | the bytes of two chains in a row |
| `BufQueue.BufQueue.constructor` | nginx-common/src/ngx_buf_queue.c:6-33 | an empty queue, with its limits on free buffers and memory |
| `BufQueue.BufQueue.Get` | nginx-common/src/ngx_buf_queue.c:134-174 | reuses a free buffer first; fails exactly when there is none and the memory limit is reached; the counts and the memory balance are kept |
| `BufQueue.BufQueue.Free` | nginx-common/src/ngx_buf_queue.c:177-252 | keeps every node from the one holding the limit on, in order, or the last one if none does; released nodes fill the free stock, the rest go back to the allocator |
| `BufQueue.BufQueue.Release` | nginx-common/src/ngx_buf_queue.c:203-249 | the loop releases exactly the nodes in front of the limit, in order |
| `BufQueue.BufQueue.Delete` | nginx-common/src/ngx_buf_queue.c:36-66 | everything is given back and the memory balance restored |
| `BufQueue.BufQueue.StreamWrite` | nginx-common/src/ngx_buf_queue_stream.c:80-121 | overwrites across buffers, ending strictly inside one; fails exactly when no buffer lies behind the data |
| `BufQueue.BufQueue.StreamRead` | nginx-common/src/ngx_buf_queue_stream.c:124-165 | returns the bytes from a position, ending where the write of as many would |
| `BufQueue.BufQueue.StreamSkip` | nginx-common/src/ngx_buf_queue_stream.c:168-196 | ends where a read of as many bytes would |
| `BufQueue.BufQueue.WriteThenRead` | nginx-common/src/ngx_buf_queue_stream.c:80-196 | a write followed by a read from the same position returns the data, and write, read and skip end at the same place |
| `BufQueue.BufQueue.SamePlace` | nginx-common/src/ngx_buf_queue_stream.c:7-11 | a position inside a buffer is determined by its offset |
| `KmpFormat.HeaderRoundTrip` | nginx-common/src/ngx_live_kmp.h:199-204 | a packet header is read back from its bytes, each field from its place |
| `KmpFormat.MediaInfoRoundTrip` | nginx-common/src/ngx_live_kmp.h:170-177 | a media info is read back, each field from its place |
| `KmpFormat.FrameRoundTrip` | nginx-common/src/ngx_live_kmp.h:180-186 | a frame is read back, each field from its place, the signed ones in two's complement |
| `KmpSession.ParsedConsistent` | nginx-kmp-in-module/src/ngx_kmp_in.c:507-694 | after reading, what is pending is the start of a packet and nothing more can be taken from it |
| `KmpSession.ParseSplit` | nginx-kmp-in-module/src/ngx_kmp_in.c:507-694 | reading a stream in two pieces is reading it in one, for every stream, valid or not |
| `KmpAccounts.ChunkIndependence` | nginx-kmp-in-module/src/ngx_kmp_in.c:507-748 | any two ways of cutting a stream into reads give the same events with their data and the same end |
| `KmpAccounts.EventsGrow` | nginx-kmp-in-module/src/ngx_kmp_in.c:507-694 | what the handlers have seen is never taken back |
| `KmpAccounts.ParseAccounts` | nginx-kmp-in-module/src/ngx_kmp_in.c:359-504 | in every live session the current frame id is the initial one plus all frames received or skipped, and delivered frames carry the number of their packet, none from the prefix to skip |
| `KmpAccounts.StreamAccounts` | nginx-kmp-in-module/src/ngx_kmp_in.c:359-504 | this holds from the start of every stream |
| `KmpReasons.StreamTold` | nginx-kmp-in-module/src/ngx_kmp_in.c:359-504 | for every stream, valid or not, cut in any way: the events are those that the packets tell without any session state; a frame is dropped for the first reason that holds of duplicate, no media info, empty, empty duration and no key, and each counter counts the frames with its own reason, key frames and bytes included |
| `KmpReasons.ParseTold` | nginx-kmp-in-module/src/ngx_kmp_in.c:507-694 | the same of one-shot reading, from any point of the stream behind an accepted connect packet |
| `KmpReasons.StreamCredible` | nginx-kmp-in-module/src/ngx_kmp_in.c:374-427 | for every stream, of the events alone: a frame has data and a media info with a timescale before it, behind a subtitle media info it has a positive duration, and the first one behind a video media info is a key frame, unless skipped frames that stand for a key frame ended in between |
| `KmpReasons.PacketAnswered` | nginx-kmp-in-module/src/ngx_kmp_in.c:192-356 | what each packet makes of the session: which answers of a handler end it and with which code, 200 behind an end of stream, 400 for a packet that is cut short |
| `KmpReasons.HeaderRefused` | nginx-kmp-in-module/src/ngx_kmp_in.c:542-582 | a header of unknown type or with sizes out of bounds ends the session with 400, whatever is behind it |
| `KmpReasons.ConnectRefused` | nginx-kmp-in-module/src/ngx_kmp_in.c:950-1001 | a connect packet of another type, with sizes out of bounds or without an initial frame id is refused with 400 before the handlers see it; else they decide |
| `KmpIn.KmpIn.constructor` | nginx-kmp-in-module/src/ngx_kmp_in.c:1107-1145 | a new connection has nothing pending |
| `KmpIn.KmpIn.CopyPacketHeader` | nginx-kmp-in-module/src/ngx_kmp_in.c:240-300 | the structure is copied, unknown header bytes are skipped, the nodes passed are returned; too short a header is an error; the branches for a failed copy or skip are unreachable |
| `KmpIn.KmpIn.ConnectDataReady` | nginx-kmp-in-module/src/ngx_kmp_in.c:192-237 | the connect data handler sees the data behind the whole header, and its answer decides |
| `KmpIn.KmpIn.MediaInfoReady` | nginx-kmp-in-module/src/ngx_kmp_in.c:303-356 | a media info is handed over and remembered, or refused |
| `KmpIn.KmpIn.FrameReady` | nginx-kmp-in-module/src/ngx_kmp_in.c:359-504 | a frame is delivered or counted under the first reason to skip it; which one that is, `KmpReasons.StreamTold` says of the packets |
| `KmpIn.KmpIn.SkipOrDeliver` | nginx-kmp-in-module/src/ngx_kmp_in.c:374-500 | the order of the reasons, as the session has it: prefix to skip, no media info, empty, empty duration, no key; the whole new state with its counters |
| `KmpIn.KmpIn.LinkData` | nginx-kmp-in-module/src/ngx_kmp_in.c:598-637 | data that follows the last node in memory extends it, other data gets a node of its own; the bytes of the packet grow by that data |
| `KmpIn.KmpIn.TakeHeader` | nginx-kmp-in-module/src/ngx_kmp_in.c:525-589 | a packet header is collected from whatever pieces it comes in and checked |
| `KmpIn.KmpIn.TakeData` | nginx-kmp-in-module/src/ngx_kmp_in.c:592-637 | moves bytes of the packet from the buffer to the chain, losing none |
| `KmpIn.KmpIn.PacketReady` | nginx-kmp-in-module/src/ngx_kmp_in.c:639-690 | a complete packet is handled as the session says, and its remaining nodes are returned |
| `KmpIn.KmpIn.Step` | nginx-kmp-in-module/src/ngx_kmp_in.c:519-691 | one round of the loop, from any state, does what one-shot reading does |
| `KmpIn.KmpIn.ProcessBuffer` | nginx-kmp-in-module/src/ngx_kmp_in.c:507-694 | the loop as a whole is the one-shot reading of what was pending and what has arrived |
| `KmpIn.KmpIn.ReadHeader` | nginx-kmp-in-module/src/ngx_kmp_in.c:896-1037 | the connect packet header is collected, checked in order and answered |
| `KmpIn.KmpIn.Connect` | nginx-kmp-in-module/src/ngx_kmp_in.c:930-1037 | each refusal, and the state of the parser after acceptance, are those of one-shot reading |
| `KmpIn.KmpIn.ReadPackets` | nginx-kmp-in-module/src/ngx_kmp_in.c:697-748 | a read into the active buffer, or a new one when it is full, and its processing |
| `KmpIn.KmpIn.ReadHandler` | nginx-kmp-in-module/src/ngx_kmp_in.c:1040-1104 | all input is consumed, with the events of one-shot reading, in buffers of any sizes |
| `KmpIn.KmpIn.FreePrefix` | nginx-kmp-in-module/src/ngx_kmp_in.c:279-297 | each node taken from the allocator stays in exactly one place: the packet, the returned ones, or a handler's |
| `KmpIn.KmpIn.HandOver` | nginx-kmp-in-module/src/ngx_kmp_in.c:483-486 | ... and so when a handler takes the nodes |
| `KmpIn.KmpIn.Cleanup` | nginx-kmp-in-module/src/ngx_kmp_in.c:138-160 | after a disconnect every node was returned or belongs to a handler |
| `KmpIn.Serve` | nginx-kmp-in-module/src/ngx_kmp_in.c:1040-1104 | a whole connection: the handlers see what a one-shot reading of the stream would show them, however it arrives |
| `KmpAcks.AckSender.constructor` | nginx-kmp-in-module/src/ngx_kmp_in.c:1023-1027 | no ack has been sent; the packet is prepared |
| `KmpAcks.AckSender.AckFrames` | nginx-kmp-in-module/src/ngx_kmp_in.c:830-855 | a larger id is remembered, and sent at once unless an ack is on its way |
| `KmpAcks.AckSender.WriteHandler` | nginx-kmp-in-module/src/ngx_kmp_in.c:751-827 | the wire grows by exactly what the socket took: part of the packet in flight moves the position by that many bytes and leaves the rest to the next call; a whole packet is followed by what the next send took of the next one, if a larger id was requested; a failed send that is reached closes the connection, and nothing else does |
| `KmpAcks.AckSender.SendSome` | nginx-kmp-in-module/src/ngx_kmp_in.c:776-797 | one send: the wire and the position move on by what the socket took |
| `KmpAcks.AckSender.SendRest` | nginx-kmp-in-module/src/ngx_kmp_in.c:776-803 | when a packet is through, another follows exactly if a larger id was requested meanwhile |
| `KmpAcks.AckSender.WireDecodes` | nginx-kmp-in-module/src/ngx_kmp_in.c:751-855 | the wire is whole acks with strictly rising ids and a prefix of the one in flight; with nothing in flight the last one is the largest requested |
| `KmpAcks.AckLayout` | nginx-common/src/ngx_live_kmp.h:189-194 | each field of an ack packet at its place; all but type, length and frame id are zero |
| `KmpUpstreams.TilesCover` | nginx-kmp-out-module/src/ngx_kmp_out_track.c:802-849 | the ranges handed to an upstream are the stream up to where they end: no gap, no repeat |
| `KmpUpstreams.Append` | nginx-kmp-out-module/src/ngx_kmp_out_track.c:818-840 | one more range handed over |
| `KmpUpstreams.Send` | nginx-kmp-out-module/src/ngx_kmp_out_track.c:852-881 | what is sent next continues the stream, whatever becomes of the connection |
| `KmpUpstreams.Release` | nginx-kmp-out-module/src/ngx_kmp_out_track.c:829-846 | where acknowledged ids and positions agree, everything before the position of the least id can go |
| `KmpUpstreams.ReleaseExactly` | nginx-kmp-out-module/src/ngx_kmp_out_track.c:829-846 | whatever the ids are, letting go of what lies before one upstream's position is right if and only if no other position lies in an earlier buffer |
| `KmpUpstreams.ReleaseAtTie` | nginx-kmp-out-module/src/ngx_kmp_out_track.c:832-846 | two upstreams with one acknowledged id at different positions: the code lets go of a buffer that one of them still has to read |
| `KmpUpstreams.Patch` | nginx-kmp-out-module/src/ngx_kmp_out_track.c:1366-1379 | an overwrite behind all that was sent does not touch what was sent |
| `KmpOut.Track.constructor` | nginx-kmp-out-module/src/ngx_kmp_out_track.c:1572-1655 | a new track has written nothing |
| `KmpOut.Track.HandOut` | nginx-kmp-out-module/src/ngx_kmp_out_track.c:818-840 | every upstream gets the same range; the least acknowledged one is found; sending is due if any of them is ready |
| `KmpOut.Track.FreeAcked` | nginx-kmp-out-module/src/ngx_kmp_out_track.c:829-846 | the queue starts at the buffer of the least acknowledged position, and all that was not acknowledged is still in it |
| `KmpOut.Track.AppendAll` | nginx-kmp-out-module/src/ngx_kmp_out_track.c:802-849 | everything written has been handed out, sending is due if a connection is ready, and no buffer is kept in front of the least acknowledged position |
| `KmpOut.Track.SendOne` | nginx-kmp-out-module/src/ngx_kmp_out_track.c:852-881 | a ready upstream sends the next bytes of the stream, out of the buffers, as many as its connection takes, and stays ready if these are all it was handed |
| `KmpOut.Track.SendAll` | nginx-kmp-out-module/src/ngx_kmp_out_track.c:852-881 | when sending is due and no marker is open, each upstream sends as much as its connection takes; else nothing is sent; afterwards a connection that is still ready has taken all it was handed |
| `KmpOut.Track.Flush` | nginx-kmp-out-module/src/ngx_kmp_out_track.c:884-900 | hands out and sends what is pending: a connection that is still ready has taken everything written; acknowledged buffers are freed |
| `KmpOut.Track.WriteChain` | nginx-kmp-out-module/src/ngx_kmp_out_track.c:1114-1194 | the stream grows by the input, whatever its buffers; there is room in the active buffer afterwards; with no marker open, a ready connection has taken all that was handed out; a failure keeps the invariant and has one of two reasons, a connection that refuses data or the memory limit |
| `KmpOut.Track.Write` | nginx-kmp-out-module/src/ngx_kmp_out_track.c:1197-1210 | the same for one buffer |
| `KmpOut.Track.MarkerStart` | nginx-kmp-out-module/src/ngx_kmp_out_track.c:1353-1363 | the marker is where the stream ends; sending stops there |
| `KmpOut.Track.MarkerEnd` | nginx-kmp-out-module/src/ngx_kmp_out_track.c:1366-1379 | exactly the bytes at the marker change, in whichever queue buffers they are, and none of them had been sent; with the last marker sending goes on; the failure branch is unreachable |
| `KmpOut.Track.WriteMediaInfo` | nginx-kmp-out-module/src/ngx_kmp_out_track.c:1213-1242 | appends a whole media info packet |
| `KmpOut.Track.WriteFrame` | nginx-kmp-out-module/src/ngx_kmp_out_track.c:1306-1350 | appends the packet header, the frame and the data |
| `KmpOut.Track.FrameStart` | nginx-kmp-out-module/src/ngx_kmp_out_track.c:1382-1398 | leaves room for the packet header; fails only for one of the two reasons |
| `KmpOut.Track.FrameEnd` | nginx-kmp-out-module/src/ngx_kmp_out_track.c:1409-1461 | fills in the packet header, with the size of what was written since; fails only if a connection refuses data |
| `KmpOut.Track.WriteFrameInPieces` | nginx-kmp-out-module/src/ngx_kmp_out_track.c:1382-1461 | a frame written piece by piece gives the bytes of a frame written at once; on failure, for one of the two reasons, no upstream gets more than a part of these |
| `KmpOut.Track.NothingLost` | nginx-kmp-out-module/src/ngx_kmp_out_track.c:802-881 | ranges handed out plus pending bytes are all that was written, and what an upstream has sent is the beginning of it |
| `KmpOut.Track.WireSendable` | nginx-kmp-out-module/src/ngx_kmp_out_track.c:852-881 | at any time, also after errors, what an upstream has sent is a part of the stream before the first open marker |
| `KmpOut.Track.EnoughMemory` | nginx-kmp-out-module/src/ngx_kmp_out_track.c:1114-1194 | a memory limit that covers the stream and the free stock never stops a write, even if nothing is acknowledged |
| `KmpOut.Track.Environment` | nginx-kmp-out-module/src/ngx_kmp_out_track.c:818-849 | between operations upstreams may acknowledge, lose their connection or get it back when nothing is left for them, without harm to the invariant |
| `KmpOut.Track.WriteEvent` | nginx-kmp-out-module/src/ngx_kmp_out_upstream.c:1316-1361 | a connection that can take data again is sent what is left for it |
| `KmpOut.Track.ReadySent` | nginx-kmp-out-module/src/ngx_kmp_out_track.c:852-881 | when nothing is due, a ready upstream has sent exactly what it was handed |
| `KmpOut.Track.KeepAlive` | nginx-kmp-out-module/src/ngx_kmp_out_track.c:1508-1531 | appends an empty packet, or fails for one of the two reasons |
| `KmpOut.Track.SendEndOfStream` | nginx-kmp-out-module/src/ngx_kmp_out_track.c:1464-1505 | appends the end packet, hands everything out, and a connection that is still ready has taken all of it; refused after a write error, and else fails only for one of the two reasons |
| `KmpEndToEnd.Delivery` | nginx-kmp-in-module/src/ngx_kmp_in.c:303-694 | every legal run of packets is delivered in order with the same fields and data |
| `KmpEndToEnd.EndToEnd` | nginx-kmp-in-module/src/ngx_kmp_in.c:303-748 | end to end: for any run of writes, connect packet, number of frames to skip and way of cutting, the handlers see the connection and then the same media infos and frames, flags masked, frame k with id initial + k, but for the frames to skip |
| `KmpEndToEnd.EndToEndFinished` | nginx-kmp-out-module/src/ngx_kmp_out_track.c:1464-1505 | a run that ends with the end packet: the handlers see the run, then the end of the stream, and the connection is closed with code 200 |
| `KmpEndToEnd.Finish` | nginx-kmp-out-module/src/ngx_kmp_out_track.c:1464-1505 | a track that has written a run is ended, and what it sent is served to a session: the same |
| `KmpEndToEnd.SkippedFrames` | nginx-kmp-in-module/src/ngx_kmp_in.c:380-392 | the frames to skip are the first ones; the others keep their ids |
| `KmpEndToEnd.LegalResumed` | nginx-kmp-in-module/src/ngx_kmp_in.c:380-392 | a run that is delivered to a new receiver is delivered to one that resumes, if that one does not wait for a key frame behind what it skips |
| `KmpEndToEnd.EndToEndSoFar` | nginx-kmp-in-module/src/ngx_kmp_in.c:303-748 | and if only a part of the bytes has come through, they have seen a part of that |
| `KmpEndToEnd.WriteAll` | nginx-kmp-out-module/src/ngx_kmp_out_track.c:1213-1461 | a run written on a track gives the bytes of its packets; a failure has one of the two reasons, and whatever happens, what may be sent is a part of these bytes |
| `KmpEndToEnd.Broadcast` | nginx-kmp-out-module/src/ngx_kmp_out_track.c:802-900 | a run written and flushed is on the wire of every upstream whose connection is ready in the end, and with wide connections and memory for the stream on every wire |
| `KmpEndToEnd.Transmit` | nginx-kmp-out-module/src/ngx_kmp_out_track.c:1114-1461 | a track, one of its upstreams and a session joined: whatever happens, the handlers see the first part of the run; if the connection is ready in the end, or all connections are wide and the memory covers the stream, they see the whole run |
| `KmpEndToEnd.Relay` | nginx-kmp-out-module/src/ngx_kmp_out_track.c:802-881 | at any moment, also after a failed write, what an upstream has sent shows the handlers at its other end the first part of the run, and all of it once everything is sent |
| `CcReader.EpReader.constructor` | nginx-kmp-cc-module/src/ngx_buf_chain_reader.c:56-62 | a reader over a NAL unit inside a chain |
| `CcReader.EpReader.Read` | nginx-kmp-cc-module/src/ngx_buf_chain_reader.c:65-110 | succeeds exactly when the unit still holds that many payload bytes, returns them in order, and never passes the end of the unit |
| `CcReader.EpReader.Skip` | nginx-kmp-cc-module/src/ngx_buf_chain_reader.c:113-155 | ends in the state a read of as many bytes ends in; left counts the raw bytes that remain |
| `CcReader.NeededSplits` | nginx-kmp-cc-module/src/ngx_buf_chain_reader.c:65-110 | the raw bytes needed for the first payload bytes hold exactly those |
| `CcReader.NeededLeast` | nginx-kmp-cc-module/src/ngx_buf_chain_reader.c:65-110 | and no fewer raw bytes do |
| `CcReader.EscapedPayload` | nginx-kmp-cc-module/src/ngx_buf_chain_reader.c:56-110 | reading undoes the insertion of emulation prevention bytes, for every payload |
| `CcReader.ReadPayload` | nginx-kmp-cc-module/src/ngx_buf_chain_reader.c:56-155 | for every payload, chain and sequence of reads and skips, the reads return the escaped payload's bytes in order, up to the first operation that asks for too much |
| `CcReorder.InsertedStable` | nginx-kmp-cc-module/src/ngx_kmp_cc.c:967-992 | packets of one pts stay in order of arrival, the others where they are |
| `CcReorder.Reorder.Alloc` | nginx-kmp-cc-module/src/ngx_kmp_cc.c:827-856 | a free packet first, then new ones up to the limit; each packet of the pool is unused, free or pending, once |
| `CcReorder.Reorder.Insert` | nginx-kmp-cc-module/src/ngx_kmp_cc.c:967-992 | behind all packets that are not later; the queue stays sorted |
| `CcReorder.Reorder.PushAll` | nginx-kmp-cc-module/src/ngx_kmp_cc.c:939-964 | hands everything to the decoders, earliest first, up to the first failure |
| `CcReorder.Reorder.AddFrame` | nginx-kmp-cc-module/src/ngx_kmp_cc.c:1202-1229 | a key frame, or one later than the last anchor, lets out what is pending, and no other does; captions that could be read are pending, in their places; it fails only if a packet is refused by the decoders or the pool is used up; the order so far is kept if the anchor goes forward, or if the frame is later than the anchor before the last |
| `CcReorder.Run` | nginx-kmp-cc-module/src/ngx_kmp_cc.c:939-1229 | for every sequence of frames: what has come out and what is held back are those of the order told by the frames alone; no readable caption is lost and those of one pts keep their order; if anchors increase and other frames are later than the anchor before the last, all that comes out is in order; without failing decoders and with packets for all, it does not fail |
| `CcOrder.OrderlyExactly` | nginx-kmp-cc-module/src/ngx_kmp_cc.c:939-1229 | everything comes out in order, whatever captions the frames have, if and only if no frame is earlier than one whose captions an anchor has let out before |
| `CcOrder.LetOutExactly` | nginx-kmp-cc-module/src/ngx_kmp_cc.c:1213-1221 | a frame lets out what is held back if and only if it is a key frame or later than all frames since the last key frame |
| `CcOrder.SteadyOrderly` | nginx-kmp-cc-module/src/ngx_kmp_cc.c:1213-1221 | a stream whose anchors increase and whose other frames are later than the anchor before the last is like that |
| `CcReorder.OrderAnchored` | nginx-kmp-cc-module/src/ngx_kmp_cc.c:1213-1221 | what an anchor lets out follows what was let out before |
| `CcBoxes.SampleRoundTrip` | nginx-kmp-cc-module/src/ngx_kmp_cc.c:469-685 | a reader of the boxes gets the settings and the text back: one vttc box with an optional sttg and one payl box, every size true |
| `CcBoxes.BoxRoundTrip` | nginx-kmp-cc-module/src/ngx_kmp_cc.c:469-493 | a box is read back from its bytes |
| `CcService.Service.FrameStart` | nginx-kmp-cc-module/src/ngx_kmp_cc.c:408-429 | only from the idle state |
| `CcService.Service.AddSetting` | nginx-kmp-cc-module/src/ngx_kmp_cc.c:432-466 | added with a space, or left out if it does not fit |
| `CcService.Service.FrameWrite` | nginx-kmp-cc-module/src/ngx_kmp_cc.c:496-582 | the first text opens frame and boxes; all text is collected in order through the buffer; an error in a caption means that the track could not write |
| `CcService.Service.FrameEnd` | nginx-kmp-cc-module/src/ngx_kmp_cc.c:585-685 | with text, exactly one frame of nested boxes has been added to the stream, whose timing `CcTime.TimingNearest` tells; without, nothing, and the settings stay in the buffer; an error in a caption means that the track could not write |
| `CcService.Service.CloseBoxes` | nginx-kmp-cc-module/src/ngx_kmp_cc.c:614-650 | the sizes are patched inner first, and the stream ends with the sample, unless the track could not write |
| `CcTime.TimingNearest` | nginx-kmp-cc-module/src/ngx_kmp_cc.c:661-673 | without overflow, a caption frame starts and ends at the units of its timescale nearest to the times of the caption; its duration is not negative, and positive if it lasts a unit; it was created that much before the last frame |
| `CcTime.RescaleNearest` | nginx-kmp-cc-module/src/ngx_kmp_cc.c:45-46 | a time in another scale, to the nearest unit |
| `CcTime.RescaleLater` | nginx-kmp-cc-module/src/ngx_kmp_cc.c:45-46 | times keep their order in another scale, and are apart if they are by a unit |
| `CcService.CaptionRead` | nginx-kmp-cc-module/src/ngx_kmp_cc.c:585-685 | the frame of a caption is a frame packet with this timing, and its data a sample with the settings and the text |
| `CcService.Caption` | nginx-kmp-cc-module/src/ngx_kmp_cc.c:408-685 | for any settings and any fragments of text of any length: the frame holds the settings found in the buffer and its own, and all the text; an error means that the track could not write |
| `CcSettings.Leftover` | nginx-kmp-cc-module/src/ngx_kmp_cc.c:605-607 | settings left behind by a caption without text head those of the next |
| `CcSettings.OwnSettings` | nginx-kmp-cc-module/src/ngx_kmp_cc.c:432-466 | from an empty buffer, a caption gets its own settings, joined by spaces, if and only if they fit in the buffer and the first one is kept |
| `CcSettings.OwnSettingsBehind` | nginx-kmp-cc-module/src/ngx_kmp_cc.c:432-466 | with n bytes of the buffer in use, it does so whatever these bytes are if and only if n is 0 and the settings fit |
| `CcSettings.Collected` | nginx-kmp-cc-module/src/ngx_kmp_cc.c:432-466 | the settings come behind what is in the buffer, each behind a space, if and only if there is room for all of that |
| `CcSettings.NotOwnSettings` | nginx-kmp-cc-module/src/ngx_kmp_cc.c:605-607 | if there is room behind what was left, the settings are never the caption's own |
| `CcSettings.NothingKept` | nginx-kmp-cc-module/src/ngx_kmp_cc.c:453-465 | nothing is collected if and only if each setting is empty or as long as the buffer |
| `CcSettings.DroppedSetting` | nginx-kmp-cc-module/src/ngx_kmp_cc.c:453-458 | two settings of which the second is left out |
| `CcService.Captions` | nginx-kmp-cc-module/src/ngx_kmp_cc.c:408-685 | a run of captions: the frames, with the settings each found and collected, and what is left in the buffer |
| `CcService.CleanLeavesNothing` | nginx-kmp-cc-module/src/ngx_kmp_cc.c:585-607 | a run leaves nothing in the buffer if and only if no setting was kept since its last caption with text |
| `CcService.ProperFrames` | nginx-kmp-cc-module/src/ngx_kmp_cc.c:408-685 | if each caption with text finds nothing in the buffer and its settings fit, all frames are as they should be |
| `CcService.WrongFrame` | nginx-kmp-cc-module/src/ngx_kmp_cc.c:605-607 | a caption with a setting and no text, then one with text: its frame shows both settings |
| `JsonParser.Parser.ParseString` | nginx-common/src/ngx_json_parser.c:158-201 | up to the closing quote, a backslash hiding the next character; whether there was one is recorded |
| `JsonParser.Parser.ParseObjectKey` | nginx-common/src/ngx_json_parser.c:204-253 | the key is stored in lower case, in the text itself, but for characters behind a backslash; its hash goes with it |
| `JsonParser.KeyLowered` | nginx-common/src/ngx_json_parser.c:222-225 | in a key without escapes the letters A to Z are stored in lower case and all else as it is |
| `JsonParser.KeyHashIs` | nginx-common/src/ngx_json_parser.c:204-253 | the hash of such a key is its characters in lower case as digits in base 31, in 64 bits |
| `JsonParser.Parser.ParseInt` | nginx-common/src/ngx_json_parser.c:256-292 | accepts exactly magnitudes up to 9223372036854775799, without overflow |
| `JsonParser.Parser.ParseDigits` | nginx-common/src/ngx_json_parser.c:276-288 | the value of the digits, or failure, exactly if it is beyond the bound |
| `JsonParser.Parser.ParseFraction` | nginx-common/src/ngx_json_parser.c:295-339 | all digits over a power of ten, up to 19 places, under the same bound |
| `JsonParser.Parser.GetValueType` | nginx-common/src/ngx_json_parser.c:97-148 | the type of a value from its first characters |
| `JsonParser.Parser.ParseItems` | nginx-common/src/ngx_json_parser.c:383-459 | the elements in order, in parts that double in size up to a limit |
| `JsonParser.Parser.ParseArray` | nginx-common/src/ngx_json_parser.c:342-460 | an array of elements of one type; more than 32 containers deep is refused |
| `JsonParser.Parser.ParseObject` | nginx-common/src/ngx_json_parser.c:463-542 | an object, under the same limit |
| `JsonParser.Parser.ParseValue` | nginx-common/src/ngx_json_parser.c:613-658 | the value the reading function takes off the front, the rest of the text untouched |
| `JsonParser.Parse` | nginx-common/src/ngx_json_parser.c:661-694 | the whole text is one value between spaces |
| `JsonParser.TooLarge` | nginx-common/src/ngx_json_parser.c:277-288 | where the guard stops, the number is beyond the bound |
| `JsonSpec.PartsSum` | nginx-common/src/ngx_json_parser.c:342-460 | no array part is empty, and their counts add up to the number of elements |
| `JsonSpec.PartsGrow` | nginx-common/src/ngx_json_parser.c:383-459 | a part is followed by one of twice its size while that stays below 65536 bytes with its header, else by one as large; all but the last are full, and none is larger than that |
| `JsonGrammar.ParsesExactly` | nginx-common/src/ngx_json_parser.c:661-694 | the parser accepts exactly the texts of a grammar, with any spaces between the tokens, and returns what they mean: a text gives a value if and only if it is a way to write it; so nothing behind the value, no mixed arrays, no nulls in them, no number beyond the bounds and nothing too deep gets through |
| `JsonGrammar.AcceptValue` | nginx-common/src/ngx_json_parser.c:613-658 | every text of the grammar is taken off the front, whatever is behind it |
| `JsonGrammar.ReadValue` | nginx-common/src/ngx_json_parser.c:613-658 | and whatever is taken off the front is one of these texts |
| `JsonPrint.RoundTrip` | nginx-common/src/ngx_json_parser.c:613-694 | for every supported value, parsing its compact printing returns it |
| `JsonPrint.NumberRoundTrip` | nginx-common/src/ngx_json_parser.c:295-339 | a number comes back with its sign and places, whatever is behind it but a digit or a point |
| `JsonPrint.ParsePrintParse` | nginx-common/src/ngx_json_parser.c:613-694 | everything the parser accepts is a supported value, and parses again from its printing |
| `JsonString.DecodeInPlace` | nginx-common/src/ngx_json_parser.c:733-809 | decoding a string over itself: the write cursor never passes the read cursor, the result is the decoded string, see `JsonUnicode.WrittenRead`, and nothing outside changes; fails exactly on a wrong escape |
| `JsonString.GetString` | nginx-common/src/ngx_json_parser.c:812-826 | a string without escapes is itself, others are decoded |
| `JsonString.GetStrings` | nginx-common/src/ngx_json_parser.c:733-826 | strings at places that do not overlap, decoded one after the other: each one is left alone by the others |
| `JsonString.DecodeEscaped` | nginx-common/src/ngx_json_parser.c:733-809 | decoding undoes escaping, for every byte string |
| `JsonUnicode.WrittenRead` | nginx-common/src/ngx_json_parser.c:733-809 | code points written in any mix of plain characters, short escapes and four hex digits in either case are decoded to bytes from which a reader of UTF-8 gets them back |
| `JsonUnicode.Utf8RoundTrip` | nginx-common/src/ngx_json_parser.c:697-730 | each code of four hex digits is written as UTF-8 in the shortest form: a reader that goes by the lead byte gets it back |
| `JsonUnicode.RefusedEscape` | nginx-common/src/ngx_json_parser.c:748-799 | a backslash at the end, before another character than the known ones, or before fewer than four hex digits is refused |
| `JsonString.StringsRoundTrip` | nginx-common/src/ngx_json_parser.c:661-826 | any bytes, written as a JSON string and parsed, come back |
| `JsonTokens.LexRender` | nginx-common/src/ngx_json_pretty.c:139-270 | the tokens of a text do not depend on the spaces between them |
| `JsonTokens.ValidWellformed` | nginx-common/src/ngx_json_pretty.c:139-270 | the tokens of every valid JSON text are of the kind the scan needs |
| `JsonPretty.Pretty` | nginx-common/src/ngx_json_pretty.c:112-277 | for every input the output is the layout of its tokens; the 1024-byte buffers are full but for the last, concatenate to it, and the reported size is its length |
| `JsonPretty.Writer.Write` | nginx-common/src/ngx_json_pretty.c:51-81 | buffers are filled before another is taken; the concatenation grows by the data |
| `JsonPretty.LayoutIsRendering` | nginx-common/src/ngx_json_pretty.c:112-277 | the output is the same tokens with other spaces |
| `JsonPretty.PrintIndents` | nginx-common/src/ngx_json_pretty.c:112-277 | the output of a text is its tokens with, between any two, the gap told by their nesting depth, within the bound of 16 levels |
| `JsonPretty.IndentIsDepth` | nginx-common/src/ngx_json_pretty.c:139-230 | a line begins with four spaces for each bracket or brace open there |
| `JsonPretty.MeaningPreserved` | nginx-common/src/ngx_json_pretty.c:112-277 | for every valid text: dropping spaces outside strings gives the same for output and input, the output depends on the tokens only, and printing it again changes nothing |

## Left out

- KLPF compression, MD5, memory maps and file dumps: foreign calls or observation only.
- `ngx_persist_write_list_data_n` and `ngx_persist_write_append_buf_chain`: variants of modelled members.
- Allocation failure: allocation succeeds, but for the memory limit of the buffer queue, the packet pool and the depth and element limits, which are modelled.
- Sockets, timers, event registration, publishing over HTTP and logging: what a socket does is a parameter of the members that use it.
- nginx-kmp-out-module/src/ngx_kmp_out_upstream.c: an upstream is a list of ranges, the bytes sent, and an acknowledged position that environment steps move; reconnecting, automatic acks and the watermark loop, which relies on them, are not modelled.
- KmpOut.Track.HandOut: every upstream is connected from the start; one that is not is given nothing by the code, and everything from its acknowledged position on when it connects.
- KmpOut.Track.Environment: acknowledgements move within what was sent and keep ids and positions in agreement, see "Assumptions".
- KmpOut.Track.WriteChain: the watermark loop at its start is left out.
- KmpOut.Track.MarkerStart: requires a queue that is not empty, as the header of the queue demands; every writer sends a media info first.
- KmpOut.Track.SendAll: sends in program order; writes triggered by the event loop while a marker is open are not modelled, since a frame is written within one event.
- PersistReader.HandleBlock: a handler reads a fixed number of header bytes and then data or blocks; handlers that look at their header to decide what to read are not modelled.
- Statistics other than the frame counters, and latency figures.
- Reuse of input buffers by the receiver: a buffer stays as it is once data has arrived in it.
- BufQueue.BufQueue.Free: addresses are ordinals of nodes in the life of the queue, so a node that is freed and used again has a new address.
- CcReorder.Reorder.PushAll: the 608 and 708 decoders are a predicate on packets; pts arithmetic is unbounded.
- Locating the caption payloads in a frame: the reader's `left` is set to the payload size without emulation prevention bytes there, so no claim is made about them.
- JsonParser.Parser.ParseArray: strings and elements are values, not pointers into the text; what is kept in place is the lower-casing of keys and the decoding of strings. `JsonString.GetStrings` takes it as given that the strings of a text do not overlap.
- Generated JSON writers, route tables, configuration merging, dispatch of HTTP requests, the segmenter, the packager, the transcoder and the controller.
