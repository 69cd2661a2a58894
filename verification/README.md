# Verification of a small FUSE server

This project models the FUSE server library in `src/` and the in-memory file system in `examples/tmpfs/`, and
proves what their parts promise each other: a request stream over `/dev/fuse` (FUSE kernel protocol 7.31, the
structs and opcodes of `<linux/fuse.h>`), the replies to it, the inode table behind it, directory listings, and
the sparse files. `dafny verify dfyconfig.toml` checks everything.

## The parts

- **Wire** (`Bytes`, `Protocol`, `Opcodes`, `Messages`, `DecodeFacts`, `MessageBytes`, `RoundTrips`, `Setattr`,
  `Negotiation`, `WireReplies`). Little-endian integers and struct layouts with a two-way round trip; the pure decoding
  of one message, which is what `process_request` does after the header; what *any* bytes decode to, said a second
  time by the offsets of the bytes; that every message the kernel can send decodes to what it means; and that the
  structs sent back read as what was replied.
- **Replies** (`Replies`, `Arrivals`). The request guard, `send_reply` and the ways a request can end, with every write
  to the device recorded together with whether the device took it. How writes fare is an arbitrary oracle. `Arrivals`
  writes out what the kernel gets, and what the client is told, for each call.
- **Session** (`Streams`, `StreamInvariants`, `SessionRuns`, `Ledger`, `InitMessages`, `Handshake`, `PollResults`,
  `WireCases`, `Session`). `Streams` is the session as a state machine: polls, with any sequence of things the outside
  world may do, interleaved with any answers of the client. `StreamInvariants`, `SessionRuns`, `Ledger` and `Handshake`
  prove what holds after every run; `InitMessages` says what becomes of a first message, and `PollResults` what a poll
  returns and when the stream ends, by what is on the wire; `WireCases` has the inputs at which one answer to each
  message that takes one is not what happens. `Session` is the object itself, with its read buffers as shared objects
  that carry their `Arc` count, its guards, its queue and its loops; each method is proved to do exactly a step of the
  state machine.
- **Inode table** (`BTree`, `Inodes`, `Forest`, `Table`, `TableRuns`, `TableEffects`, `TableCases`, `Fs`). `Inodes`
  says what each operation does to the table; `Forest` and `Table` hold the structural invariant and what recursive
  deletion does to it; `TableRuns` proves the invariant over all legal runs; `TableEffects` says what single
  operations do and undo; `TableCases` has legal runs that reach its weak spots; `Fs` is the object, whose methods are
  proved against `Inodes`. Ghost multisets count the open guards (`InodeLookup`s alive) and the counts handed to the
  kernel.
- **Listings** (`Packing`, `Paging`, `Readdir`, `ReaddirHandler`, `ServedNames`, `ServedListings`). The reply buffer
  with its in-place records and a decoder for them, the cursor protocol over many pages, the handler that fills one
  page, the link from the names on the wire to the listing, and from the listing back to what the kernel reads.
- **Sparse files** (`BlockFile`, `BlockRuns`). The extent list with its reads, writes and truncations, and runs of
  them against a flat, zero-extended byte sequence.
- **Attribute lists** (`XAttr`).

## How to read the model

- A byte is an `int` below 256, an integer of width n an `int` below 2^n; truncating casts are written as `%`.
  Slot numbers, sizes and offsets are unbounded naturals where the source's width cannot matter; the count in
  `Inodes.Sub` wraps like the `AtomicUsize` it models.
- `io::Error` is reduced to its errno; an error without one counts as `EIO`, which is what `io_fail` sends.
- Bit masks `x & !mask` for `mask == block - 1` are written with `%`; flag words are `bv32`.
- Overflowing subtraction, a slice out of range and endless recursion in `BlockFile` end the modelled call as
  `Panicked` or `StackOverflow`; `stack` bounds how many calls may be nested. Checked arithmetic is meant, as debug
  builds have it: with overflow checks off the subtraction at `examples/tmpfs/block_file.rs:219` wraps instead, and a
  gap of less than a block is filled from the head of the next extent. The block size in effect is twice the one
  given to `new` (`examples/tmpfs/block_file.rs:30`).
- An operation of `Fs` is one atomic step, as `handle_fuse` serves one request at a time.
- The stat of an inode is reduced to its number and mode. Timeouts are given as seconds and nanoseconds.
- `ReplyBufState.Added` is the source's `Ok`.
- A poll is given the list of what the outside world does meanwhile (`Streams.Input`); when the list is used up the
  device is not ready. A read returns at most the size of the buffer.
- `Replies.Call` is what a client may do with a request. Replies made of wire structs are given by their values; each
  request type takes the struct that belongs to it.
- A request that the client holds is a `Streams.Ticket`; requests are consumed by value in Rust, so the client
  holds each one until the single call that ends it.

## What turned out

Some properties one would expect do not hold as stated; each is proved with its exact condition.

- `BlockFile`: a write below the first extent pushes an extent at the end (152-165), and every read that starts no
  later than the extent that was last still finds what was written over, zeros included; growth of the last extent
  past the maximum size never comes to an end (182-186), so that on a file of at most one extent a buffer longer than
  that size (142-149) is never written in order; and merging into the next extent copies that extent's head instead of
  the bytes behind the write (219-225). The contents of a file are what its reads return (`ReadsAs`), whatever the order
  of its extents. `WriteExactly` says of every well-formed list, and `SingleWriteExactly` of every write to at most one
  extent, when the contents come out right, and when the extents stay in order as well. The two differ: a low write
  that starts with everything the file holds from its offset on (`Repeats`) reads back right, and so does one that is
  pushed in two chunks if it starts in the first block, where the bisection finds the chunks and never the old
  extent, and if the end of its first chunk, which the second one's padding hides, is zero (`LuckyLow`); but the
  extents are out of order, and the next write at the end of the file's room fails (`LuckyLowBreaks`). `RunExactly`
  says which runs of reads, writes and truncations behave like a flat byte sequence and leave a file on which every
  allowed operation does; `ContentsRun` says that a run looked at by what is read alone can go further only by such a
  write. `LowWriteFails`, `LowCutFails`, `OverlongNeverDone` and `MergeCopiesWrongByte` are the failures;
  `MergeReached` leads from the empty file to the last one. A cut inside a hole leaves the file ending before the hole
  (`TruncatedSize`).
- `forget` compares the *previous* count with 1 (`examples/tmpfs/fs.rs:110-113`): returning several counts at once
  leaks an unlinked entry whose last counts they were (`ForgetLeaksExactly`; the run of `TwoCountsLeak` does it), and
  returning none can free an entry that one holder still uses (`ForgetExactly`, `ForgetOfNothingFrees`).
- A removed directory keeps the number of its parent. While no entry has that number, exactly the pages due to show
  `..` fail (`OrphanFails`, reached by `OrphanCannotBeListed`); once the number is in use again every page comes out,
  with an unrelated entry as `..` (`OrphanShowsOccupant`, reached by `OrphanShowsStranger`). Of a directory that has
  not been removed `..` is the directory that names it (`DotDotIsNaming`) and every page comes out.
- The record length field is 32 bits wide and the name length is cast to it, so the packing round trip holds exactly
  for names shorter than 2^32 (`DecodeEncode`).
- A vectored read reply disarms its guard before the length is checked; one that does not fit a 32-bit length leaves
  the request unanswered (`WhichCallsAnswer`, `AnsweredExactlyOnce`; `HugeReadIsNotAnswered` does it).
- A truncated FORGET is answered ENOSYS although forgets take no answer: the guard is still armed when `read_body`
  fails (`src/session.rs:386`). `SilentExactly` says which messages get no answer, `CutForgetIsAnswered` shows one that
  gets it.
- `max_pages` is cast to 16 bits and equals `MAX_WRITE / page_size` exactly for pages of at least 5 bytes
  (`PagesAgree`).

## Model

| member | source | states |
|---|---|---|
| Bytes.UnpackPack | src/session.rs:785-796 | reading a struct back from its little-endian bytes, whatever follows, gives its field values |
| Bytes.PackUnpack | src/session.rs:785-796 | and the other way: the bytes of the fields read are the bytes that were there |
| Protocol.WireStructSizes | src/protocol.rs:125-447 | the sizes of the structs in requests, headers and records |
| Protocol.ReplyStructSizes | src/protocol.rs:195-437 | the sizes of the structs in replies |
| Protocol.EntryReadsBack | src/protocol.rs:519-532 | an entry reads back from its 128 bytes, attributes and timeouts included |
| Protocol.NulPos | src/protocol.rs:486-491 | the first NUL: everything before it is free of NULs |
| Protocol.NameAfter | src/protocol.rs:494-501 | a name is found exactly if the struct before it is complete, and holds no NUL |
| Protocol.TwoNamesNeedSeparator | src/protocol.rs:504-517 | two names are found exactly if a NUL follows the struct |
| Protocol.NulPosOfTerminated | src/protocol.rs:486-491 | reading a NUL-terminated name stops exactly at its terminator |
| Opcodes.OpcodeNumbers | src/protocol.rs:23-82 | every opcode survives the trip through its number, and a number is accepted exactly as the opcode it is |
| MessageBytes.HeaderExactly | src/session.rs:340-353 | a header is found exactly if there are 40 bytes and the length field is that of the message; opcode, id and node are the integers at offsets 4, 8 and 16 |
| MessageBytes.DecodeIsByBytes | src/session.rs:339-618 | on any bytes decoding agrees with a second reading of them by offsets: which opcodes are rejected, dropped or cut off, and each field of each request |
| MessageBytes.KindsExactly | src/session.rs:339-618 | by opcode and length, exactly which messages are an error, end the stream, make requests, or are left to the guard |
| Messages.ReadBody | src/session.rs:785-796 | a struct is read exactly if enough bytes are there |
| RoundTrips.MessageDecodes | src/session.rs:339-617 | every message the kernel can send, of all 21 kinds modelled, decodes to exactly the request it means, or is rejected or dropped if not enabled |
| RoundTrips.PayloadDecodes | src/session.rs:367-615 | the same for the part behind the header |
| RoundTrips.FrameDecodes | src/session.rs:340-353 | the header of a framed message reads back, and the body is what follows it |
| RoundTrips.WriteDecodes | src/session.rs:527-549 | a WRITE yields its handle, offset and exactly its data |
| RoundTrips.RenameDecodes | src/session.rs:487-498 | a RENAME2 yields both names, the target directory and the signed flags |
| RoundTrips.SetattrDecodes | src/session.rs:426-439 | a SETATTR yields the masked flags, the handle if flagged, and each of mode, owners, size and times from its own field of `fuse_setattr_in`, sizes and times as signed numbers |
| RoundTrips.BatchForgetDecodes | src/session.rs:397-419 | a complete batch yields its forgets in order |
| SetattrRequests.AccessorsReadTheFields | src/requests.rs:680-707 | what the accessors return is what the message says of mode, owner, group, size and handle, exactly for the marked fields |
| SetattrRequests.AccessorsReadTheTimes | src/requests.rs:665-742 | the times come out clamped to the epoch and below a second, an explicit time wins over now |
| DecodeFacts.EveryMessageIsSane | src/session.rs:339-618 | any bytes at all decode to requests with NUL-free names, names for new entries no longer than the message, write data inside it, and the id of the message or none; an error or the end comes with no request |
| DecodeFacts.BatchIsItsRecords | src/session.rs:397-419 | any batch body with its header yields exactly min(count, complete records) forgets, in order, each equal to its record |
| DecodeFacts.BatchConserves | src/session.rs:397-419 | for every inode the counts handed out sum up to those in the complete records |
| DecodeFacts.RejectedExactly | src/session.rs:359-615 | a message gets the guard's ENOSYS without being an error exactly if its opcode is unknown, INTERRUPT, or not enabled and no forget |
| DecodeFacts.SilentExactly | src/session.rs:367-419 | a message takes no answer exactly if it is DESTROY, a batch of forgets, or a complete FORGET nobody wants |
| Negotiation.FlagsAgree | src/session.rs:735-764 | the advertised flags, each of the eight bits: all are the kernel's, and the optional ones agree with the enabled operations and the page size |
| Negotiation.AgreedIsUnique | src/session.rs:735-764 | which leaves no choice |
| Negotiation.PagesAgree | src/session.rs:751-762 | the pages advertised never exceed MAX_WRITE bytes, and are as many as fit exactly for pages of 5 bytes or more |
| Negotiation.WritesFitBuffer | src/session.rs:28-34 | any write up to the advertised size fits the read buffer behind its 80 header bytes |
| Negotiation.InitReadsBack | src/session.rs:766-781 | the version, flags, readahead, write limit and page count read back from the bytes of the INIT reply |
| WireReplies.StructReadsBack | src/requests.rs:174-226 | whatever struct a client replies, the kernel reads from the bytes exactly its values |
| WireReplies.KindSizes | src/protocol.rs:195-319 | the sizes taken for the replies are those of the structs |
| WireReplies.SizeReadsBack | src/requests.rs:195-199 | a size replied reads back exactly if it fits 32 bits |
| Replies.AttemptsShape | src/requests.rs:77-226 | whatever happens to a request there are at most two writes, both with its id, the second an ENOSYS after a failed first |
| Replies.AnsweredAtMostOnce | src/requests.rs:77-226 | the kernel takes at most one answer per request, and none with another id |
| Replies.AnsweredExactlyOnce | src/requests.rs:77-226 | if the write does not fail it takes exactly one, unless the plan is silent or cannot be sent |
| Replies.WhichCallsAnswer | src/requests.rs:330-652 | of all calls only those on a FORGET are silent, and only an enormous vectored read cannot be sent |
| Replies.NeverTooMuch | src/requests.rs:627-652 | the kernel never gets more data than it asked for |
| Replies.ToldTruly | src/requests.rs:154-226 | Sent means the kernel has the answer, Cancelled that it has none |
| Replies.OnlyEnosysInstead | src/requests.rs:85-226 | whenever a reply was not sent, an ENOSYS is all the kernel can have got instead |
| Arrivals.DataArrives | src/requests.rs:626-637 | data that fits the size asked for, or a link target without a NUL, arrives as it is in the one answer; other data is answered ENOSYS or, for attributes, ERANGE |
| Arrivals.VectoredArrives | src/requests.rs:639-651 | a vectored answer is one write in which byte j of slice i stands where the slices before it end and j further on; too much data is answered ENOSYS, more than a length field holds not at all |
| Arrivals.BufferArrives | src/requests.rs:427-431 | the filled part of a reply buffer arrives as it is |
| Arrivals.StructsArrive | src/requests.rs:201-226 | an answer that is a struct arrives, and is read by the kernel as the entry, attributes, statistics or handle the client replied |
| Arrivals.SizesArrive | src/requests.rs:835-887 | an answer that is a size arrives as the client's size, or ENOSYS if it is too large |
| Arrivals.ErrnoArrives | src/requests.rs:180-185 | an error arrives as the errno the client gave; nobody answers a FORGET |
| Arrivals.EmptyArrives | src/requests.rs:610-614 | an empty answer arrives |
| Arrivals.DroppedAnswered | src/requests.rs:85-92 | a request dropped is answered ENOSYS, a directory read EIO |
| Arrivals.SecondWriteExactly | src/requests.rs:85-226 | a second write follows exactly if the first failed and the guard was still armed: not after errors, vectored reads and creations, nor after a cancelled lookup or open |
| Arrivals.GuardAnswersInstead | src/requests.rs:85-92 | a call that is refused is answered ENOSYS by the guard, and its caller told that nothing was sent |
| Arrivals.ToldExactly | src/requests.rs:154-226 | the client is told Sent exactly if its own answer was taken, and Cancelled exactly if the kernel had cancelled a lookup, open or creation it answered |
| Replies.Fd.Writev | src/requests.rs:94-114 | one write is one entry in the log, failing as the oracle says |
| Replies.SendReply | src/requests.rs:99-144 | one write, or none and an error if the length does not fit 32 bits |
| Replies.RequestGuard.Drop | src/requests.rs:85-92 | an armed guard answers ENOSYS, a disarmed one nothing |
| Replies.RequestGuard.Disarm | src/requests.rs:77-82 | the guard's id is cleared |
| Replies.ReplyErr | src/requests.rs:180-185 | one error write with the guard disarmed before it |
| Replies.ReplyOk | src/requests.rs:187-193 | the guard is disarmed exactly if the reply was sent |
| Replies.ReplyOkCancellable | src/requests.rs:217-226 | and also if the kernel had cancelled the request |
| Replies.AnswerVectored | src/requests.rs:639-651 | too much data abandons the request; otherwise one write with the bytes of all slices, the guard disarmed before it |
| Replies.AnswerData | src/requests.rs:628-637 | replies with data that is too long are refused, abandoned or answered ERANGE as the request type says |
| Replies.AnswerSize | src/requests.rs:835-846 | sizes that are too large abandon the request |
| Replies.Answer | src/requests.rs:228-1036 | each call on each request type writes exactly what its plan says and reports the outcome |
| StreamInvariants.RefreshKeeps | src/session.rs:674-678 | after this nobody but the session holds the read buffer, and all invariants are kept |
| StreamInvariants.FillKeeps | src/session.rs:679-693 | reading into it changes nothing anybody sees |
| StreamInvariants.HandleKeeps | src/session.rs:359-618 | a message after initialisation keeps exact buffer counts, authentic views, the faithful stream and the gates |
| StreamInvariants.GreetKeeps | src/session.rs:620-646 | so does the initialisation |
| SessionRuns.StepKeeps | src/session.rs:652-720 | every poll with any inputs, and every answer, keeps the session's invariant |
| SessionRuns.StreamIsDecoding | src/session.rs:652-720 | after any run the requests yielded followed by those pending are the in-order concatenation of the decoding of the messages |
| SessionRuns.WriteKeepsData | src/requests.rs:814-852 | in any run every write not yet finished shows bytes 80 to 80+size of its own message, inside its buffer |
| SessionRuns.RunGrows | src/session.rs:652-727 | initialisation and termination are never undone, no message or yielded request is forgotten |
| SessionRuns.EndIsFinal | src/session.rs:658-661 | once the stream ended every later poll returns the end at once, reads nothing and changes nothing |
| SessionRuns.WatcherEndsStream | src/session.rs:663-670 | the watcher has ended only if the stream has, so it is not polled again |
| SessionRuns.InitComesFirst | src/session.rs:355-357 | nothing is accepted, yielded or held before the one successful INIT reply |
| InitMessages.HandleInitExactly | src/session.rs:620-646 | a first message is answered exactly if it is a complete INIT of major version 7, with the smaller minor version, its readahead, the flags agreed on and the limits; the session starts exactly if that is taken; anything else is refused and nothing written |
| InitMessages.FramedInitExactly | src/session.rs:620-646 | the same in the fields of the kernel's message |
| PollResults.PollExactly | src/session.rs:652-720 | with nothing pending a poll passes over inputs that let it go on (nothing to read, a good INIT, a message without request, fault or end) and returns what the first other one makes it: Ended, Failed, Pending or that message's first request; it ends the stream exactly if it returns Ended |
| PollResults.StreamEndsExactly | src/session.rs:663-708 | a poll ends the stream exactly if an input it used is the watcher's end, the end of the device, ENODEV, ECONNABORTED, or DESTROY after initialisation |
| PollResults.WouldBlockIsNothing | src/session.rs:695-697 | a read that finds nothing changes neither result nor queue, log, history nor end of the poll, which uses one more input |
| PollResults.QueueFirst | src/session.rs:654-657 | what waits is returned first, in order, and nothing is read |
| PollResults.GuardAnswers | src/session.rs:359-615 | the only write for a message after initialisation is an ENOSYS with its id, exactly for those no one wants: of an unknown or disabled opcode, INIT, INTERRUPT, or cut off |
| PollResults.YieldedIsHeld | src/session.rs:652-657 | a request returned is one more the client has, and otherwise it has the same |
| PollResults.StartsAndYields | src/session.rs:339-720 | a new session that can answer a good INIT yields the first request of the next message that makes one |
| PollResults.LookupAfterInit | src/session.rs:339-720 | so an INIT of major version 7 and a LOOKUP yield that LOOKUP, in a run from the start |
| Ledger.AnsweredAtMostOncePerMessage | src/requests.rs:77-226 | in any run, with any oracle, the kernel takes at most as many answers with an id as there were messages with it |
| Ledger.AnsweredExactlyOncePerMessage | src/requests.rs:77-226 | if writes do not fail every message is answered once, needs no answer, was lost, or is still waiting or held; and those that need none are forgets or DESTROY |
| Ledger.OrdinaryMessagesAreAnswered | src/requests.rs:85-92 | so ids of other messages whose request is gone and not lost were answered as often as they arrived |
| Ledger.RunBalances | src/requests.rs:77-226 | no step accounts for a message twice, and none loses one if writes do not fail |
| WireCases.CutForgetIsAnswered | src/session.rs:385-386 | a FORGET that ends behind its header is malformed, and its guard answers it ENOSYS |
| WireCases.HugeReadIsNotAnswered | src/requests.rs:639-651 | a vectored answer of 2^32 - 16 bytes to a read that asked for them is not sent, and nothing else is |
| Handshake.InitIsTakenFirst | src/session.rs:620-646 | in every run the first write the kernel takes is the one successful answer to an INIT message received in it, with the id of that message, our version and what was negotiated with its fields |
| SessionObject.Fuse.constructor | src/session.rs:250-259 | a new session is in the start state |
| SessionObject.Fuse.PollNext | src/session.rs:652-720 | exactly a poll of the state machine: state, result and inputs used; the request returned is the one handed to the client |
| SessionObject.Fuse.TakeTurn | src/session.rs:663-718 | exactly one turn of it; the watcher is not polled after its end |
| SessionObject.Fuse.RefreshBuffer | src/session.rs:674-678 | a shared buffer is replaced by a fresh one and loses one count |
| SessionObject.Fuse.ReceiveMessage | src/session.rs:679-718 | reading and processing a message while the loop holds the buffer itself leaves exactly the counts of the requests made |
| SessionObject.SharedProcess | src/session.rs:714-718 | processing a message does not depend on the clone the loop holds, and leaves that count alone |
| SessionObject.Fuse.ProcessRequest | src/session.rs:339-618 | exactly the processing of a message, or its refusal |
| SessionObject.Fuse.HandleOp | src/session.rs:367-617 | for every opcode, the requests queued, the guard's fate and the end of the stream are those of the decoding |
| SessionObject.Fuse.PushRecords | src/session.rs:404-417 | the batch loop queues exactly the decoded records |
| SessionObject.Fuse.Push | src/session.rs:377-611 | a request waits behind the others, and a write adds one count to the buffer |
| SessionObject.Fuse.HandleInit | src/session.rs:620-646 | refused, failed or successful initialisation, exactly |
| SessionObject.Fuse.WriteData | src/requests.rs:848-851 | the data of a held write is bytes 80 to 80+size of its message |
| SessionObject.Fuse.Answer | src/requests.rs:228-1036 | any call that consumes a request writes what its plan says, releases the buffer and keeps the session valid |
| SessionObject.Fuse.IsTerminated | src/session.rs:723-727 | whether the stream has ended |
| XAttrList.SplitGivesNames | src/requests.rs:914-941 | splitting a list at its NULs gives the added names back exactly if none of them holds a NUL |
| XAttrList.AcceptedReadBack | src/requests.rs:898-969 | for any sequence of adds the list fits the size asked for and reads back as the accepted names in order |
| XAttrList.AllAccepted | src/requests.rs:910-912 | all names are accepted exactly if they fit together |
| XAttrList.ListXAttr.Add | src/requests.rs:919-941 | Full exactly if the name does not fit, and then nothing changes; otherwise name and NUL are appended; a list made by adds stays one |
| XAttrList.ListXAttr.AddWithZero | src/requests.rs:952-960 | the same for any bytes, appended unchecked; a list made by adds stays one if they end with a NUL |
| XAttrList.ListXAttr.AddCString | src/requests.rs:967-969 | the same for a C string |
| XAttrList.ListXAttr.SetRawReply | src/requests.rs:971-980 | data that is too large comes back and changes nothing |
| Inodes.ValuesMembers | examples/tmpfs/fs.rs:392-400 | the loop over a directory visits exactly its children |
| BTree.SortedNamesUnique | examples/tmpfs/main.rs:219 | any strictly increasing enumeration of the names is the iteration order of the map |
| BTree.KeysInOrder | examples/tmpfs/main.rs:219 | the iterator visits all names in order |
| Forest.StepSwept | examples/tmpfs/fs.rs:392-400 | dropping one child's link frees exactly what must go and keeps the structure |
| Forest.DeleteSwept | examples/tmpfs/fs.rs:109-130 | deleting an entry keeps the structure, frees it and the entries without lookups that lost their link, takes one link from the others that did, changes nothing else, and appends the freed numbers once each to the free list |
| Table.DeleteFreesExactly | examples/tmpfs/fs.rs:109-130 | the freed entries are exactly the deleted one and its descendants reached through entries without lookups; a child still held survives unlinked and otherwise untouched |
| Table.NoCycle | examples/tmpfs/fs.rs:148-202 | no directory is its own descendant |
| Table.LinksCountNames | examples/tmpfs/fs.rs:148-202 | every link count is the number of (directory, name) pairs naming the entry, at most one, plus one for the root |
| Table.ForgetExactly | examples/tmpfs/fs.rs:109-146 | returning counts keeps the invariant exactly unless none is returned of an unlinked entry with one holder |
| Table.ForgetLeaksExactly | examples/tmpfs/fs.rs:109-146 | returning counts leaks an entry exactly if more than one is returned at once and they are the last of an unlinked entry |
| Table.DropGuardKeeps | examples/tmpfs/fs.rs:298-306 | dropping an open guard finds its entry alive, keeps the invariant and leaks nothing |
| TableRuns.AllocateFindsEmptySlot | examples/tmpfs/fs.rs:161-197 | a new entry goes to an empty slot that is not one of the first two |
| TableRuns.CreatedKeeps | examples/tmpfs/fs.rs:148-202 | creation never overwrites a live entry and keeps forest, counts and free list, even when numbers are reused |
| TableRuns.UnlinkedKeeps | examples/tmpfs/fs.rs:232-270 | taking a name and a link away keeps the invariant |
| TableRuns.StepKeeps | examples/tmpfs/fs.rs:51-270 | every legal operation keeps the invariant, and leaks nothing if it forgets at most one count |
| TableRuns.RunKeeps | examples/tmpfs/fs.rs:51-324 | after any legal run the table is sound, every held entry and the root are live, and nothing leaked if counts were forgotten singly |
| TableRuns.StartIsSound | examples/tmpfs/fs.rs:51-67 | the new table is sound and leak-free |
| TableEffects.RootAlone | examples/tmpfs/fs.rs:36-67 | it holds the root alone, an empty directory rwxr-xr-x, its own parent, with one link and one count |
| TableEffects.LookAndDrop | examples/tmpfs/fs.rs:298-315 | looking an entry up and dropping the guard changes nothing |
| TableEffects.LookupFinds | examples/tmpfs/fs.rs:69-85 | a lookup gives a guard on the live entry, or ENOENT or EIO, and nothing else changes |
| TableEffects.LookupAtFinds | examples/tmpfs/fs.rs:87-107 | in a sound table without leaks: the entry itself for `.`, its parent for `..`, the entry the name leads to otherwise, with one look more on it; else exactly the errors listed and an unchanged table |
| TableEffects.ForgetFinds | examples/tmpfs/fs.rs:132-146 | forgetting fails exactly for numbers not in use, and then changes nothing |
| TableEffects.FailedUnlinkChangesNothing | examples/tmpfs/fs.rs:232-270 | an unlink succeeds exactly for a file without `is_rmdir` and an empty directory with it; EISDIR, ENOTEMPTY and ENOTDIR come exactly for the other entries, ENOENT, ENOTDIR and EIO exactly for missing names and parents; on failure the table is as it was |
| TableEffects.UnlinkDoesExactly | examples/tmpfs/fs.rs:232-270 | a successful unlink removes the name, and the entry unless somebody still looks at it, and nothing else |
| TableEffects.DoCreateDoesExactly | examples/tmpfs/fs.rs:148-202 | a successful creation adds the named entry with one guard and nothing else |
| TableEffects.CreateExactly | examples/tmpfs/fs.rs:148-202 | creation fails exactly for a parent that is not there, is no directory or has the name already, and changes nothing then; otherwise it adds an entry of the given mode and content, with one link and one look, under that name, and nothing else |
| TableEffects.DirModeBits | examples/tmpfs/fs.rs:204-216 | the mode of a new directory has its type bit set and the other bits as given |
| TableEffects.FileModeBits | examples/tmpfs/fs.rs:218-230 | likewise of a new file |
| TableEffects.CreateUnlinkUndoes | examples/tmpfs/fs.rs:148-270 | creating, dropping the guard and unlinking brings the table back, but for a slot that had to be added, which is free |
| TableCases.TwoCountsLeak | examples/tmpfs/fs.rs:109-146 | a legal run of five operations ends with an entry that nobody counts, links or names |
| TableCases.ForgetOfNothingFrees | examples/tmpfs/fs.rs:109-146 | a legal run leads to a table where forgetting zero counts frees an entry with an open guard |
| TableCases.OrphanCannotBeListed | examples/tmpfs/main.rs:232-240 | a legal run leads to a removed directory none of whose pages comes out from the start |
| TableCases.OrphanShowsStranger | examples/tmpfs/main.rs:232-240 | a legal run reuses the number of its parent: in a sound table without leaks every page of the removed directory comes out, showing a file as `..` |
| FsModel.Fs.constructor | examples/tmpfs/fs.rs:51-67 | the root alone, with the kernel's count on it |
| FsModel.Fs.ForgetEntry | examples/tmpfs/fs.rs:109-130 | exactly the table after forgetting |
| FsModel.Fs.OnDrop | examples/tmpfs/fs.rs:363-400 | exactly the table after dropping the contents |
| FsModel.Fs.DropLinks | examples/tmpfs/fs.rs:392-400 | the loop over the children, exactly |
| FsModel.Fs.Lookup | examples/tmpfs/fs.rs:69-85 | a guard on a live entry, or the error; the invariant is kept |
| FsModel.Fs.LookupAt | examples/tmpfs/fs.rs:87-107 | exactly a step of the run, with its result |
| FsModel.Fs.Forget | examples/tmpfs/fs.rs:132-146 | exactly the result and the table for any count, and a sound table for legal ones |
| FsModel.Fs.Drop | examples/tmpfs/fs.rs:298-306 | the end of a guard, exactly |
| FsModel.Fs.Leak | examples/tmpfs/fs.rs:317-319 | a guard becomes a count of the kernel |
| FsModel.Fs.IncrementLookup | examples/tmpfs/fs.rs:321-323 | one more count of the kernel |
| FsModel.Fs.DoCreate | examples/tmpfs/fs.rs:148-202 | exactly a step of the run, with its result |
| FsModel.Fs.Mkdir | examples/tmpfs/fs.rs:204-216 | the same for an empty directory, with its type bit in the mode |
| FsModel.Fs.Create | examples/tmpfs/fs.rs:218-230 | the same for a file, with its type bit in the mode |
| FsModel.Fs.Unlink | examples/tmpfs/fs.rs:232-270 | exactly a step of the run, with its result |
| Packing.DecodeEncode | src/sys.rs:145-217 | a packed buffer reads back as the records put in, in order, exactly if every name is shorter than 2^32 |
| Packing.DecodePlusEncode | src/sys.rs:189-217 | a readdirplus buffer reads back as the entries and records put in, exactly if every name is shorter than 2^32 |
| Packing.PlusAddsReadBack | src/sys.rs:189-217 | whatever is offered to `add_readdir_plus`, the data fits the buffer and reads back as the entries that found room, under the same condition |
| Packing.PlainAddsReadBack | src/sys.rs:168-187 | whatever is offered to `add_readdir`, likewise |
| Packing.EncodeDecode | src/sys.rs:158-166 | any bytes that decode are the packing of what they decode to |
| Packing.EncodeAligned | src/protocol.rs:452-468 | the filled part stays a multiple of 8 |
| Packing.DirentByBytes | src/sys.rs:158-166 | a directory entry by its bytes: inode at 0, next offset at 8, name length at 16, type at 20, the name at 24, zeros up to a multiple of 8 |
| Packing.PlusSize | src/protocol.rs:459-468 | the size of a readdirplus record is that of its two parts |
| Packing.ReplyBuf.WriteDirent | src/sys.rs:158-166 | header, name and zero padding are written at the place, and nothing else |
| Packing.ReplyBuf.AddReaddir | src/sys.rs:168-187 | Full exactly if the record does not fit, and then nothing changes; otherwise exactly it is appended |
| Packing.ReplyBuf.AddReaddirPlus | src/sys.rs:189-217 | the same with the entry before the record |
| Packing.ReplyBuf.FilledData | src/sys.rs:154-156 | the filled data is the packing of the records added, and reads back as these if they are all of one kind |
| Paging.EnumeratesExactlyOnce | examples/tmpfs/main.rs:210-253 | following the last offset from 0 with buffers that take any entry yields every entry once, in order, then an empty page |
| Paging.PagesAreConsecutive | examples/tmpfs/main.rs:210-253 | any pages read on from an offset are consecutive slices of the listing |
| Readdir.DirectoryEnumerated | examples/tmpfs/main.rs:210-253 | for an unchanging directory whose parent slot is occupied the pages are all names in order, then `..`, then `.`, each once, then an empty page |
| Readdir.AttachedEnumerated | examples/tmpfs/main.rs:210-253 | in a sound table the same for every directory that has not been removed |
| Readdir.AttachedHasParent | examples/tmpfs/fs.rs:148-270 | the entries not removed are those with links, and the parent of one is the live directory that names it, or the root of the root |
| Readdir.DotDotIsNaming | examples/tmpfs/main.rs:232-240 | `..` of a directory that has not been removed shows the one directory that names it |
| Readdir.PageOfListing | examples/tmpfs/main.rs:210-253 | with the parent slot occupied a page is as much of the listing as fits |
| Readdir.ListingShape | examples/tmpfs/main.rs:219-247 | the listing has one entry per name and two dots, each telling the next offset |
| Readdir.ListingNames | examples/tmpfs/main.rs:219-229 | the names shown are exactly those of the directory |
| Readdir.ListingShows | examples/tmpfs/main.rs:219-250 | each name is shown with the number and the type of the entry it leads to, `..` with those of the parent, `.` with those of the directory |
| Readdir.OrphanFails | examples/tmpfs/main.rs:232-240 | while the parent slot is empty exactly the pages due to show `..` fail |
| Readdir.OrphanShowsOccupant | examples/tmpfs/main.rs:232-240 | while it is occupied no page fails, and `..` shows whatever has the number |
| Readdir.PageFailsExactly | examples/tmpfs/main.rs:210-253 | a page fails exactly if the parent slot is empty and it is due to show `..` |
| Readdir.PageErrors | examples/tmpfs/main.rs:210-253 | the error of a page: EIO or ENOENT for numbers not in use, of the directory or of its parent, ENOTDIR for files |
| ReaddirHandler.AddEntry | src/requests.rs:450-463 | a name with a NUL is refused; otherwise the entry is added or the buffer is full |
| ReaddirHandler.AddChildren | examples/tmpfs/main.rs:219-229 | the loop over the names fills exactly what fits of them |
| ReaddirHandler.FillPage | examples/tmpfs/main.rs:215-253 | the handler's page while it holds its guard, exactly |
| ReaddirHandler.HandleReaddir | examples/tmpfs/main.rs:210-253 | the answer is exactly the page, all guards are returned, and a sound, leak-free table is left as it was |
| ServedNames.YieldedNamesNulFree | src/protocol.rs:486-517 | every name in a request the client gets, in any run, is free of NULs, and a name for a new entry is shorter than 2^32 |
| ServedNames.ServedDirectoriesList | examples/tmpfs/main.rs:210-253 | in every table that serving a session leads to a page of a directory fails exactly if the parent slot is empty and it is due to show `..`; of a directory not removed every page comes out: no dangling child and no name fails it |
| ServedListings.ServeReaddir | examples/tmpfs/main.rs:113-116 | a request for a page is ended by a reply with the packed page, which fits the size asked for, or by the error the page fails with; guards and a sound, leak-free table are left as they were |
| ServedListings.NewEntryShown | examples/tmpfs/fs.rs:204-230 | a new directory or file is shown with its number, its name and its type, 4 or 8 if the mode given has permissions only |
| ServedListings.ServedDirectoryRead | examples/tmpfs/main.rs:113-253 | in every table that serving a session leads to, a kernel that reads a directory not removed page by page, each from the offset the last entry it decoded tells, finds every name once, in order, with the number and type of its entry, then `..`, then `.`, and then nothing |
| BlockFiles.SearchLocates | examples/tmpfs/block_file.rs:55-75 | the search returns the matching extent or the last one starting before the offset |
| BlockFiles.BlockFile.SearchExtent | examples/tmpfs/block_file.rs:55-75 | the loop finds exactly that |
| BlockFiles.ReadFromIsWindow | examples/tmpfs/block_file.rs:97-122 | reading on from an extent gives the flat contents exactly if the extent reaches the position |
| BlockFiles.ReadableStart | examples/tmpfs/block_file.rs:77-100 | the located extent reaches an offset exactly if it is not strictly inside a hole |
| BlockFiles.ReadResultIsWindow | examples/tmpfs/block_file.rs:89-125 | on any list in order a read succeeds exactly where it may start, with the flat contents up to the end |
| BlockFiles.ReadsAsFlat | examples/tmpfs/block_file.rs:89-125 | so what the reads of such a list return is its flat contents and nothing else |
| BlockFiles.BlockFile.Read | examples/tmpfs/block_file.rs:89-125 | exactly the modelled result on any list; on any sorted list it succeeds exactly if it starts no later than the end and not inside a hole, and returns min(len, size - offset) bytes of the flat contents, gaps zero |
| BlockFiles.BlockFile.ReadExtents | examples/tmpfs/block_file.rs:97-122 | the loop over the extents, exactly |
| BlockFiles.BlockFile.GetReadExtents | examples/tmpfs/block_file.rs:77-87 | the assertions hold on any sorted list for offsets up to the end |
| BlockFiles.TruncateKeepsBelowCut | examples/tmpfs/block_file.rs:127-138 | truncation keeps exactly the bytes below the cut and the list well formed |
| BlockFiles.TruncatedSize | examples/tmpfs/block_file.rs:127-138 | the size becomes the cut exactly if the cut falls in data |
| BlockFiles.BlockFile.Truncate | examples/tmpfs/block_file.rs:127-138 | exactly the truncated list |
| BlockFiles.ConfinedWrites | examples/tmpfs/block_file.rs:190-212 | after a write that needs no room of later extents reads return the old contents with the buffer over them, and the extents are in order |
| BlockFiles.MergeWritesExactly | examples/tmpfs/block_file.rs:208-226 | after a merging write reads return what they should exactly if the bytes it moves are the right ones, and the extents are in order exactly if also what is left of the next one starts before the one after it |
| BlockFiles.LowWriteExactly | examples/tmpfs/block_file.rs:152-165 | after an unsplit write below the first extent reads return what they should exactly if the buffer starts with everything the file holds from its offset on, zeros included |
| BlockFiles.WriteExactly | examples/tmpfs/block_file.rs:140-227 | after an unsplit write to any well-formed list reads return what they should, and the extents are in order, exactly under conditions on the extents and the buffer; lists of two extents or more, the only ones on which splits are left out, come only from writes that are not allowed |
| BlockRuns.SingleWriteExactly | examples/tmpfs/block_file.rs:140-227 | on a file of at most one extent any write leaves the extents in order and reads as it should exactly if it is no longer than the maximum, starts at or above the extent and stays within the maximum from its start; and it reads as it should exactly then or if it is a lucky low write; every read up to the end then succeeds |
| BlockRuns.TwoPushesExactly | examples/tmpfs/block_file.rs:142-165 | a low write pushed in two chunks reads back right, from every offset, exactly if it reaches the end of the file, starts in the first block, and the bytes at the end of its first chunk that the padding of the second one hides are zero |
| BlockRuns.LongWritesExactly | examples/tmpfs/block_file.rs:142-149 | a buffer longer than the maximum extent size never leaves the one extent in order, and reads back right exactly if it is such a low write of two chunks |
| BlockRuns.LuckyLowBreaks | examples/tmpfs/block_file.rs:152-186 | after a low write that reads back right one more byte at the end of the extent's room can never be written |
| BlockRuns.ChunksKeepDisorder | examples/tmpfs/block_file.rs:142-165 | once a low write has put the extents out of order no further chunks bring them into order |
| BlockRuns.OverlongNeverDone | examples/tmpfs/block_file.rs:182-186 | on any sorted list, growth of the last extent past the maximum never comes to an end |
| BlockRuns.TruncateExactly | examples/tmpfs/block_file.rs:127-138 | on a file of at most one extent reads after a cut return what they should exactly if it does not fall in the zeros before the extent |
| BlockRuns.ReadExactly | examples/tmpfs/block_file.rs:89-125 | on such a file a read returns the bytes of the flat sequence from any offset up to the end, and panics behind it |
| BlockRuns.OpExactly | examples/tmpfs/block_file.rs:89-227 | one operation returns what it would on the flat sequence, and so does every read after it, exactly if it is allowed or a lucky low write, and an allowed one leaves such a file |
| BlockRuns.RunExactly | examples/tmpfs/block_file.rs:89-227 | in a run of reads, writes and truncations every operation does what it would on a flat, zero-extended byte sequence, and leaves a file on which whatever is allowed next does too, exactly if every operation is allowed |
| BlockRuns.ContentsRun | examples/tmpfs/block_file.rs:89-227 | looked at by what is read alone an allowed run agrees, and one that is not agrees at most by a lucky low write as its first operation that is not allowed |
| BlockRuns.RunRepresents | examples/tmpfs/block_file.rs:89-227 | every allowed run comes to its end, with one extent at most that holds the bytes of the flat sequence |
| BlockRuns.ReadsBack | examples/tmpfs/block_file.rs:89-125 | after any allowed run from the empty file any read returns the bytes of the sequence the run leads to, cut off at its end |
| BlockRuns.ReadAfter | examples/tmpfs/block_file.rs:89-125 | so that is what a read of the file object puts into its buffer |
| BlockRuns.LowWriteFails | examples/tmpfs/block_file.rs:152-165 | a concrete write below the first extent puts the old byte out of reach |
| BlockRuns.LowCutFails | examples/tmpfs/block_file.rs:127-138 | a concrete cut below the first extent empties the file |
| BlockRuns.MergeCopiesWrongByte | examples/tmpfs/block_file.rs:208-226 | on two extents a block apart a write of a block and a byte puts the first byte of the second in the place of its second |
| BlockRuns.MergeReached | examples/tmpfs/block_file.rs:140-227 | three writes lead from the empty file to such extents |
| BlockFiles.BlockFile.Write | examples/tmpfs/block_file.rs:140-227 | exactly the modelled outcome and extents, chunks and splits included |
| BlockFiles.BlockFile.WriteExtent | examples/tmpfs/block_file.rs:190-226 | resizing, copying and merging in place, exactly |
| BlockFiles.BlockFile.constructor | examples/tmpfs/block_file.rs:25-39 | the block in effect is twice the size given, and the maximum extent size is aligned to it |

## Left out

- `src/mount.rs`, mounting and the `Drop` of `Fuse`: system calls, child processes and descriptor passing.
- Readiness, wakers, threads, `RwLock` and atomic orderings: a poll sees their outcomes as inputs.
- `split_timeout`, the wall clock, and the conversion of `libc::stat` and `libc::statvfs` into wire structs.
- The request loop of `examples/tmpfs/main.rs` other than READDIR: which counts its handlers keep or return
  is not modelled; the conservation law is stated for callers that return what they were given.
- `handle_setattr`, `handle_read` and `Fs::read`/`Fs::write`: sparse files are modelled by themselves and are not
  stored in the inode entries.
- The `Debug`, `Display` and builder boilerplate, and the packing of `FuseFileInfo` flags.
- BlockFiles.WriteExactly: says nothing of writes split at the maximum extent size in front of a further extent. A file has a further extent only after a write that is not allowed (RunRepresents); SingleWriteExactly covers all writes to files of at most one extent, and OverlongNeverDone those split at the last extent of any list.
- BlockRuns.RunExactly: covers files of at most one extent, which are all that allowed runs reach (RunRepresents).
- BlockFiles.BlockFile.Read: the overflow of `offset + len` past 64 bits is not modelled.
- Ledger.AnsweredExactlyOncePerMessage: messages refused by `handle_init` and vectored replies too long to send are counted as lost, not as answered; the source does not answer them either.
- Readdir.AttachedEnumerated: directories with 2^64 - 2 or more names, whose offsets would wrap, are excluded.
- ServedListings.ServedDirectoryRead: excludes them too; the directory does not change while it is read.
- XAttrList.AcceptedReadBack: after `set_raw_reply` the list is whatever was given; what adds make of it is the contract of Add, and only lists built by adds alone are read back.
