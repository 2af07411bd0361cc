# The OMI base layer, modelled and proved

This project models the part of Open Management Infrastructure (OMI) that builds messages and CIM
objects in memory, moves them between processes and drives the interaction protocol, and proves what
that code promises over every input, every run and every reachable state. `dafny verify dfyconfig.toml`
checks the whole project.

Where the code changes things step by step the model is imperative: a class with the code's fields, or a
method with the code's loop, proved against a specification function or an independent predicate. The
properties that span several calls are lemmas about those specifications.

| component | files | main results |
|---|---|---|
| memory and batch allocator | `memory`, `batch`, `batch_object` | live blocks are disjoint, aligned and inside their page over any run; destruction frees each page once |
| page transport | `batch_transport` | an address isomorphism between sender and receiver that survives any later use of the received batch |
| message transport | `messages`, `message_restore`, `message_tables`, `message_transport`, `message_object` | a message of every tag arrives with every listed field, cloned or sent as it is; on any bytes, when exactly it is rebuilt; cloning fails exactly when a required field is missing |
| interaction protocol | `strand`, `strand_object`, `strand_history` | messages are given once each, in the order in which they were posted; one Post outstanding per direction, every assertion of a receiver holds, nothing reaches a finished side; the exact discipline that is needed |
| multiplexer | `multiplex` | every message, and every cancel, reaches the operation with its id; none is lost exactly when none arrives, and no operation is removed, while another waits; the connection is closed back exactly once |
| serializer | `bits`, `buf_format`, `buf_views`, `buf_object`, `buf_roundtrip` | an unambiguous wire format; packing and unpacking any list of values round-trips, again after the buffer has moved |
| names | `naming` | the code-filtered lookup is the plain one; the length is recovered from the code |
| key matching | `match_keys`, `match_symmetry` | the one-sided search decides mutual agreement; transitive, independent of order, and for which instances exactly it is symmetric |
| dynamic instances | `dynamic_spec`, `dynamic_instance`, `dynamic_meaning` | through every relocation the object is a case-insensitive map; over any run, what is read is what the last successful operation gave |
| classes | `class_model`, `class_frames`, `class_build`, `class_refs`, `class_runs`, `class_object`, `class_meaning` | an added element is the one asked for, joined with the one it overrides; over every run names are unique, fields apart, inherited qualifiers propagate, counts exact, nothing borrowed dangles |
| Base64 | `base64`, `base64_stream`, `base64_octets` | the alphabet is that of Table 1 of RFC 4648; the streamed blocks are the encoding of section 4 of RFC 4648 and decode back, whatever the block sizes |
| datetimes | `decimal`, `datetime`, `datetime_grammar`, `cim_datetime`, `duration` | which text exactly is read as which value, for all three forms; which values exactly come back; durations keep their total exactly when days and microseconds fit; the microsecond conversion is exact below 49711 days |

Assumptions: allocation succeeds and returns memory apart from all other live memory, sizes are below 2^31,
the target is 64-bit and little-endian, `ZChar` is one byte, and `strcasecmp` folds ASCII letters only.
Words on which the code shifts and masks are sequences of 32 bits, least significant first (`Bits.Word`), or
8-bit vectors in the Base64 modules.

Places where the code does not keep a promise one might read into it, each with the exact condition:

- An empty block is not translated by `Batch_FixPointer` (`BatchTransport.EmptyBlockIsNotTranslated`).
- A strand method that acks from inside Post, or posts from inside Ack, loses a message or an ack
  (`StrandProtocol.AckInsidePostLosesAMessage`, `StrandProtocol.PostInsideAckLosesTheAck`); a step keeps the
  protocol invariant exactly when it avoids this (`StrandProtocol.StepKeepsInv`).
- `_RoundPow2` returns 0 for 0 and above 2^31 (`Bits.RoundPow2`).
- A message posted to an operation overwrites one that still waits for it, and an operation is removed with
  whatever waits for it; messages are lost in a run exactly when one of these happens
  (`Multiplexer.NothingLostIff`).
- Key matching is symmetric against every well-formed instance exactly when each key is the first property of
  its name, or when nothing matches anyway (`KeySymmetry.SymmetricIff`); it is not reflexive on NaN, array or
  embedded-instance keys (`InstanceKeys.ReflexiveIff`).
- Storing a list of strings or instances fails when the list is empty but not null, while other empty arrays are
  accepted (`DynamicSpec.ConstructStores`).
- A qualifier that does not propagate, added to an element that another class uses, shows through there: the
  invariant survives exactly when the qualifier propagates or no other class lists the element
  (`ClassBuild.OwnQualifierKeepsInv`; on a concrete run `ClassRuns.LateQualifierBreaksARun`).
- `Buf_UnpackDTA` does not notice a truncated buffer (`BufObject.Buf.UnpackDTA`).
- Timestamps and intervals come back from their text exactly when every field fits its columns
  (`DatetimeText.StampRoundTrip`, `CimText.CimRoundTrip`).
- Duration text may carry signs and white space in front of its numbers (`Duration.ParseDuration`): `P-1347M`,
  which the comments of the code list as rejected, is accepted and wraps around (`Duration.MinusInside`).
- `DatetimeToUsec` multiplies the days in 32 bits (`Duration.UsecRoundTrip`).

## Model

| member | source | states |
|---|---|---|
| Memory.DecodeEncode | Unix/base/buf.h:167-233 | little-endian storage of a number that fits the width is undone by the load |
| Memory.BytesOf32 | Unix/base/buf.h:167-233 | the four bytes of a number are its base-256 digits, least significant first |
| Memory.BytesOf64 | Unix/base/buf.h:167-233 | of eight bytes the low half comes first |
| Memory.EncodeDecode | Unix/base/buf.h:299-353 | every k-byte image is the storage of the number it is read as, so loads lose nothing |
| BatchAllocator.IndexOf | Unix/base/batch.c:175-231 | the search of `Batch_Put` yields the first page whose payload starts at the pointer |
| BatchAllocator.StepKeepsInv | Unix/base/batch.c:18-102 | every Get, Put or write of a client keeps pages apart, the cursor inside the current page and the live blocks disjoint and inside their pages |
| BatchAllocator.RunKeepsInv | Unix/base/batch.c:18-102 | the same over every run from an empty batch |
| BatchAllocator.PagesAreCounted | Unix/base/batch.c:36-72 | over every run the batch counts its shared pages and never has more than it may |
| BatchAllocator.RequestsAreServed | Unix/base/batch.c:18-102 | when exactly a request is served from the current page, from a new shared page, or from a page of its own, and where the block then lies |
| BatchAllocator.AllocatorIsSafe | Unix/base/batch.c:18-102 | over any run, live blocks are pairwise disjoint, 8-byte aligned and inside the payload of a page of the batch |
| BatchAllocator.LiveBlocksApart | Unix/base/batch.c:18-102 | two live blocks share no byte |
| BatchAllocator.PutIsExact | Unix/base/batch.c:175-231 | Put removes exactly the independent page whose payload starts at the pointer and otherwise changes nothing |
| BatchTransport.FindItem | Unix/base/batch.c:428-438 | the first page description that covers an address, or none |
| BatchTransport.RunKeepsIntact | Unix/base/batch.c:410-441 | whatever the receiver allocates, frees or writes in its own blocks, the received pages stay at the tail of its list with their bytes |
| BatchTransport.TransportPreservesBlocks | Unix/base/batch.c:288-441 | after transport and any further run on the received batch, every address in a sender block is translated to the same offset in its image and finds the sender's byte there |
| BatchTransport.TransportIsInjective | Unix/base/batch.c:288-441 | distinct addresses in the sender's blocks have distinct images |
| BatchTransport.NewBlocksMissImages | Unix/base/batch.c:410-441 | blocks the receiver allocates later never overlap an image |
| BatchTransport.EmptyBlockIsNotTranslated | Unix/base/batch.c:428-440 | a request for no bytes returns the cursor, which no description covers, so it cannot be translated |
| BatchObject.Batch.Get | Unix/base/batch.c:18-102 | the in-place form: new fields and returned block are those of the allocator specification, and only a page it asked for is added to the heap |
| BatchObject.Batch.Put | Unix/base/batch.c:175-231 | the list walk removes and frees what the specification says, and nothing on a null pointer |
| BatchObject.Batch.FreePage | Unix/base/batch.c:201-208 | unlinking page i gives exactly that page back to the heap |
| BatchObject.Batch.Destroy | Unix/base/batch.c:104-126 | every page of the list is freed exactly once and nothing else is; every access, to the Batch object and to the page headers, is to memory that is not freed yet |
| BatchObject.Batch.New | Unix/base/batch.c:141-164 | the batch becomes the first block of its own first page |
| BatchObject.Batch.Create | Unix/base/batch.c:326-408 | rebuilding from a null batch gives pages in the order of the descriptions, with the Batch object behind the payload of the page built first |
| BatchObject.SelfOutsidePayloads | Unix/base/batch.c:116-117 | the object of a received batch lies in no payload, so destruction takes no page for its holder |
| BatchObject.Batch.PageCount | Unix/base/batch.c:274-286 | the loop counts the pages of the list |
| BatchObject.Batch.PageByIndex | Unix/base/batch.c:312-324 | the loop stops at the given position or at the end of the list |
| BatchObject.Batch.GetPageInfo | Unix/base/batch.c:288-310 | the descriptions written are those of the specification, the current page cut at the cursor |
| BatchObject.Batch.FixPointer | Unix/base/batch.c:410-441 | the loop translates as the specification does, skipping pages that are newer than the transport |
| Messages.CStringUnique | Unix/base/messages.c:550-640 | one address holds at most one zero-terminated string |
| Messages.CloneOne | Unix/base/messages.c:559-638 | cloning one field makes the clone denote what the source denotes and leaves every other slot |
| Messages.CloneAll | Unix/base/messages.c:550-640 | cloning a table of fields fails exactly when a required field has no value; otherwise every field of the clone denotes the source's value in memory of the clone's own batch |
| MessageRestore.RestoreOne | Unix/base/messages.c:470-545 | restoring one carried field makes it lead to its value and changes only its own slots |
| MessageRestore.RestoreAll | Unix/base/messages.c:460-548 | restoring carried fields fails exactly when a required one is missing; otherwise every field leads to its value and nothing but the listed slots changes |
| MessageTables.TablesAreOk | Unix/base/messages.c:51-255 | for every tag of the enumeration but `PullReq` and the bare message, the rows of the base, request and own tables that concern it lie inside the message structure and do not overlap, whether the message is cloned or sent as it is |
| MessageTables.JoinTables | Unix/base/messages.c:65-77 | tables over consecutive parts of a structure may be walked as one |
| MessageTables.TagOfIndex | Unix/base/messages.c:267-314 | each of the 39 indices belongs to one tag, each but that of `PullReq` has a table that ends, and the rows of a request start with those of all requests |
| MessageTransport.CloneJoined | Unix/base/messages.c:643-672 | walking the request table and then the tag's own table is one walk over their join |
| MessageTransport.RestoreJoined | Unix/base/messages.c:721-744 | the same for restoring |
| MessageTransport.CloneIsReady | Unix/base/messages.c:763-802 | cloning for sending succeeds exactly when every required field has a value, and then the clone is complete, self-contained and ready to send |
| MessageTransport.BaseRestored | Unix/base/messages.c:696-709 | the base table nulls the link and destructor pointers and nothing else |
| MessageTransport.MessageArrives | Unix/base/messages.c:674-760 | after page transport and any use of the batch, the message is rebuilt: fields denote the same, absent optional fields and link pointers are null, packed instances have equal bytes, the reference count is 1 and all other content is unchanged |
| MessageTransport.StringsAgree | Unix/base/messages.c:460-802 | row by row, a string is at the sender's pointer exactly when it is at the receiver's |
| MessageTransport.AnyMessageArrives | Unix/base/messages.c:674-760 | the same for a message of any tag with a table that ends, cloned or sent as it is: it is rebuilt exactly when every required row has a value |
| MessageTransport.RestoredIff | Unix/base/messages.c:460-548 | a table is restored exactly when the pointer of every row is null where it may be or can be translated |
| MessageTransport.FromBatchIff | Unix/base/messages.c:674-760 | for any bytes received: a message is rebuilt exactly when its pointer can be translated, its tag is in the table, and every row that concerns it resolves |
| MessageLoops.StringLength | Unix/base/messages.c:559-586 | the scan finds the length of the zero-terminated string |
| MessageLoops.Sender.Copy | Unix/base/messages.c:572-581 | a new block of the batch holds a copy of the bytes |
| MessageLoops.Sender.CloneMessageFields | Unix/base/messages.c:550-640 | the table-walking loop that overwrites the clone's slots does what the specification does |
| MessageLoops.Sender.CloneMessageField | Unix/base/messages.c:559-638 | one turn of that loop |
| MessageLoops.Receiver.FixInPlace | Unix/base/messages.c:479-492 | translating a slot in place, leaving null pointers |
| MessageLoops.Receiver.RestoreMessage | Unix/base/messages.c:460-548 | the table-walking loop that rewrites the received slots does what the specification does |
| StrandProtocol.StepKeepsInv | Unix/base/Strand.h:485-572 | a step permitted by the guards keeps the protocol invariant exactly when it obeys the discipline: no Ack from inside Post and no Post from inside Ack |
| StrandProtocol.RunKeepsInv | Unix/base/Strand.h:485-572 | every disciplined run of two endpoints keeps it |
| StrandProtocol.OnePostOutstanding | Unix/base/Strand.h:155-174 | an ack is pending at a side exactly when one Post of its is undelivered, being handled, or acknowledged by an undelivered Ack; so the stored-message slot is never overwritten, while the slot for control messages is free exactly when none is scheduled |
| StrandProtocol.ReceiverAssertionsHold | Unix/base/strand.c:519-651 | whatever method a side starts, the assertions at its head hold, those on the interaction being open included, also when the opening completes asynchronously |
| StrandProtocol.DoneIsFinal | Unix/base/strand.c:492-501 | once a side has both close flags and no ack pending, no Post, PostControl, Ack or Close reaches it in any continuation |
| StrandProtocol.FinishedIsUntouched | Unix/base/strand.c:492-501 | no disciplined step changes a side that has finished |
| StrandProtocol.AckInsidePostLosesAMessage | Unix/base/strand.c:534-549 | whenever a side is inside Post and its peer at rest, acking there lets the peer overwrite the slot, and a message is lost |
| StrandProtocol.PostInsideAckLosesTheAck | Unix/base/strand.c:551-567 | whenever a side is inside Ack and its peer at rest, posting there can have the new Ack cleared by the return, and the side waits for ever |
| StrandEndpoint.GetFirstSetLSB | Unix/base/Strand.h:38-57 | the shifting loop returns the 1-based position of the lowest set bit, or 0 |
| StrandEndpoint.Endpoint.Schedule | Unix/base/strand.c:2833-3032 | scheduling sets the bit of the method and no other |
| StrandEndpoint.LowestIsFirst | Unix/base/Strand.h:587-593 | the lowest bit of the scheduled word is the method that the protocol runs first |
| StrandEndpoint.Endpoint.BeginNext | Unix/base/strand.c:2833-3032 | the loop starts the method with the lowest scheduled bit, with the effect of the protocol step |
| StrandEndpoint.Endpoint.AcceptOpenAsync | Unix/base/strand.c:3098-3124 | the two endpoints are linked in the state from which the protocol starts, the opener with its completion scheduled |
| StrandEndpoint.Endpoint.Post | Unix/base/Strand.h:485-506 | the flags of both sides and the scheduled bit after a Post are those of the protocol step |
| StrandEndpoint.Endpoint.PostControl | Unix/base/Strand.h:537-545 | the same for PostControl; which message that is, `StrandHistory.GivenIsSent` says |
| StrandEndpoint.Endpoint.Ack | Unix/base/Strand.h:548-557 | the same for Ack |
| StrandEndpoint.Endpoint.Close | Unix/base/Strand.h:560-572 | the same for Close |
| StrandEndpoint.Endpoint.Receive | Unix/base/strand.c:519-651 | what the peer sent takes effect on the flags as in the protocol step, and so does the completion of an opening |
| StrandEndpoint.Endpoint.CallOther | Unix/base/strand.c:586-594 | a call scheduled earlier is made when its turn comes |
| StrandEndpoint.Endpoint.EndCurrent | Unix/base/strand.c:2833-3032 | the returning method clears its own bit and releases the message it was given |
| StrandEndpoint.Endpoint.SchedulePost | Unix/base/Strand.h:1551-1566 | the code makes the specified step: the message is kept and PostOther scheduled |
| StrandEndpoint.Endpoint.ScheduleAck | Unix/base/Strand.h:1603-1607 | the same for an ack |
| StrandEndpoint.Endpoint.ScheduleClose | Unix/base/Strand.h:1640-1644 | the same for a close |
| StrandHistory.StateIsRecord | Unix/base/Strand.h:485-572 | in every run, disciplined or not, each flag, each scheduled method and each held message is what the events alone say it is |
| StrandHistory.GivenIsSent | Unix/base/Strand.h:485-545 | in every disciplined run the message given to Post is the one the peer posted last, to PostControl the one it sent last, and to PostOther the one scheduled last |
| StrandHistory.PostsArriveInOrder | Unix/base/Strand.h:485-506 | in every disciplined run the messages posted by one side are those given to the other, each once and in order, but for the last, which may be in transit |
| Multiplexer.Find | Unix/base/multiplex.c:369-377 | the lookup finds the position of the operation with the key, or none |
| Multiplexer.RunKeepsInv | Unix/base/multiplex.c:114-283 | over every run live operations have distinct keys, every message handed to one was passed on, waits or was lost, acks are counted, history and log agree, and the close flags are consistent |
| Multiplexer.MessagesAreRouted | Unix/base/multiplex.c:114-242 | over every run each operation was handed exactly the accepted non-cancel messages with its key, in order, across all its lives |
| Multiplexer.PostReachesItsOperation | Unix/base/multiplex.c:114-242 | one message is handed to the operation with its operationId and to no other; an operation is opened exactly when none exists and it is no unsubscribe; a cancel never opens one |
| Multiplexer.NothingLostIff | Unix/base/strand.c:1437-1444 | over every run all operations that were removed passed on the messages they were handed, in order, and all live ones passed on or hold them, exactly when no message arrived and no operation was removed while another message waited in the slot |
| Multiplexer.LostByStep | Unix/base/strand.c:1325-1342 | a step loses a message exactly when it overwrites one that waits, or removes the operation for which one waits |
| Multiplexer.CompleteIff | Unix/base/strand.c:2029-2051 | an operation passed on or holds all its messages in order exactly when none was lost; with an empty slot it passed them all on exactly then |
| Multiplexer.EveryPostHasItsOutcome | Unix/base/multiplex.c:114-242 | over any run the log holds exactly one outcome for each posted message, in order |
| Multiplexer.ClosedBackOnce | Unix/base/multiplex.c:261-283 | the connection is closed back exactly once, by the step after which the peer has closed and no operation is left |
| Multiplexer.ConnectionIn.FindOperation | Unix/base/multiplex.c:356-377 | the entry found is the one of the specification |
| Multiplexer.ConnectionIn.HandlePost | Unix/base/multiplex.c:114-242 | the code's branches do what the specification says |
| Multiplexer.ConnectionIn.HandlePassing | Unix/base/strand.c:2029-2051 | where no ack is pending and the operation has not closed, it passes the waiting message on, empties its slot and awaits the ack, as the specification says |
| Multiplexer.ConnectionIn.HandleAck | Unix/base/strand.c:551-567 | the operation no longer awaits the ack, as the specification says |
| Multiplexer.ConnectionIn.HandleOperationClose | Unix/base/multiplex.c:68-77 | the operation closes its interaction once, as the specification says |
| Multiplexer.ConnectionIn.CloseAllEntries | Unix/base/strand.c:1425-1475 | every entry is told to close |
| Multiplexer.ConnectionIn.CloseConnection | Unix/base/multiplex.c:269-270 | the connection is closed back and recorded as such |
| Multiplexer.ConnectionIn.HandleClose | Unix/base/multiplex.c:261-276 | the peer's close is recorded, all entries are told, and an empty connection is closed back |
| Multiplexer.ConnectionIn.HandleEntryDeleted | Unix/base/strand.c:1325-1342 | an operation that has closed and awaits no ack is removed, with what waits for it; the last one closes the connection back if the peer has closed |
| Multiplexer.CancelReachesItsOperation | Unix/base/multiplex.c:114-242 | a cancel raises by one the count of the live operation with its id and of no other; no other message raises any |
| Multiplexer.OutcomeIs | Unix/base/multiplex.c:114-242 | whether a message is forwarded, cancels, opens an operation or is dropped follows from its tag and whether its operation is live |
| Bits.RoundPow2 | Unix/base/buf.c:24-33 | for every 32-bit argument: the least power of two not below x exactly when 1 <= x <= 2^31, and 0 otherwise |
| Bits.SmearTwice | Unix/base/buf.c:27-31 | or-ing with the shift by n doubles the reach of the smear |
| Bits.SmearedIsRounded | Unix/base/buf.c:24-33 | the smeared word plus one is the least power of two, at the level of bits |
| BufFormat.UpIsLeastMultiple | Unix/base/buf.h:81-165 | alignment goes to the first multiple of the width that is not below the position |
| BufFormat.EncodesFrame | Unix/base/buf.c:145-551 | whether a value is represented depends only on the bytes between its start and its end |
| BufFormat.EncodesIsUnique | Unix/base/buf.c:145-551 | a position of a buffer represents at most one value of a kind |
| BufViews.GrowthDoubles | Unix/base/buf.c:89-125 | each growth keeps the sum of the capacities given up below the current capacity |
| BufViews.ResolvedDenotes | Unix/base/buf.c:417-483 | a value represented in the buffer, its string table holding addresses, is denoted by the pointers that unpacking returns |
| BufViews.ResolvedFrame | Unix/base/buf.c:417-483 | such a result is undisturbed by changes outside the value's bytes |
| BufObject.Buf.constructor | Unix/base/buf.c:43-79 | an empty buffer of at least 256 bytes |
| BufObject.Buf.Reserve | Unix/base/buf.c:89-125 | the bytes already there survive, the capacity becomes the least power of two that suffices, and the capacities given up stay below it in sum |
| BufObject.Buf.App | Unix/base/buf.h:65-78 | the bytes are appended behind what is there |
| BufObject.Buf.Pad | Unix/base/buf.h:81-126 | the size moves to the next boundary and earlier bytes stay |
| BufObject.Buf.PackU | Unix/base/buf.h:167-233 | an unsigned number is represented at the aligned old size, and the size is the end of its representation |
| BufObject.Buf.PackStr | Unix/base/buf.c:145-181 | a string, or null, is represented at the old size |
| BufObject.Buf.PackArr | Unix/base/buf.h:244-297 | an array of numbers or datetimes is represented at the old size |
| BufObject.Buf.PackDT | Unix/base/buf.c:485-492 | a datetime is represented at the aligned old size |
| BufObject.Buf.PackTable | Unix/base/buf.c:373-395 | the offset table holds the distances of the strings, and the first 64 sizes are remembered correctly |
| BufObject.Buf.PackStrings | Unix/base/buf.c:400-412 | the strings follow each other behind the table |
| BufObject.Buf.PackStrA | Unix/base/buf.c:340-415 | a string array is represented at the old size; packing fails exactly on a missing array or element |
| BufObject.Buf.UnpackU | Unix/base/buf.h:299-353 | the aligned number is read, or nothing changes when it does not fit |
| BufObject.Buf.Align | Unix/base/buf.h:129-165 | the offset moves to the next boundary, or stays when that is beyond the end |
| BufObject.Buf.UnpackNumber | Unix/base/buf.h:299-353 | on packed bytes of which the buffer holds a first part: succeeds exactly when the value is complete, returns it and ends where packing ended |
| BufObject.Buf.UnpackStr | Unix/base/buf.c:286-310 | the same for strings, returning a pointer into the buffer |
| BufObject.Buf.UnpackArr | Unix/base/buf.c:183-284 | the same for arrays |
| BufObject.Buf.UnpackDT | Unix/base/buf.c:494-512 | the same for datetimes |
| BufObject.Buf.UnpackDTA | Unix/base/buf.c:524-551 | on complete bytes the same for datetime arrays; on truncated ones it only needs the count |
| BufObject.Buf.ResolveTable | Unix/base/buf.c:452-473 | the loop turns a table relative to any base into addresses, and fails exactly when the last string does not fit |
| BufObject.Buf.ResolveEntry | Unix/base/buf.c:456-473 | one turn of the loop replaces one entry by the address it stands for and touches no other byte |
| BufObject.Buf.UnpackTable | Unix/base/buf.c:445-482 | the part from the table on, with the end computed from the first and last pointer |
| BufObject.Buf.UnpackStrA | Unix/base/buf.c:417-483 | only the table changes, it then holds the addresses of the strings, and the buffer still represents the same array |
| BufRoundTrip.PackAll | Unix/base/buf.h:167-297 | packing a list appends the representation of each value, ending where the format says |
| BufRoundTrip.Pack | Unix/base/buf.h:167-297 | the packing call for any value represents it at the old size |
| BufRoundTrip.Unpack | Unix/base/buf.c:183-551 | the unpacking call for any kind succeeds exactly when what it checks is complete, returns the value, and changes only bytes of that value |
| BufRoundTrip.ProgressStep | Unix/base/buf.c:417-483 | unpacking one value leaves every other value and every earlier result alone |
| BufRoundTrip.UnpackAll | Unix/base/buf.c:183-551 | unpacking a represented list by its kinds succeeds, each offset is the packer's position, at the end all results denote the values and the buffer still represents the list |
| BufRoundTrip.PackThenUnpack | Unix/base/buf.c:145-551 | any list of values within 2^31 bytes packed onto an empty buffer is unpacked again |
| BufRoundTrip.UnpackTwice | Unix/base/buf.c:417-483 | unpacking again from the same offset, in place or in a copy at another address, yields the same values and end |
| Naming.HashFoldsCase | Unix/base/naming.h:31-40 | names that compare equal have the same code |
| Naming.FilterIsPlain | Unix/base/instance.c:120-141 | with correct codes the filtered search is the plain first-match search |
| Naming.FilterIsExact | Unix/base/instance.c:120-141 | with any codes, it agrees with the plain search exactly when the first match carries the code of the name |
| Naming.FindProperty | Unix/base/instance.c:120-141 | the loop returns the first index that has both name and code, hence the plain first match when codes are correct |
| Naming.FindFeature | Unix/base/classdecl.c:15-40 | the same, and no declaration under the empty name |
| Naming.LowByteIsLength | Unix/base/naming.h:38-39 | the low byte of the code is the length modulo 256 |
| Naming.NameLen | Unix/base/naming.h:43-48 | the true length of every name, also beyond 255, as a 32-bit length |
| Naming.ToLowerIs | Unix/base/naming.h:24-28 | exactly the ASCII capitals are changed, each to its small letter |
| Naming.HashValue | Unix/base/naming.h:31-40 | the code of a name of up to 255 characters is its first and last character, folded, and its length |
| InstanceKeys.CountKeys | Unix/base/instance.c:432-446 | the loop counts the key properties |
| InstanceKeys.MatchDatetime | Unix/base/field.c:585-616 | the member-wise comparison is equality of the datetimes |
| InstanceKeys.MatchField | Unix/base/field.c:618-693 | the read-only comparison decides the field relation, floats by IEEE 754, references by the keys they lead to |
| InstanceKeys.MatchKeys | Unix/base/instance.c:1287-1364 | the loop decides the matching relation, nothing matching a null instance |
| InstanceKeys.Pigeonhole | Unix/base/instance.c:1309-1317 | an injection of the keys into equally many keys meets all of them |
| InstanceKeys.MatchesIffAgree | Unix/base/instance.c:1287-1364 | when each key is the first property of its name, the one-sided search with equal counts decides that every key of either instance has a counterpart in the other, through nested references |
| InstanceKeys.MatchIsSymmetric | Unix/base/instance.c:1287-1364 | matching is then symmetric |
| InstanceKeys.MatchIsTransitive | Unix/base/instance.c:1287-1364 | matching is transitive |
| InstanceKeys.MatchIgnoresOrder | Unix/base/instance.c:1319-1361 | the order of properties, also behind references, does not matter |
| InstanceKeys.ReflexiveIff | Unix/base/field.c:618-693 | an instance matches itself exactly when it has keys and none is NaN, an array or an embedded instance, through references |
| InstanceKeys.DistinctNamesSuffice | Unix/base/instance.c:1319-1361 | instances with distinct names are of that kind |
| KeySymmetry.SymmetricIff | Unix/base/instance.c:1287-1364 | matching an instance is symmetric against every well-formed one exactly when each of its keys is the first property of its name, or it has no keys, a key that never compares equal, or disagreeing keys of one name |
| KeySymmetry.HiddenKeyBreaksSymmetry | Unix/base/instance.c:1319-1361 | otherwise it matches a well-formed instance that does not match it |
| KeySymmetry.HiddenKeyIsNotMatched | Unix/base/instance.c:1309-1361 | no well-formed instance matches one that hides a key behind another property of the name |
| KeySymmetry.MatchedIsMatchable | Unix/base/instance.c:1319-1361 | an instance that matches a well-formed one has keys, and those of one name agree |
| DynamicSpec.ConstructStores | Unix/base/field.c:176-446 | what is stored reads back with the same content, and is marked borrowed exactly when a pointer was stored on request; null strings and instances become null values, null arrays empty ones; storing fails exactly on lists that cannot be copied |
| DynamicSpec.LegalName | Unix/base/naming.c:12-76 | the scan accepts exactly a letter or underscore followed by letters, digits and underscores |
| DynamicSpec.FoldIffSame | Unix/base/instance.c:120-141 | the map's keys identify exactly the names that compare equal |
| DynamicSpec.NamesAreIndependent | Unix/base/instance.c:1611-1801 | what any run leaves under a name is what the operations on that name alone leave |
| DynamicSpec.PropertiesStay | Unix/base/instance.c:1611-1801 | no run removes a property or changes its type or position |
| DynamicSpec.LegalCharacters | Unix/base/naming.c:12-76 | names start with a letter or underscore and go on with these or digits |
| DynamicInstance.FindCapacity | Unix/base/instance.c:42-58 | 32, or the least power of two that is not smaller |
| DynamicInstance.CapacityStep | Unix/base/instance.c:1650-1683 | the capacity serves one more property until it is full, and then its double does |
| DynamicInstance.FieldsAreApart | Unix/base/instance.c:1711-1721 | the fields lie inside the instance and share no byte |
| DynamicInstance.SearchIsLookup | Unix/base/instance.c:120-141 | the code-filtered search finds a name exactly when the map has it, at the position the map says |
| DynamicInstance.Dynamic.constructor | Unix/base/instance.c:1168-1275 | a new instance is the empty map with capacity 32 |
| DynamicInstance.NewDynamic | Unix/base/instance.c:1143-1285 | an illegal class name is refused, otherwise a new empty instance |
| DynamicInstance.Dynamic.Grow | Unix/base/instance.c:1650-1683 | when full, declarations and fields move to memory of twice the size and the wrapper follows |
| DynamicInstance.Dynamic.AddProperty | Unix/base/instance.c:1685-1722 | the declaration is appended with its code and offset, its field cleared, and the map gains a null value under the name |
| DynamicInstance.Dynamic.Find | Unix/base/instance.c:120-141 | the search finds the property exactly when the map has the name |
| DynamicInstance.Dynamic.AddElement | Unix/base/instance.c:1611-1733 | result and map are those of the specification, through the relocation; a value that cannot be stored leaves the property added and null |
| DynamicInstance.Dynamic.SetElementAt | Unix/base/instance.c:1758-1801 | the type must agree; a failure changes nothing |
| DynamicInstance.Dynamic.SetField | Unix/base/field.c:517-539 | the new value replaces the old one, or nothing changes when it cannot be built |
| DynamicInstance.Dynamic.SetElement | Unix/base/instance.c:1735-1756 | result and map are those of the specification |
| DynamicInstance.Dynamic.ClearElement | Unix/base/instance.c:1968-2015 | result and map are those of the specification, by which the property stays and is null (`DynamicMeaning.ClearThenRead`) |
| DynamicInstance.Dynamic.GetElement | Unix/base/instance.c:1803-1966 | value, type, nullness and position are those of the map |
| DynamicInstance.Perform | Unix/base/instance.c:1611-1801 | any run on a new instance leaves exactly the map that the run specifies |
| DynamicInstance.PerformThenGet | Unix/base/instance.c:1803-1966 | after any run through the object, reading a name gives the type, nullness, content and position the last successful operation left |
| DynamicMeaning.AddThenRead | Unix/base/instance.c:1611-1733 | when exactly each result is returned; the value added is then read under the name, at the end, and no other name changes |
| DynamicMeaning.SetThenRead | Unix/base/instance.c:1735-1801 | the same for setting: the value set is then read, the position is kept, and a failure changes nothing |
| DynamicMeaning.ClearThenRead | Unix/base/instance.c:1968-2015 | clearing succeeds exactly on a name that is there, which then reads null with its type and position |
| DynamicMeaning.LastGivenIsRead | Unix/base/instance.c:1611-2015 | over any run a name is there exactly when it was added, and reads as what the last successful operation on it gave |
| DynamicMeaning.PropertiesInOrder | Unix/base/instance.c:1611-1733 | over any run the properties are in the order in which they were added |
| ClassModel.InheritedIsFilter | Unix/base/class.c:904-928 | a subclass inherits exactly the qualifiers that propagate |
| ClassBuild.NewKeepsInv | Unix/base/class.c:931-1195 | creating a class, with or without a parent, keeps every class in order and every count exact |
| ClassBuild.ChildInheritsByIndex | Unix/base/class.c:1108-1141 | the child has each property and each method of the parent at the parent's index, equal in everything but the qualifiers, of which it has exactly those that propagate |
| ClassBuild.NewTouchesNoOther | Unix/base/class.c:931-1195 | no existing class changes but for the parent's reference count, and each sees the same properties and methods |
| ClassBuild.AddElementKeepsInv | Unix/base/class.c:2199-2350 | adding or overriding an element keeps names unique, fields disjoint and in bounds, and inherited qualifiers propagating |
| ClassBuild.AddMethodKeepsInv | Unix/base/class.c:2677-2798 | the same for methods |
| ClassBuild.IndexesStay | Unix/base/class.c:2256-2345 | every index keeps its name and origin, also when the element is overridden, and every other index its element |
| ClassBuild.MethodIndexesStay | Unix/base/class.c:2677-2798 | the same for methods |
| ClassBuild.AddingTouchesNoOther | Unix/base/class.c:2199-2350 | adding an element or a method changes neither another class nor anything it sees, the parent in particular |
| ClassBuild.AddQualifierKeepsInv | Unix/base/class.c:2431-2607 | a qualifier on any listed element keeps the invariant exactly when every class that lists the element may see it |
| ClassBuild.OwnQualifierKeepsInv | Unix/base/class.c:2431-2607 | on an own element that is when it propagates or no other class lists the element |
| ClassBuild.BorrowedElementTakesNone | Unix/base/class.c:2431-2607 | on a borrowed element that its owner still lists, a qualifier of the borrower always breaks it |
| ClassBuild.QualifyingTouchesNoOther | Unix/base/class.c:2431-2607 | a qualifier changes nothing for a class that neither owns nor lists the element |
| ClassRefs.CloneKeepsInv | Unix/base/class.c:3426-3452 | another handle keeps the counts exact |
| ClassRefs.DeleteKeepsInv | Unix/base/class.c:3323-3354 | deleting a handle, with the cascade, keeps every remaining count exact and every remaining class in order |
| ClassRefs.ReleaseFrees | Unix/base/class.c:3323-3354 | the cascade frees exactly the chain of ancestors that have no other reference, lowers the count of the first one it keeps, and changes no other class |
| ClassRefs.FreedAtZero | Unix/base/class.c:3329-3350 | a class is freed exactly when its last handle goes and it has no subclass |
| ClassRefs.BorrowedIsLive | Unix/base/class.c:1014-1028 | every property and method that a live class lists, their qualifiers and the class's own belong to live classes |
| ClassRefs.AncestryIsLive | Unix/base/class.c:1014-1028 | all ancestors of a live class are live |
| ClassRuns.RunKeepsInv | Unix/base/class.c:931-1195 | in every world reached by any sequence within capacity, qualifiers added to properties and methods where every class that lists them may see them, all classes are in order and every count equals handles plus live subclasses |
| ClassRuns.HeldIsUsable | Unix/base/class.c:931-1195 | every pointer in a class that a client holds a handle on is valid |
| ClassRuns.ReachableClassIsSound | Unix/base/class.c:2199-2350 | any two properties of any reachable class have different names and disjoint fields inside the instance, and what is inherited propagates |
| ClassRuns.ReachableMethodsAreSound | Unix/base/class.c:2677-2902 | any two methods of any reachable class have different names, and the qualifiers inherited with them propagate |
| ClassRuns.LateQualifierBreaksARun | Unix/base/class.c:2431-2607 | a concrete three-step run after which any qualifier of the parent that does not propagate, put on its element, breaks the invariant |
| ClassObject.CanBePropagated | Unix/base/class.c:912-928 | the loop decides whether a qualifier propagates |
| ClassObject.PropagateQualifiers | Unix/base/class.c:1128-1136 | the loop copies exactly the inherited qualifiers, in order |
| ClassObject.Classes.InheritList | Unix/base/class.c:1108-1141 | the loop shares or copies each element as the specification says |
| ClassObject.Classes.FindElement | Unix/base/class.c:2270-2280 | the loop finds the first element of the name, or the end of the list |
| ClassObject.FindQual | Unix/base/class.c:2513-2520 | the loop finds the first qualifier of the name, or the end of the list |
| ClassObject.Classes.New | Unix/base/class.c:931-1195 | the code makes the specified step and keeps the invariant |
| ClassObject.Classes.AddElement | Unix/base/class.c:2199-2350 | the same, returning the index of the element, where the class then lists what was asked for: name, type, flags and origin as given or taken from the declaration it overrides; every other element is as before |
| ClassObject.Classes.AddMethod | Unix/base/class.c:2677-2798 | the same for methods |
| ClassObject.Classes.AddElementQualifier | Unix/base/class.c:2431-2607 | the code makes the specified step for any qualifier, written into the declaration whoever owns it, with its effect on the key and read-only flags, and the invariant survives exactly when every class that lists the element may see it |
| ClassObject.Classes.AddMethodQualifier | Unix/base/class.c:2804-2902 | the same for methods, which have neither flag |
| ClassObject.Classes.Redeclare | Unix/base/class.c:2500-2606 | writing the qualified declaration back is the specified step |
| ClassObject.Classes.Clone | Unix/base/class.c:3426-3452 | the same for a new handle |
| ClassObject.Classes.Drop | Unix/base/class.c:3323-3354 | the recursion up the parents terminates and is the specified cascade |
| ClassObject.Classes.Delete | Unix/base/class.c:3323-3354 | the same for a client's deletion |
| ClassMeaning.ElementIsAsAsked | Unix/base/class.c:2199-2350 | the class lists, at the index returned, a declaration as asked for, joined with the one it overrides, at the next field; all others stay |
| ClassMeaning.MethodIsAsAsked | Unix/base/class.c:2677-2798 | the same for methods, which take no field |
| ClassMeaning.QualifierIsAsAsked | Unix/base/class.c:2431-2607 | only the one declaration changes, in the qualifier of that name and the key and read-only flags |
| ClassMeaning.InheritedKeepsOrder | Unix/base/class.c:912-928 | inherited qualifiers keep their order |
| ClassMeaning.InheritedOne | Unix/base/class.c:912-928 | a single qualifier is inherited exactly when it propagates, which with the above determines every list |
| ClassMeaning.ClassIsAsAsked | Unix/base/class.c:931-1195 | a new class has the name, parent and room asked for and one handle; nothing else without a parent, and with one its size, as many elements, and exactly its propagating qualifiers |
| ClassMeaning.FlagNames | Unix/base/class.c:2550-2590 | the names of the qualifiers that set the key and read-only flags |
| ClassMeaning.RestrictedNames | Unix/base/class.c:904-911 | the six qualifiers that are never inherited |
| Base64.AlphabetInverse | Unix/base/base64.c:27-43 | decoding a character gives the six bits it was made from |
| Base64.EncodingIsStandard | Unix/base/base64.c:45-154 | the text is the encoding of section 4 of RFC 4648: 24-bit groups as four 6-bit groups, zero bits and padding at the end, each group shown by the character Table 1 gives for it |
| Base64.EncodingIsUnique | Unix/base/base64.c:45-154 | the standard allows no other text |
| Base64.DecodingInverts | Unix/base/base64.c:231-314 | decoding the encoding of any bytes yields those bytes |
| Base64.EncIsTable | Unix/base/base64.c:28-43 | the encoder's table is Table 1 of RFC 4648 |
| Base64.ValueIsTable | Unix/base/base64.c:159-229 | a character has value x below 64 exactly when Table 1 shows x by it, its high bit ignored; 64 is exactly padding and 0xFF exactly everything else |
| Base64.EncodingIsCharacters | Unix/base/base64.c:45-154 | every byte of an encoding is a character of the table or padding |
| Base64.UngroupReads | Unix/base/base64.c:231-314 | the decoded bytes hold the bits of the four characters; before padding, bits left over are ignored |
| Base64Stream.WriteGroup | Unix/base/base64.c:85-142 | one turn of the encoder writes one group of characters into the block |
| Base64Stream.EncodeGroup | Unix/base/base64.c:85-142 | the same in terms of the block so far and the bytes left |
| Base64Stream.Encode | Unix/base/base64.c:45-154 | the blocks handed to the callback concatenate to the encoding, whatever the block size; it fails exactly when a block is refused |
| Base64Stream.DecodeGroup | Unix/base/base64.c:293-301 | one turn of the decoder writes the bytes of four characters |
| Base64Stream.Decode | Unix/base/base64.c:231-314 | it succeeds exactly on well-formed text whose blocks are accepted, the blocks concatenate to the decoded bytes, and the result is the size of the last block |
| Base64Octets.HeaderRoundTrip | Unix/base/helpers.c:945-979 | the four length bytes are the base-256 digits of the number, most significant first, and are read back as it |
| Base64Octets.Fill | Unix/base/helpers.c:970-989 | length in front and new block behind, what lies between unchanged |
| Base64Octets.CollectAll | Unix/base/helpers.c:911-993 | the calls for any blocks collect their concatenation |
| Base64Octets.Octets.Collect | Unix/base/helpers.c:911-993 | one call appends its block behind what was collected and updates the big-endian length |
| Base64Octets.EncodeThenCollect | Unix/base/helpers.c:911-993 | any bytes encoded, decoded and collected, whatever the block sizes, end up behind their length plus four |
| Decimal.NumberIsRead | Unix/base/helpers.c:22-32 | a formatted number is read back, whatever non-digit follows |
| Decimal.NumberTextIsRead | Unix/base/helpers.c:22-32 | white space, a sign and digits are read with their value, up to whatever non-digit follows |
| Decimal.NumberWasRead | Unix/base/helpers.c:22-32 | and whatever is read is of that form |
| DatetimeText.StampRoundTrip | Unix/base/helpers.c:214-517 | any timestamp formatted for WS-Management is parsed back as itself exactly when every field fits its columns |
| DatetimeGrammar.StampIff | Unix/base/helpers.c:214-461 | text is read as a timestamp exactly when it is a date, a date and time, or a time that denotes it |
| DatetimeGrammar.NoTimeAfterDate | Unix/base/helpers.c:422-461 | text that starts with four digits is never read as a time |
| CimText.CimRoundTrip | Unix/base/helpers.c:581-676 | any timestamp or interval has 25 characters in its CIM form, and is parsed back as itself exactly when every field fits its columns, the fields printed as negative numbers included |
| CimText.FromCimIff | Unix/base/helpers.c:581-676 | text is read as a value exactly when its columns say that value |
| Duration.ParseDuration | Unix/base/helpers.c:64-212 | text is accepted exactly when it is P followed by marks and numbers with designators legal where they stand, in any order and repeated; the result is what its numbers amount to, carried over, the last one of each kind counting; other text is refused |
| Duration.OneReading | Unix/base/helpers.c:113-181 | duration text reads in one way only |
| Duration.MinusInside | Unix/base/helpers.c:106-108 | P-1347M is accepted, and which interval comes out |
| Duration.IntervalRoundTrip | Unix/base/helpers.c:181-212 | an interval comes back normalised, with the same total exactly when its whole days fit 32 bits and its microseconds six digits |
| Duration.IntervalFits | Unix/base/helpers.c:518-568 | no interval is cut by the 64-character buffer |
| Duration.IntervalIsItems | Unix/base/helpers.c:518-568 | the text written for an interval is duration text with exactly its non-zero parts |
| Duration.ParseWSMan | Unix/base/helpers.c:402-461 | dispatch by the first character; a negative duration is refused; text that starts with P is accepted exactly when it is duration text |
| Duration.FormatThenParse | Unix/base/helpers.c:402-568 | formatting any datetime and parsing the text: a timestamp comes back exactly when it fits, an interval keeps its total as stated above |
| Duration.UsecRoundTrip | Unix/base/helpers.c:1223-1262 | converting microseconds to an interval and back is the identity exactly below 49711 days |
| Duration.CountIsLast | Unix/base/helpers.c:113-181 | of each kind the last number of its section counts |
| Duration.NormalisedIsAmount | Unix/base/helpers.c:183-212 | the interval is in normal form and has the total of the text exactly when its whole days fit 32 bits |
| Duration.ToUsecIff | Unix/base/helpers.c:1223-1245 | the conversion gives the total exactly when no product exceeds 32 bits; a timestamp is refused |

## Left out

- Cancel delivery, timers, the two-sided passthrough of `StrandBoth` and the scheduling of several strands on one thread: the protocol model has one interaction and abstracts the environment to calls, schedules and method returns.
- The hash map of the multiplexer: a sequence of entries searched by key, as its hash and equality procedures compare keys only.
- The race between an entry that empties its slot and a parent that fills it: passing a message on is one step of the multiplexer model.
- Failed openings of an interaction: both sides start accepted, or with the completion of an asynchronous opening scheduled.
- `Instance_Pack`, `Instance_Unpack` and `InstanceToBatch`: a packed instance is an opaque, non-empty byte string.
- The `PullReq` message, whose field table has no end marker, and pointer fields that no table lists.
- Allocation failure, and the branches that only report it.
- Malformed string tables in a buffer: `Buf_UnpackStrA` is modelled on them with unbounded differences, where the C code would overflow a 64-bit difference; nothing is claimed about its result then.
- Destruction of field values and who owns borrowed memory: values are immutable, and only the borrowed flag is kept.
- Property flags of classes other than key and read-only, method flags, default values, method parameters, class qualifiers added by hand, and the WMI mappings of CIMTYPE and maxlen.
- Cloning of whole classes and of dynamic instances.
- Logging and tracing, printing of instances, file paths and configuration, credential caches, the HTTP server and the agent main loop: input and output around the core; HTTP parsing and the caches would be models of their own.
- BufObject.Buf.UnpackDTA: states nothing about the pointer's target when the buffer is truncated, because the code does not check it.
- DynamicInstance.Dynamic.SetElementAt: the index just past the end is excluded, because the code reads past its array there.
- Multiplexer.ConnectionIn.HandlePassing: "passed on" means handed to `Strand_Post` where its assertions hold; what a build without assertions does with an ack pending, or after closing, is not modelled.
- DynamicInstance.Dynamic.GetElement: returns value, type, nullness and position, but not the declaration flags of the property and the flag for a field that was not modified, because the map does not hold them.
- Messages.CloneOne: a packed instance of no bytes is excluded, because the pointer made for it cannot be translated (`BatchTransport.EmptyBlockIsNotTranslated`); a packed instance always has a header.
- Messages.CloneAll: the same exclusion.
- MessageTransport.CloneIsReady: the same exclusion.
- MessageTransport.MessageArrives: the same exclusion.
- MessageTransport.FromBatchIff: excludes the `PullReq` message, and tags with the request bit on an index that is no request, because the code then restores the request rows over the message's own.
- MessageTransport.AnyMessageArrives: the same two exclusions; no tag of the enumeration but `PullReq` is among them (`MessageTables.TagOfIndex`).
- `MessagePackCloneForBinarySending` of a message that needs no clone: it only adds a reference; the message is sent from the batch it lies in.
- DatetimeText.StampRoundTrip: negates the least 32-bit time offset as a mathematical integer, where the C expression overflows; the value is out of range either way.
