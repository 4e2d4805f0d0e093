# A verified model of the RAID 01 drive

The drive is a network block device whose master stripes every kernel request over
several minions and mirrors each stripe on the next minion. This project models, in
Dafny, the master's data path from the kernel's request to the NBD reply, the wire
format between master and minions, the minions' files, and two parts of the framework:
the thread pool and the scheduler. It proves what these are for.

- *Address translation*: `StripeSplitter` cuts a byte range at chunk boundaries.
- *Fan-out*: `MinionManager` sends each piece to a primary and a backup minion.
- *Wire format*: `Codec` holds the four messages, the buffer walks and the receive guard.
- *Completion*: `MirrorTicket` is the completion logic on values, `Ticket` the class
  that refines it, `ReadAssembly` the copy into the result buffer.
- *Bookkeeping*: `MasterProxies` holds the pending maps of `MinionProxy`,
  `ResponseManager` and `NBDProxy`; `Minion` the backing file and the two commands.
- *The whole path*: `RaidSystem` is a state machine over kernel requests, the master's
  tables and the minions. The network is a set of byte datagrams that only grows and from
  which any datagram may be received at any time, so loss, duplication, delay and
  reordering are all covered. `RaidInvariant`, `RaidOrigin`, `RaidSafety` and
  `RaidReplies` prove what holds in every run, `RaidTickets` lifts the laws of tickets to
  runs, `ReplyStream` adds the kernel's side.
- *Requests beyond one chunk*: `WideCallbacks` says what becomes of every callback,
  `RaidProgress` which requests can still be answered, `RaidExamples` which can be answered
  whatever the schedule. `WideReplies` says what a reply still promises and `WideTruth` which
  answers a callback can get; `Rounds` builds runs, and `WrongWrites` and `WrongReads` use
  them to show exactly which requests are told the truth.
- *What the files hold*: `LocalWrites`, `WideRequests`, `MirrorStore`, `RaidStores` and
  `SerialRuns`.
- *Framework*: `ThreadPool` with `PoolConservation`, `PoolSize`, `PoolTasks` and `PoolPause`,
  and `Scheduler`.

Classes carry the state the source updates in place; their methods are proved equal to
functions on values, and the state machines step by those same functions.

Some things that the design suggests do not hold of the code. For each of these an
if-and-only-if says when they do:

- A backup shares its cells with the primary of the next chunk. When a cell holds what a
  plain disk would hold: `MirrorStore.CellIsDiskExactly`; what it holds:
  `MirrorStore.SerialStoresLatest`; an instance: `MirrorStore.NeighboursCollide`.
- One request can overwrite its own mirrors. How long a request may be for each kind of
  mirror: `WideRequests.ReadbackExact`.
- "Some mirror of every segment is OK, so the read succeeds" fails for certain orders of
  the answers. Which ones: `MirrorTicket.FailoverExact`, and in runs
  `RaidTickets.ReadReplyVerdict`.
- A proxy keeps one callback per UID, and a request whose sends use a minion twice replaces
  its own. Which sends do: `WideCallbacks.CollidingSends`; when a callback is lost:
  `WideCallbacks.CallbackFate`; when a request is answered: `RaidTickets.AnsweredExactly`;
  when it still can be: `RaidProgress.WriteCanBeAnsweredExactly` and
  `RaidProgress.ReadCanBeAnsweredExactly`; which requests can be, whatever the schedule:
  `RaidExamples.AlwaysAnswerableExactly`; runs that are not: `RaidExamples.UnansweredWrite`
  and `RaidExamples.UnansweredRead`.
- A callback takes any answer to its request from its minion, also one to an earlier
  message. So "a reply without error means that the request was done" fails for some
  requests. For which writes it holds in every run: `WrongWrites.WriteIsTruthfulExactly`,
  and, whatever the bytes, `WrongWrites.WritesAreTruthfulExactly`; for which reads:
  `WrongReads.ReadIsTruthfulExactly`; which reads can be answered from too few bytes:
  `WrongReads.ShortAnswersExactly`. Runs for every request for which it fails:
  `WrongWrites.WrongWrite` and `WrongReads.WrongRead`; on three minions of two bytes:
  `WrongReads.OnThreeMinions`.
- A scheduled task can run before it is due. Which pending callbacks do that, in each
  state: `Scheduler.EarlyExactly`; a run: `Scheduler.EarlyExample`.
- The range check can be passed by a sum that wraps around 64 bits. Which ones is plain
  arithmetic: `MinionManager.RangeCheckExact`.

These say one direction only:

- `WideReplies.WideWriteReplySafe` and `WideReplies.WideReadReplySafe`: in a run in which
  every callback got an answer that serves for its own message, replies without error are
  true. They are the steps to the exact conditions above.
- `WideReplies.FailsOverInTime`: what must have happened if a read failed over.
- `WideCallbacks.WideWriteNeedsEarlyAnswers`: what must have happened if a write was answered;
  the exact form is `RaidTickets.WriteAnsweredExactly`.
- `Scheduler.EarlyOnlyAfterArmingTwice`: what must have happened in a run before a task runs
  early.

## Model

| member | source | states |
|---|---|---|
| `StripeSplitter.Split` | concrete/src/StripeSplitter.cpp:17-46 | the loop returns exactly the closed-form segments; they tile the buffer and each is a piece of one chunk at the right address |
| `StripeSplitter.SplitIsExact` | concrete/src/StripeSplitter.cpp:17-46 | for every range and chunk size the segments tile `[0, length)` in order, cross no chunk, satisfy primary * chunk + local offset = offset + buffer offset, and name existing minions if the range is in the drive |
| `StripeSplitter.PieceBounds` | concrete/src/StripeSplitter.cpp:28-30 | each piece is non-empty, stays in its chunk, and all but the last reach the chunk's end |
| `StripeSplitter.SegmentAddress` | concrete/src/StripeSplitter.cpp:27-28 | segment `i` starts in chunk `offset / chunk + i` at the local offset it claims |
| `StripeSplitter.ByteInOneSegment` | concrete/src/StripeSplitter.cpp:25-43 | each byte of the buffer lies in exactly one segment, which sends it to minion `(offset + k) / chunk`, local address `(offset + k) % chunk` |
| `StripeSplitter.DistinctMinionsIffOneSegment` | concrete/src/MinionManager.cpp:86-100 | for two or more minions, the primaries and backups of an in-range request are pairwise distinct if and only if it has at most one segment |
| `Codec.WordRoundTrip` | concrete/src/AMessage.cpp:14-26 | a value that fits its width is read back from the bytes stored for it |
| `Codec.EncodeLayout` | concrete/src/MessageSend.cpp:21-33 | an encoded message has `GetSize()` bytes, with size, type and UID at bytes 0, 4 and 8 |
| `Codec.WordIsLittleEndian` | concrete/src/AMessage.cpp:14-19 | byte `k` of a stored word is `v / 256^k % 256` |
| `Codec.OnWireExactly` | concrete/src/MessageReceive.cpp:25-39 | bytes are the encoding of a message if and only if they are: size, type 0 to 3 and UID as words at 0, 4 and 8; for requests offset at 16, length at 24, data of a write from 32; for answers 1 or 0 at 16, for a read the length at 17 and the data from 25; and nothing else |
| `Codec.ReceiveExactly` | concrete/src/MinionProxy.cpp:58-84 | of any packet, well-formed or not, a receiver makes message `m` if and only if the size field fits the bytes received and the fields of `m` are where they belong; any result byte but 0 means success |
| `Codec.RoundTrip` | concrete/src/MessageSend.cpp:70-97 | for all four kinds, decoding what was encoded consumes all of it and restores every field |
| `Codec.TruncationGuard` | concrete/src/MinionProxy.cpp:62-84 | however an encoded message is cut, it is accepted exactly when nothing was cut, and then decodes to the original |
| `Codec.DeliveredIffFits` | concrete/src/MasterProxy.cpp:43-65 | a message arrives, unchanged, exactly when it fits BUFSIZ - 1 bytes |
| `Codec.PayloadLimits` | concrete/src/MessageSend.cpp:99-103 | write requests arrive up to 8158 bytes of payload and read answers up to 8166; the other kinds always do |
| `Codec.StoreWord` | concrete/src/AMessage.cpp:14-19 | storing a word appends its little-endian bytes to what the walk has written |
| `Codec.StoreBytes` | concrete/src/MessageReceive.cpp:36-38 | the payload copy appends exactly the payload |
| `Codec.StoreRange` | concrete/src/MessageSend.cpp:28-32 | offset and length follow each other |
| `Codec.StoreAnswer` | concrete/src/MessageReceive.cpp:32-38 | result flag, length and payload follow each other |
| `Codec.StoreBody` | concrete/src/MessageSend.cpp:70-84 | for every kind the walk writes exactly the body after the header |
| `Codec.ToBuffer` | concrete/src/MessageReceive.cpp:25-39 | the walk leaves exactly the encoding in a buffer of `GetSize()` bytes: every field at its byte, a result as 1 or 0 |
| `Codec.LoadWord` | concrete/src/AMessage.cpp:21-26 | loading a word gives the value of its bytes |
| `Codec.FromBuffer` | concrete/src/MinionProxy.cpp:58-84 | the guarded walk over a packet yields exactly the message whose fields the packet holds, if there is one, on all packets, well-formed or not |
| `MirrorTicket.NotifiesAtMostOnce` | concrete/src/Ticket.cpp:27-51 | for every sequence of answers the dispatcher is notified once if the ticket completes and never otherwise; a completed ticket does not change |
| `MirrorTicket.Completion` | concrete/src/Ticket.cpp:53-66 | with at most one answer per mirror a ticket completes exactly when every segment is settled, at the first answer for which that holds, and keeps what was recorded by then |
| `MirrorTicket.ReadVerdict` | concrete/src/Ticket.cpp:68-93 | a read succeeds exactly when every segment had an OK answer by the time it was settled |
| `MirrorTicket.FailoverExact` | concrete/src/Ticket.cpp:60-65 | "every segment has an OK mirror" is the verdict except exactly when an OK primary comes after the read was settled by its failed backup |
| `MirrorTicket.FailoverPrimariesFirst` | concrete/src/Ticket.cpp:60-65 | if each primary answers before its backup, the verdict is exactly "every segment has an OK mirror", for every interleaving |
| `MirrorTicket.FailedBackupFirst` | concrete/src/Ticket.cpp:87-90 | two orders of the same two answers with different verdicts |
| `MirrorTicket.WriteVerdict` | concrete/src/Ticket.cpp:55-74 | for every order of a full set of answers a write completes precisely at the last one, with the conjunction of all results |
| `MirrorTicket.WriteOrderIrrelevant` | concrete/src/Ticket.cpp:70-74 | the verdict of a write is the same for every permutation of its answers |
| `ReadAssembly.AssembleByte` | concrete/src/Ticket.cpp:118-126 | a byte that one segment alone covers is the one that segment copies |
| `ReadAssembly.ReadReturnsContent` | concrete/src/Ticket.cpp:114-127 | if OK mirrors carry the bytes of some content, every successful read returns that content in every arrival order, and nothing of the uninitialised buffer |
| `ReadAssembly.ReadTakesPrimaryFirst` | concrete/src/Ticket.cpp:77-127 | once the answers settle a read and each segment has an OK one by then, the result is successful, of the length asked for, and every segment of its buffer holds the data of its primary's answer if that was OK by then, and otherwise of its backup's |
| `Ticket.UidSource.Next` | concrete/src/UID.cpp:5-7 | every UID is the old counter, which then grows |
| `Ticket.Ticket.constructor` | concrete/src/Ticket.cpp:10-20 | a new ticket has one open segment state per segment and has notified nobody |
| `Ticket.Ticket.OnMirrorResponse` | concrete/src/Ticket.cpp:27-51 | the state follows the completion logic; exactly the answer that completes the ticket notifies, once, and burns one UID |
| `Ticket.Ticket.TryComplete` | concrete/src/Ticket.cpp:95-131 | completes exactly if all segments are resolved, with the verdict and, for a successful read, the assembled buffer |
| `Ticket.Ticket.MakeResult` | concrete/src/Ticket.cpp:108-127 | the result carries the ticket's UID, verdict and length, and a buffer exactly for a successful read |
| `Ticket.Ticket.Reassemble` | concrete/src/Ticket.cpp:116-126 | the copy loop leaves exactly the assembled bytes in the buffer, whatever it held before |
| `Ticket.CopyTo` | concrete/src/Ticket.cpp:123-124 | the copied range holds the data and nothing else changes |
| `Minion.FileManager.constructor` | concrete/src/FileManager.cpp:9-29 | a new file is all zero |
| `Minion.FileManager.ReadFromFile` | concrete/src/FileManager.cpp:31-39 | a read that reports success returned the bytes of the file |
| `Minion.FileManager.WriteToFile` | concrete/src/FileManager.cpp:41-50 | a write that reports success stored exactly its bytes and nothing else |
| `Minion.FileManager.RunCommand` | concrete/src/MinionCommands.cpp:8-61 | a command applies its request to the file and then answers under the request's UID with what it found or did |
| `MinionManager.RangeCheckExact` | concrete/src/MinionManager.cpp:20-26 | remark: the check agrees with "the range is in the drive" exactly when the 64-bit sum does not wrap to a number in the drive |
| `MinionManager.WrappedRangeAccepted` | concrete/src/MinionManager.cpp:22 | remark: one byte at the last 64-bit address passes the check of every drive |
| `MinionManager.MinionManager.AddTask` | concrete/src/MinionManager.cpp:75-133 | requests that fail the range check send nothing; those in the drive send every segment to its primary, then its backup, at the same local offset, with the right slice |
| `MinionManager.MinionManager.SendAll` | concrete/src/MinionManager.cpp:115-132 | the loop sends each segment to its primary, then its backup |
| `MasterProxies.MinionProxy.AddTask` | concrete/src/MinionProxy.cpp:15-49 | the callback is kept under the UID, replacing an older one, and the encoded message is sent |
| `MasterProxies.MinionProxy.OnMinionFDWakeUp` | concrete/src/MinionProxy.cpp:56-98 | an answer whose UID has a callback fires it with that result and data and forgets it; every other packet is dropped |
| `MasterProxies.NBDProxy.Register` | concrete/src/NBDProxy.cpp:78-85 | a pending reply remembers the request's handle |
| `MasterProxies.NBDProxy.OnNBDResponse` | concrete/src/NBDProxy.cpp:98-127 | a pending reply is sent, byte by byte, with error 5 or 0, its handle, and data exactly for a successful read, and forgotten; unknown UIDs change nothing |
| `MasterProxies.RespondOnWire` | concrete/src/NBDProxy.cpp:98-124 | a pending request is answered with the bytes 67 44 66 98, then 0 0 0 5 (`EIO`) for a failure or 0 0 0 0 for a success, its handle, and for a success with a buffer exactly that; only its own entry goes, and an unknown UID changes nothing |
| `MasterProxies.ResponseManager.OnNewTask` | concrete/src/ResponseManager.cpp:24-28 | the request becomes pending |
| `MasterProxies.ResponseManager.OnTicketCreate` | concrete/src/ResponseManager.cpp:30-38 | the ticket enters the table |
| `MasterProxies.ResponseManager.OnTicketDone` | concrete/src/ResponseManager.cpp:40-65 | the result of a pending request takes request and ticket out of the tables and is answered byte by byte; any other result changes nothing |
| `RaidInvariant.StepKeeps` | concrete/src/ResponseManager.cpp:24-65 | every step of the system keeps the agreement of UIDs, tables, tickets, callbacks and replies |
| `RaidInvariant.Bookkeeping` | concrete/src/NBDProxy.cpp:98-123 | in every run each request has at most one reply, with its own handle and its ticket's verdict; it has one exactly when its ticket has completed, and a pending reply otherwise; the pending requests are those announced and unanswered |
| `RaidInvariant.UidsAreCounted` | concrete/src/UID.cpp:5-7 | in every run the UID counter is the number of requests read and replies sent: the result of a ticket uses up a UID of its own |
| `RaidOrigin.RequestsAreSends` | concrete/src/MinionProxy.cpp:18-49 | every datagram to a minion is the encoding of a send of an accepted request to that minion |
| `RaidOrigin.RequestArrives` | concrete/src/MasterProxy.cpp:43-72 | a minion that accepts such a datagram sees exactly that send's message |
| `RaidOrigin.AnswersAreGenuine` | concrete/src/MinionCommands.cpp:20-61 | every datagram from a minion is the answer it gave at some earlier step to a send that it served |
| `RaidOrigin.AnswerArrives` | concrete/src/MinionProxy.cpp:62-85 | a master that accepts such a datagram sees exactly that answer |
| `RaidSafety.CallbacksWaitAtTarget` | concrete/src/MinionProxy.cpp:22-26 | in every run a pending callback waits at the minion its send went to |
| `RaidSafety.CallbackFiresOnce` | concrete/src/MinionProxy.cpp:85-97 | in every run, for every request, a callback fires at most once, however often answers are duplicated |
| `RaidSafety.CallbackGetsOwnAnswer` | concrete/src/MinionProxy.cpp:85-97 | a callback only gets an answer that its minion gave to a message of its own request |
| `RaidSafety.OneSegment` | concrete/src/StripeSplitter.cpp:25-43 | a request inside one chunk is one segment on the minion of its chunk and the next one |
| `RaidReplies.TicketsKnown` | concrete/src/Ticket.cpp:39-48 | what a one-segment ticket has recorded for a mirror is an answer that this mirror gave to this request |
| `RaidReplies.WriteReplySafe` | concrete/src/MinionCommands.cpp:47-52 | in every run a write reply without error is sent only after both the primary and the backup have stored exactly those bytes at that local offset |
| `RaidReplies.ReadReplySafe` | concrete/src/MinionCommands.cpp:20-26 | in every run a read reply without error carries bytes the primary or the backup held between the request and the reply |
| `RaidTickets.TicketIsHeard` | concrete/src/Ticket.cpp:27-51 | in every run a ticket is exactly what a new ticket becomes by the answers its fired callbacks passed on, in their order |
| `RaidTickets.HeardDistinct` | concrete/src/MinionProxy.cpp:85-97 | in every run a ticket is told at most once about each mirror of each segment |
| `RaidTickets.AnsweredExactly` | concrete/src/Ticket.cpp:53-66 | in every run a request has been answered if and only if it was accepted, is not empty, and the answers its callbacks got settle every segment |
| `RaidTickets.AnsweredInRange` | concrete/src/MinionManager.cpp:77-84 | in every run only requests that are in range and not empty are answered |
| `RaidTickets.WriteAnsweredExactly` | concrete/src/Ticket.cpp:55-58 | in every run a write has been answered if and only if it was accepted, is not empty, and all its callbacks have fired |
| `RaidTickets.WriteReplyVerdict` | concrete/src/Ticket.cpp:70-74 | in every run a write's reply is without error if and only if every callback got an OK answer |
| `RaidTickets.ReadReplyVerdict` | concrete/src/Ticket.cpp:60-65 | in every run a read's reply is without error if and only if every segment had an OK answer by the time it was settled; that is "every segment has an OK mirror" except exactly when an OK primary came after its failed backup had settled the read |
| `WideCallbacks.NextPrimaryIsBackup` | concrete/src/StripeSplitter.cpp:12-15 | in range, the backup of a segment is the primary of the next |
| `WideCallbacks.CollidingSends` | concrete/src/MinionManager.cpp:86-100 | two sends of an accepted request go to the same minion if and only if they are a backup and the next primary, or the first and the last of a request that touches every chunk; one minion included |
| `WideCallbacks.SendOvertakes` | concrete/src/MinionProxy.cpp:42-46 | a send takes the callback of an earlier one out of its proxy if and only if they go to the same minion |
| `WideCallbacks.CallbackFate` | concrete/src/MinionProxy.cpp:85-97 | in every run the callback of a send waits nowhere if and only if it has fired or a later send of the request went to the same minion; so it is lost exactly if that came before it fired |
| `WideCallbacks.FiresInTime` | concrete/src/MinionProxy.cpp:85-97 | in every run a callback fires only before a colliding send of its request is made |
| `WideCallbacks.LostForGood` | concrete/src/MinionProxy.cpp:85-97 | in every run a lost callback never fires |
| `WideCallbacks.LostWriteIsNeverAnswered` | concrete/src/Ticket.cpp:55-58 | in every run a write of which a callback is lost is never answered |
| `WideCallbacks.WideWriteNeedsEarlyAnswers` | concrete/src/MinionProxy.cpp:42-46 | in every run a write is answered at all only if for every two of its sends that go to the same minion the answer to the first came back before the second was made |
| `RaidProgress.SentIsInNetwork` | concrete/src/MinionProxy.cpp:42-46 | in every run the datagram of every send made is in the network |
| `RaidProgress.AnswerReaches` | concrete/src/MinionProxy.cpp:85-97 | a minion can serve any send made, and whichever callback of the request waits there gets the answer |
| `RaidProgress.WriteCanBeAnsweredExactly` | concrete/src/MinionManager.cpp:115-132 | once all messages of a write are out, some continuation answers it if and only if every callback that a later send collided with has fired |
| `RaidProgress.ReadCanBeAnsweredExactly` | concrete/src/MinionManager.cpp:86-100 | once all messages of a read are out, some continuation answers it if and only if each segment is settled or has a callback that neither fired nor was replaced |
| `RaidExamples.UnansweredWrite` | concrete/src/MinionProxy.cpp:42-46 | for every write of two or more segments, and every write on one minion, a run after which no continuation answers it |
| `RaidExamples.UnansweredRead` | concrete/src/Ticket.cpp:60-65 | for every read of two or more segments, a run with all its messages out after which no continuation answers it |
| `RaidExamples.AlwaysAnswerableExactly` | concrete/src/MinionManager.cpp:86-132 | once all its messages are out a request can be answered whatever happened before, if and only if it is one segment and, for a write, there are two or more minions |
| `WideReplies.WideWriteReplySafe` | concrete/src/MinionCommands.cpp:47-52 | in every run, if every callback of a write got the answer to its own message, or to one to the same place with the same bytes, its reply without error is sent only after every primary and backup has stored exactly its slice, for any number of segments |
| `WideReplies.WideReadReplySafe` | concrete/src/Ticket.cpp:114-127 | in every run, if every callback of a read got the answer to its own message, or to one that read no less from the same place, its reply without error carries for each segment bytes that its primary or backup held when it served that request |
| `WideTruth.AnswerIsOwnOrColliding` | concrete/src/MinionProxy.cpp:85-97 | in every run a callback only gets the answer to its own message or to an earlier one that collides with it |
| `WrongWrites.WrongWrite` | concrete/src/MinionProxy.cpp:85-97 | for every write with two neighbouring slices that some cell tells apart, a run that answers it without error although the later primary never stored its slice |
| `WrongWrites.WriteIsTruthfulExactly` | concrete/src/MinionManager.cpp:115-132 | in every run a reply without error to a write means that both mirrors of every segment have stored exactly its slice, if and only if the write is one segment, or fills whole chunks each with the bytes of the one before |
| `WrongWrites.WritesAreTruthfulExactly` | concrete/src/MinionManager.cpp:115-132 | so it does for all buffers at a given offset and length if and only if they are one segment |
| `WrongReads.WrongRead` | concrete/src/MinionProxy.cpp:85-97 | for every read of two or more segments that starts inside a chunk, a run that answers it without error with a byte 7 for the start of its second segment, where every file holds zero in every state |
| `WrongReads.ReadIsTruthfulExactly` | concrete/src/Ticket.cpp:114-127 | in every run a reply without error to a read carries for each segment bytes that one of its mirrors held between the request and the reply, if and only if the read is one segment or starts at a chunk boundary |
| `WrongReads.ShortAnswersExactly` | concrete/src/Ticket.cpp:118-126 | some run records for a segment of a read an OK answer with fewer bytes than the segment, and some run answers the read without error from one, if and only if it has two or more segments and the first is shorter than the second |
| `WrongReads.OnThreeMinions` | concrete/src/Ticket.cpp:118-126 | on three minions of two bytes every write and every read of addresses 1 and 2 can be answered without error and in vain, and a read of addresses 1 to 3 from an answer one byte short |
| `WideReplies.FailsOverInTime` | concrete/src/Ticket.cpp:87-90 | in every run a read is settled by the backup of a segment other than the last only if that answer came back before the next primary's message was sent |
| `WideReplies.ReplyTakesPrimaryFirst` | concrete/src/Ticket.cpp:77-127 | in every run a read reply without error carries, for each segment, the answer that its primary's callback got OK before the reply was sent, and only without such one the answer of its backup's |
| `LocalWrites.CellIsLastHit` | concrete/src/FileManager.cpp:41-50 | a cell holds the byte of the last write that hits it |
| `LocalWrites.AgreeingWritesCommute` | concrete/src/FileManager.cpp:41-50 | writes that agree where they overlap give the same files in any order |
| `LocalWrites.OwnOrderDecides` | concrete/src/FileManager.cpp:41-50 | only the order in which each minion applies its own writes matters |
| `WideRequests.WritesOfSends` | concrete/src/MinionManager.cpp:115-132 | the local writes of a request are what its messages make a minion do, whatever the trailing byte |
| `WideRequests.WriteHits` | concrete/src/MinionManager.cpp:117-130 | a send writes a cell exactly when it goes to that minion and the range contains that byte of its chunk, and writes the byte that belongs there |
| `WideRequests.LaterSends` | concrete/src/MinionManager.cpp:115-132 | which later sends of a request can hit the mirrors of an earlier chunk |
| `WideRequests.PrimaryReadback` | concrete/src/MinionManager.cpp:115-132 | the exact byte that the primary of each byte holds after one request of any length |
| `WideRequests.BackupReadback` | concrete/src/MinionManager.cpp:115-132 | the same for the backups |
| `WideRequests.ReadbackExact` | concrete/src/MinionManager.cpp:115-132 | every buffer reads back from the primaries if and only if it is at most `n - 1` chunks long, and from the backups if and only if at most one chunk |
| `WideRequests.SendOrderReadback` | concrete/src/MinionManager.cpp:115-132 | within those bounds it reads back whenever each minion applies its own writes in the order sent |
| `WideRequests.ShortRequestsCommute` | concrete/src/MinionManager.cpp:115-132 | the writes of a request of at most one chunk give the same files in any order, and both mirrors read back the buffer |
| `WideRequests.LongRequestsDoNot` | concrete/src/MinionManager.cpp:115-132 | beyond one chunk some buffer and some order give different files |
| `MirrorStore.OneChunkWrites` | concrete/src/MinionManager.cpp:115-132 | a request inside one chunk is exactly two local writes, to its primary and its backup |
| `MirrorStore.WriteToCell` | concrete/src/StripeSplitter.cpp:7-15 | a write changes a cell exactly when it covers one of the cell's two logical addresses |
| `MirrorStore.SerialStoresLatest` | concrete/src/MinionManager.cpp:103-133 | after requests run one at a time a cell holds the latest byte written to either of its two addresses, or zero |
| `MirrorStore.NonAdjacentIsDisk` | concrete/src/MinionManager.cpp:103-133 | if no two written chunks are cyclic neighbours, reading a written chunk through either mirror equals a plain disk |
| `MirrorStore.CellIsDiskExactly` | concrete/src/StripeSplitter.cpp:12-15 | after requests of given extents run one at a time, the primary cell and the backup cell of an address hold what a plain disk holds there, whatever the data, if and only if the last write to either address of the cell went to this one, or there was none |
| `MirrorStore.NeighboursCollide` | concrete/src/StripeSplitter.cpp:12-15 | two writes after which the backup of address 0 reads the byte of address 1 |
| `RaidStores.StoresAreReplays` | concrete/src/FileManager.cpp:41-50 | in every run the files are the replay of the writes served |
| `RaidStores.EffectsAreSends` | concrete/src/MinionCommands.cpp:37-61 | whatever a minion writes is at the place of a send to it, and is that send's slice if written well |
| `RaidStores.SerialRunStores` | concrete/src/MinionManager.cpp:103-133 | if the writes served in a run are those of a list of one-chunk requests, each done on both mirrors before the next, a cell holds the latest byte of the list at either address |
| `SerialRuns.OneDatagram` | concrete/src/MinionProxy.cpp:34-49 | in every run a minion gets one datagram of a request inside one chunk |
| `SerialRuns.EffectIsMirror` | concrete/src/MinionCommands.cpp:37-61 | if the kernel writes one chunk at a time and reads no error, and no write datagram is served twice, whatever a minion writes is the whole of one such write, at its place |
| `SerialRuns.KernelWritesAreSerial` | concrete/src/MinionManager.cpp:103-133 | under the same conditions each mirror serves each of the kernel's writes exactly once and before the next is read |
| `SerialRuns.KernelRunStores` | concrete/src/MinionManager.cpp:103-133 | under the same conditions a cell holds the latest byte the kernel wrote to either of its two addresses, or zero |
| `ReplyStream.NetworkRoundTrip` | concrete/src/NBDProxy.cpp:80-81 | a number in network byte order is read back |
| `ReplyStream.ReplyRoundTrip` | concrete/src/NBDProxy.cpp:98-124 | a reply followed by anything parses as that reply and consumes exactly its bytes |
| `ReplyStream.SessionKeeps` | concrete/src/NBDProxy.cpp:98-124 | every step of drive and kernel keeps the outstanding handles in agreement with the replies not yet read |
| `ReplyStream.StreamParses` | concrete/src/NBDProxy.cpp:98-124 | in every session the bytes parse into exactly the replies sent, in order; what is not consumed starts with the next reply or is empty |
| `ThreadPool.OrderIsStrictWeak` | framework/src/thread_pool.cpp:76-80 | the comparison is a strict weak order, with ties only for equal priority and time |
| `ThreadPool.TopExists` | framework/include/waitable_queue.hpp:130-137 | a queue that is not empty has an element to pop |
| `ThreadPool.PopsHighestNewest` | framework/src/thread_pool.cpp:76-80 | an element is on top if and only if it has the highest priority and is the newest of that priority |
| `ThreadPool.GrownIs` | framework/src/thread_pool.cpp:39-57 | growing restarts the first ids handed back, as many as are needed, adds new ids only for the rest, and leaves every other worker alone |
| `ThreadPool.Controller.constructor` | framework/src/thread_pool.cpp:89-93 | the pool starts with the threads asked for, in the state the growth loops reach |
| `ThreadPool.Controller.AddTask` | framework/src/thread_pool.cpp:100-103 | the task is queued and nothing else changes |
| `ThreadPool.Controller.AddThreadsToPool` | framework/src/thread_pool.cpp:39-57 | the two loops use ids handed back first, in order, then new ones |
| `ThreadPool.Controller.RemoveThreadsFromPool` | framework/src/thread_pool.cpp:59-68 | one End task of priority 4 per thread is queued behind what was there |
| `ThreadPool.Controller.SetNumThreads` | framework/src/thread_pool.cpp:130-143 | grows by the difference, or queues an End task of priority 4 for each thread too many, and records the new number |
| `ThreadPool.Controller.Resume` | framework/src/thread_pool.cpp:123-128 | only the pause flag changes |
| `PoolConservation.StepKeeps` | framework/src/thread_pool.cpp:12-68 | every step of workers and controller keeps the balance of loops and End tasks, the ids, the priorities and the count of releases |
| `PoolConservation.LoopsBalance` | framework/src/thread_pool.cpp:39-68 | in every run, between controller calls, live worker loops = `m_total_threads` + End tasks queued or in hand |
| `PoolConservation.IdsPartition` | framework/src/thread_pool.cpp:39-57 | in every run the ids handed back are distinct and exactly the ids below `m_tid` whose loops are gone |
| `PoolConservation.GrowingAlone` | framework/src/thread_pool.cpp:39-57 | without interference the growth steps end where the two loops end |
| `PoolSize.TotalIsAsked` | framework/src/thread_pool.cpp:130-143 | in every run `m_total_threads` is what the last `SetNumThreads` that returned asked for, or the constructor; between calls there are as many worker loops, and one more for each End task in flight |
| `PoolSize.SetNumThreadsTakesEffect` | framework/src/thread_pool.cpp:130-143 | in every run, when `SetNumThreads(m)` returns, the total is `m` and there are `m` worker loops and one more for each End task in flight |
| `PoolSize.OnlySetNumThreadsResizes` | framework/src/thread_pool.cpp:130-143 | in every run, a step that changes the total is the return of a `SetNumThreads` of the new number |
| `PoolSize.ResizesAlone` | framework/src/thread_pool.cpp:39-68 | if no worker and no other thread steps in between, the steps of `SetNumThreads` end where the method of the class ends |
| `PoolTasks.TasksConserved` | framework/src/thread_pool.cpp:100-103 | in every run the tasks queued and those popped are exactly those pushed, each with its own kind, priority and time, 4 being the priority of the pool's own |
| `PoolTasks.PoppedAreRun` | framework/src/thread_pool.cpp:12-23 | in every run, for each kind, the tasks popped are those run and those in the hands of a worker |
| `PoolTasks.FirstLeftFirstRestarted` | framework/src/thread_pool.cpp:22-49 | in every run ids are started again in the order in which they were handed back |
| `PoolConservation.JoiningAdvances` | framework/src/thread_pool.cpp:95-98 | once the destructor of an unpaused pool waits, no caller's task starts and every worker step decreases a measure |
| `PoolConservation.JoiningCanStep` | framework/src/thread_pool.cpp:12-23 | until every worker is gone some worker can step |
| `PoolConservation.DestructionEnds` | framework/src/thread_pool.cpp:95-98 | in every run that measure bounds all further worker steps |
| `PoolPause.PauseBlocks` | framework/src/thread_pool.cpp:105-121 | when `Pause` returns, `m_total_threads` more distinct workers are blocked than when it was called |
| `PoolPause.PauseIsSafe` | framework/src/thread_pool.cpp:105-143 | from then until `Resume` or a growing `SetNumThreads` no LOW, MEDIUM or HIGH task starts, whatever is added, queued or shrunk, and the blocked workers stay blocked |
| `PoolPause.PauseCanStep` | framework/src/thread_pool.cpp:105-121 | if no worker was still blocked when it was called, `Pause` never waits with nothing able to step |
| `PoolPause.PauseEnds` | framework/src/thread_pool.cpp:105-121 | in every run, once `Pause` has pushed its tasks, a measure bounds all steps until it returns other than additions of tasks |
| `PoolPause.PausedExactly` | framework/src/thread_pool.cpp:105-128 | in every run the pool is paused if and only if `Pause` was called and `Resume` was not called since |
| `PoolPause.ResumeFrees` | framework/src/thread_pool.cpp:123-128 | in every run, after `Resume` and until the next `Pause`, no worker becomes blocked and every worker still blocked can go on at any time |
| `Scheduler.NeverStranded` | framework/src/scheduler.cpp:56-119 | in every run the counter is queued + in-flight; queued tasks imply an armed timer, a pending expiry or a running callback; an armed time is never later than any queued task |
| `Scheduler.TasksConserved` | framework/src/scheduler.cpp:56-99 | in every run the due times queued and those taken by callbacks are, as a multiset, exactly those that tasks were added with |
| `Scheduler.TakenAreRun` | framework/src/scheduler.cpp:86-119 | in every run the tasks taken are those running and those finished |
| `Scheduler.ExpiriesAreServed` | framework/src/scheduler.cpp:80-99 | in every run each expiry that is not merged with a pending one has one callback, which takes the lock once |
| `Scheduler.ArmsForEarliest` | framework/src/scheduler.cpp:65-78 | adding a task, and finishing one while others are queued, arms the timer for the earliest queued time |
| `Scheduler.WorkCanProceed` | framework/src/scheduler.cpp:86-119 | while a task is due or running the scheduler can step |
| `Scheduler.WorkAdvances` | framework/src/scheduler.cpp:86-119 | each of its own steps decreases a measure |
| `Scheduler.Drains` | framework/src/scheduler.cpp:86-119 | in every run without new tasks that measure bounds the scheduler's own steps |
| `Scheduler.EarlyExactly` | framework/src/scheduler.cpp:86-99 | in every state, of any number of pending callbacks that take the lock one after the other, one runs a task early if and only if they are more than the queued tasks that are due and not all queued tasks are due |
| `Scheduler.EarlyOnlyAfterArmingTwice` | framework/src/scheduler.cpp:65-78 | in every run a task is run before its time only after the timer was armed while an expiry was pending |
| `Scheduler.EarlyExample` | framework/src/scheduler.cpp:56-63 | a run in which a task runs before its time |
| `Scheduler.TimerQueue.AddTask` | framework/src/scheduler.cpp:56-63 | the queue holds what it held and the new due time, the counter grows, and the timer is armed for the earliest of them |
| `Scheduler.TimerQueue.StartTimer` | framework/src/scheduler.cpp:65-78 | the timer is armed for the earliest task |
| `Scheduler.TimerQueue.TakeTask` | framework/src/scheduler.cpp:90-99 | the earliest task is taken, if there is one, and the others stay |
| `Scheduler.TimerQueue.FinishTask` | framework/src/scheduler.cpp:109-118 | the counter goes down; if tasks are left the timer is armed again, for the earliest queued time |

## Left out

- Sockets, `select`, `fork`, `ioctl`, signals and the set-up of the NBD device: system calls. The network is a set of datagrams and the reply side a growing sequence of bytes.
- The parsing of the kernel's request header (magic, byte order, command codes; disconnect, flush and trim requests produce no request here): a request enters the model as handle, operation, offset, length and data.
- `m_serveraddr` and the origin of datagrams: one master and one socket per minion are assumed.
- Message types that no factory knows, and messages that a receiver's factory does not register, make the source throw; in the model they change nothing.
- What the source reads beyond the end of a malformed packet: the model drops a packet whose fields do not fit the bytes received. No run produces one.
- The byte behind the slice of a write request is one past the slice in the source; it is an arbitrary parameter here and no result depends on it.
- Growth of a backing file by a write past its end, partial reads at the end, and error bits that stay set on the stream: an operation out of range fails and changes nothing, and any other one may fail, after which its range is arbitrary. In-range requests never leave a file.
- Sizes for which a 64-bit address or a 32-bit message size wraps: assumed away for configurations and requests of the whole-path model; the wrap of the range check is stated by itself.
- What the source reads beyond the end of an OK answer that has fewer bytes than the segment it is taken for: the model copies what there is and leaves the rest of the buffer as it was. Which reads this can happen to is stated by `WrongReads.ShortAnswersExactly`.
- Liveness under loss of datagrams: the source has no timeout and no retry, so a request may stay unanswered.
- A second `Pause` without `Resume`, `Pause` racing a `Resume` whose workers have not woken, and destruction while paused: the source can wait forever there. Safety is proved for them, progress is not.
- Codec.FromBuffer: a packet whose inner length exceeds the bytes received is dropped; the source reads on past them.
- Ticket.Ticket.Reassemble: which answer a segment is copied from is stated by ReadAssembly.ReadTakesPrimaryFirst; an answer shorter than its segment is copied as far as it goes; the source copies the segment's length and so reads past the answer.
- Minion.FileManager.WriteToFile: a write past the end of the file fails and changes nothing; the source grows the file.
- MinionManager.MinionManager.AddTask: for a range that passes the check only by wrapping around, nothing is promised about what is sent; the source then indexes minions that do not exist.
- RaidProgress.WriteCanBeAnsweredExactly: for requests none of whose slices is over 8158 bytes, so that every message arrives; a larger slice never reaches its minion, see `Codec.PayloadLimits`.
- RaidProgress.ReadCanBeAnsweredExactly: for the same requests.
- RaidExamples.AlwaysAnswerableExactly: for the same requests.
- WrongWrites.WriteIsTruthfulExactly: for the same requests; that truthful writes are truthful needs no such bound.
- WrongWrites.WritesAreTruthfulExactly: as for WriteIsTruthfulExactly.
- WrongReads.ReadIsTruthfulExactly: as for WriteIsTruthfulExactly.
- WrongReads.ShortAnswersExactly: as for WriteIsTruthfulExactly.
- WideReplies.WideWriteReplySafe: one direction, and about runs; the exact condition on requests is WrongWrites.WriteIsTruthfulExactly.
- WideReplies.WideReadReplySafe: one direction, and about runs; the exact condition on requests is WrongReads.ReadIsTruthfulExactly.
- ThreadPool.Controller.constructor: as for AddThreadsToPool.
- ThreadPool.Controller.AddThreadsToPool: the class runs its loops without workers stepping in between; the interleaving is in the state machine of the same module.
- ThreadPool.Controller.SetNumThreads: as above.
- The blocking part of `Pause` and the worker loops as threads: only in the state machine, where each locked region is one step.
- The heap inside the priority queues, mutexes, condition variables and the memory model: a queue is a sequence from which a top element is taken, a locked region is atomic.
- Failure of the timer system calls and a clock that is set back.
- `AsyncInjection`, the reactor, dispatchers, factories, singletons, logging, plug-in loading and directory monitoring: plumbing. A dispatcher is a direct call of its one handler.
- Conversions to strings, plain getters and holders of arguments.
