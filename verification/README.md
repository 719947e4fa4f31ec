# Wallpaper changer: a verified model

The program keeps named collections of wallpapers, remembers their directories in a table of
checksums, and talks between a client and a service over checked, framed messages.  This project
models both halves in Dafny and proves what they are for.

**The wire.**  `bits.dfy`, `crc32.dfy` and `crc32_polynomial.dfy` take the table-driven CRC-32 down to
polynomial division over GF(2) (the checksum of section 8 of RFC 1952) and derive from that which
corruptions it detects.  `net_message.dfy` is the message as a stack of values with a sealed header.
`connection.dfy` is one end of a connection, one atomic step per completion handler (each side runs
its `io_context` on one thread); `delivery_steps.dfy` and `delivery.dfy` put two ends and the byte streams
between them under every interleaving and chunking; `delivery_progress.dfy` shows that every sequence of
messages can be delivered, `disconnects.dfy` how a connection ends, and `shared_queue.dfy` lets any number of
clients share the server's queue.  `connect_queue.dfy` is the queue as seen by one caller,
`queue_concurrency.dfy` its locking protocol, and `queue_waiting.dfy` what a caller can rely on in it.
`server_interface.dfy` holds the server's loops.

**The collections.**  `wall_cache.dfy`, `item_merge.dfy` and `cache_library.dfy` are the collections and
the library; `library_layout.dfy` says entry by entry what each operation does, `library_refinement.dfy`
relates the library to a map from names to item lists, and `library_runs.dfy` says what its runs keep.
`json_helper.dfy`, `persistence.dfy` and `path_table.dfy` cover the two files; `wall_manager.dfy` the commands
and `manager_commands.dfy` their whole effect; `sessions.dfy` and `session_runs.dfy` whole histories of
commands, file writes, crashes between the writes, and restarts; `storing.dfy` says when a store is defined.

Objects that the program updates in place are classes; each method is proved to do what a function
on the object's value does, and the properties are proved about those functions.  Machine words are
integers with their width in the type; `^` is spelt out digit by digit (`Bits.XorNat`).

## Where the code does something unexpected

Each of these is modelled as the code has it, with a lemma for exactly when it matters and, where a
run is needed to see it, a run.

- A message without a body is delivered with the body of the last message that had one, because the
  receive buffer is not cleared: exactly when in `Delivery.DeliveredUnalteredIff`, a run in
  `DeliveryProgress.StaleBodyArrives`.
- After one `>>` the hash is that of the longer body, so a second `>>` does nothing unless the two
  checksums collide (`NetMessage.SecondPop`, `NetMessage.SecondPopRarelyWorks`).
- `remove` and `merge_cache` leave the cursor where it was: exactly when it then disagrees with the active
  name in `LibraryRuns.OperationKeepsCursorIff`, a run in `SessionRuns.CursorParts`; exactly when it is out
  of range in `Storing.OperationKeepsRangeIff`.
- `merge_cache` does not drop duplicates; `next_wall` and `mark_favorate` can make one; loading collapses
  them (`ItemMerge.MergeDistinctIff`, `SessionRuns.CommandKeepsDistinctIff`, `Persistence.ItemsRestoredIff`);
  a run in `SessionRuns.TwinArises`.
- The saved active name is the one under the cursor, not `m_active_name` (`Persistence.ActiveRestoredIff`).
- `serialize` reads the collection under the cursor and what a search for a modified one finds, though
  neither need be there.  Two runs end in such states: a fresh empty collection, and the removal of the
  last collection under the cursor (`Storing.StoreUndefinedForFreshCollection`,
  `Storing.StoreUndefinedPastTheEnd`); for each event and for whole runs `Storing.StoreDefined` and the
  lemmas before it say exactly when a store stays defined.
- A key of the path table that was not written is forgotten by a restart; one that was written keeps its
  path for ever (`Sessions.PathsKept`, `Sessions.StoredPathsKept`; a run in `Sessions.UnwrittenKeyForgotten`).
- An empty library is not written, so the file keeps what it had (`Sessions.StoreThenRestart`).
- Inserting under a taken name reports that the collection does not exist; a failed item removal and
  `validate_collection` set a modified flag (`LibraryRefinement.FailureChangesNothing`).

## Model

| member | source | states |
|---|---|---|
| Crc32.GenerateCrcTable | src/change_lib/crc32.hpp:5-27 | Every table entry is below 2^32 and is the register after eight shifts of its index. |
| Crc32.StepBits | src/change_lib/crc32.hpp:11-14 | One turn of the integer loop is one shift of the linear feedback register over GF(2). |
| Crc32.StepsLinear | src/change_lib/crc32.hpp:11-14 | Shifting distributes over exclusive or, for any number of shifts. |
| Crc32.FeedIsSteps | src/change_lib/crc32.hpp:37-38 | Up to 32 message bits may be added to the register at once instead of one per shift. |
| Crc32.TableStep | src/change_lib/crc32.hpp:37-38 | One table lookup does what feeding the eight bits of a byte does, and the accumulator stays below 2^32. |
| Crc32.ComputeCrc | src/change_lib/crc32.hpp:29-40 | For every byte sequence the table-driven fold returns the bit-at-a-time CRC-32, below 2^32. |
| Crc32Polynomial.RegisterDivides | src/change_lib/crc32.hpp:29-40 | For any start value and message the register is the remainder of a division by the generator, with a quotient. |
| Crc32Polynomial.RemainderUnique | src/change_lib/crc32.hpp:29-40 | Any quotient and remainder of that division have the register as remainder. |
| Crc32Polynomial.FeedIsRemainder | src/change_lib/crc32.hpp:29-40 | Being a remainder of the division and being the register are the same thing, for any start value. |
| Crc32Polynomial.CrcIsPolynomialRemainder | src/change_lib/crc32.hpp:29-40 | The checksum is the complement of the remainder of message times x^32 with an all-ones start, and of nothing else. |
| Crc32Polynomial.GeneratorTerms | src/change_lib/crc32.hpp:6-6 | The generator has the terms of CRC-32: 32, 26, 23, 22, 16, 12, 11, 10, 8, 7, 5, 4, 2, 1 and 0. |
| Crc32Polynomial.FeedLinear | src/change_lib/crc32.hpp:33-39 | The fold is linear in start value and message together. |
| Crc32Polynomial.CrcAffine | src/change_lib/crc32.hpp:23-39 | crc(a xor b xor c) = crc(a) xor crc(b) xor crc(c) for equally long messages. |
| Crc32Polynomial.UndetectedIffDivisible | src/change_lib/crc32.hpp:29-40 | Two equally long messages have one checksum exactly when the generator divides their difference. |
| Crc32Polynomial.StepInjective | src/change_lib/crc32.hpp:11-14 | A shift never sends two registers to one. |
| Crc32Polynomial.ShortInputInjective | src/change_lib/crc32.hpp:29-40 | Different bit strings of at most 32 bits lead any register to different registers. |
| Crc32Polynomial.BurstDetected | src/change_lib/crc32.hpp:29-40 | Messages of any length that differ only within 32 consecutive bits have different checksums. |
| Crc32Polynomial.BurstOf33Missed | src/change_lib/crc32.hpp:29-40 | The limit is exact: one burst of 33 bits is missed at every byte of every message. |
| NetMessage.Message.Finalize | src/change_lib/net/net_message.hpp:17-22 | Seals the header: hash and 32-bit size of the body, id and body kept. |
| NetMessage.Message.Validate | src/change_lib/net/net_message.hpp:24-27 | True exactly when the body's checksum is the header's hash. |
| NetMessage.Message.Push | src/change_lib/net/net_message.hpp:30-45 | Appends the value's bytes and seals. |
| NetMessage.Message.Pop | src/change_lib/net/net_message.hpp:48-64 | On a valid message splits the body into the rest and the bytes read; on an invalid one changes nothing. |
| NetMessage.InvalidPop | src/change_lib/net/net_message.hpp:53-64 | A pop of an invalid message changes neither the message nor the variable. |
| NetMessage.ValidPop | src/change_lib/net/net_message.hpp:53-61 | A pop of a valid message takes the last bytes into the variable and sets the size of the rest; id and hash stay. |
| NetMessage.PushesSeal | src/change_lib/net/net_message.hpp:30-45 | After any pushes the header fits the body, which is all pushed values in order. |
| NetMessage.PopUndoesPush | src/change_lib/net/net_message.hpp:48-64 | One pop of matching width returns the last value and restores the body, while the hash stays the old one. |
| NetMessage.SecondPop | src/change_lib/net/net_message.hpp:53-61 | A second pop takes effect exactly when the shorter body has the same checksum as the longer one. |
| NetMessage.SecondPopRarelyWorks | src/change_lib/net/net_message.hpp:53-61 | Of any two different last values of at most four bytes, at least one makes the second pop do nothing. |
| NetMessage.AlteredBodyRejected | src/change_lib/net/net_message.hpp:24-27 | A sealed message altered within 32 consecutive bits of its body does not validate. |
| NetMessage.AlteredBodyAccepted | src/change_lib/net/net_message.hpp:24-27 | An alteration of the same length validates exactly when the generator divides the difference. |
| NetMessage.HeaderRoundTrip | src/change_lib/net/net_message.hpp:6-10 | The 12 header bytes decode to the header they encode. |
| NetMessage.HeaderOnTheWire | src/change_lib/net/net_message.hpp:6-10 | A header is sent as the bits of its id, its size and its hash, in this order, each least significant first. |
| ConnectQueues.ConnectQueue.PushBack | src/change_lib/net/connect_queue.hpp:46-51 | Appends the item at the end. |
| ConnectQueues.ConnectQueue.PushFront | src/change_lib/net/connect_queue.hpp:39-44 | Puts the item in front. |
| ConnectQueues.ConnectQueue.PopFront | src/change_lib/net/connect_queue.hpp:25-30 | Takes the first item; what it returns followed by what is left is the old queue. |
| ConnectQueues.ConnectQueue.PopBack | src/change_lib/net/connect_queue.hpp:32-37 | Takes the last item; what is left followed by it is the old queue. |
| ConnectQueues.ConnectQueue.Empty | src/change_lib/net/connect_queue.hpp:53-56 | True exactly when the queue is empty. |
| QueueConcurrency.RunKeepsInv | src/change_lib/net/connect_queue.hpp:25-73 | In every run of any number of producers and one consumer, mutex owners match program counters and `pop_front` never meets an empty queue. |
| QueueConcurrency.PoppedIsPrefix | src/change_lib/net/connect_queue.hpp:25-51 | What was popped, followed by the queue, is what was pushed, in order. |
| QueueConcurrency.LockOrder | src/change_lib/net/connect_queue.hpp:46-73 | A thread that has the blocking mutex never asks for the queue mutex and is never blocked. |
| QueueConcurrency.NoMutexDeadlock | src/change_lib/net/connect_queue.hpp:46-73 | Whenever a thread is blocked, another thread that holds one of the mutexes can go on. |
| QueueConcurrency.MutualExclusion | src/change_lib/net/connect_queue.hpp:46-73 | Each mutex has at most one holder in every reachable state. |
| QueueWaiting.PushesOnce | src/change_lib/net/connect_queue.hpp:46-51 | A push puts its item at the end once, when its thread holds the queue, and nothing else puts any there. |
| QueueWaiting.PushesTheItemCalled | src/change_lib/net/connect_queue.hpp:46-51 | The item a thread is about to push is the one it asked for the queue with. |
| QueueWaiting.ItemFromCall | src/change_lib/net/connect_queue.hpp:46-51 | A thread asks for the queue with the item of its call of `push_back`. |
| QueueWaiting.WaitBegins | src/change_lib/net/connect_queue.hpp:68-73 | A call of `wait` does not return at once, and only a call begins one. |
| QueueWaiting.WaitReturns | src/change_lib/net/connect_queue.hpp:68-73 | Whenever `wait` returns the queue has an item. |
| QueueWaiting.WaitTests | src/change_lib/net/connect_queue.hpp:69-69 | The test of `wait` ends it exactly if it finds an item, and goes on to sleep exactly if it finds none. |
| QueueWaiting.SleepsAfterEmpty | src/change_lib/net/connect_queue.hpp:68-73 | A consumer that sleeps, or is about to, has seen the queue empty in its last test. |
| QueueWaiting.NotifyWakes | src/change_lib/net/connect_queue.hpp:49-50 | A notification leaves no sleeping consumer, and only it or a spurious wake-up wakes one. |
| QueueWaiting.ReturnsAfterNotify | src/change_lib/net/connect_queue.hpp:46-51 | No call of `push_back` returns without having pushed and then notified. |
| QueueWaiting.ItemStays | src/change_lib/net/connect_queue.hpp:25-73 | An item in the queue stays at the front until the next pop. |
| QueueWaiting.UpdateTests | src/change_lib/net/server_interface.hpp:122-123 | The test of `update` is followed by a pop exactly if it finds an item. |
| QueueWaiting.UpdateBegins | src/change_lib/net/server_interface.hpp:122-122 | `update` begins with its test. |
| QueueWaiting.PopsTheFront | src/change_lib/net/connect_queue.hpp:25-30 | A consumer on the way to a pop stays on it until it takes exactly the front item. |
| QueueWaiting.PopsAfterItem | src/change_lib/net/server_interface.hpp:122-123 | A consumer on the way to a pop has seen an item in its last test. |
| QueueWaiting.PopsOnlyThen | src/change_lib/net/connect_queue.hpp:25-30 | Nothing else pops. |
| Connections.Connection.ConnectToClient | src/change_lib/net/connection.hpp:31-40 | Only a server end with an open socket becomes connected, takes the id and starts reading headers. |
| Connections.Connection.OnConnectToServer | src/change_lib/net/connection.hpp:47-58 | Success connects and starts reading; failure leaves the end not connected. |
| Connections.Connection.Disconnect | src/change_lib/net/connection.hpp:62-67 | Clears the connected flag and posts the close, only when connected. |
| Connections.Connection.SendMessage | src/change_lib/net/connection.hpp:69-79 | Posts the message when connected and drops it otherwise. |
| Connections.Connection.RunTask | src/change_lib/net/connection.hpp:71-77 | A posted send queues its message and starts a write exactly when the queue was empty. |
| Connections.Connection.OnRead | src/change_lib/net/connection.hpp:82-115 | A header starts a body or delivers at once; a body delivers; an error disconnects; what is delivered is the receive buffer. |
| Connections.Connection.OnWrite | src/change_lib/net/connection.hpp:117-158 | A header is followed by its body if there is one; a finished message leaves the queue and the next one starts. |
| Connections.Connection.TransferOut | src/change_lib/net/connection.hpp:117-144 | Of an outstanding write, the next bytes of the front's header or body go out, and nothing else changes. |
| Connections.Connection.TransferIn | src/change_lib/net/connection.hpp:82-104 | The next bytes of an outstanding read go to the header or straight into the receive buffer's body. |
| DeliverySteps.WriterStep | src/change_lib/net/connection.hpp:69-158 | Every event at an end keeps the relation of posted handlers, queue, outstanding write and emitted bytes. |
| Delivery.RunKeepsInv | src/change_lib/net/connection.hpp:69-167 | That relation, and that of reader and byte stream, hold at both ends in every reachable state. |
| Delivery.WriterDiscipline | src/change_lib/net/connection.hpp:117-158 | Without an error a write is outstanding exactly when the queue is non-empty, and the bytes emitted are the completed messages and the written part of the front, nothing else. |
| Delivery.EndToEndDelivery | src/change_lib/net/connection.hpp:69-167 | Under every interleaving, chunking and failure each end has received the first messages the other end posted, in order and once: each with its header, the very message if it has a body and else with the body before; unaltered exactly when no empty body follows a body. |
| Delivery.DeliveredAt | src/change_lib/net/connection.hpp:87-92 | What is delivered for one message is that message, but for an empty body replaced by the last one before it. |
| Delivery.DeliveredUnalteredIff | src/change_lib/net/connection.hpp:87-92 | The receiver's messages equal the sender's exactly when no message without a body follows one with a body. |
| Delivery.DrainedMeansDelivered | src/change_lib/net/connection.hpp:69-167 | In either direction, once an end has nothing left to run, write or have read, all it posted has been received. |
| Delivery.ReceivedValidate | src/change_lib/net/net_message.hpp:24-27 | In either direction, a sealed message validates at the receiver exactly when it has a body or the stale body shown has the checksum of the empty one. |
| Disconnects.LiveIff | src/change_lib/net/connection.hpp:26-28 | At every point of a run an end is live exactly when it is open and no close is posted; one that is not, and has run all that was posted, is closed. |
| Disconnects.ClosesAlways | src/change_lib/net/connection.hpp:62-67 | No close is posted while connected; then it is posted once, last, and nothing after it. |
| Disconnects.DownAtOnce | src/change_lib/net/connection.hpp:62-67 | A disconnect, a failed read or a failed write takes an end down at once and posts the close of a live one. |
| Disconnects.DownForEver | src/change_lib/net/connection.hpp:62-79 | An end that is down stays so, accepts nothing, and only runs what was posted, in order. |
| Disconnects.DownAfter | src/change_lib/net/connection.hpp:62-158 | After a disconnect or an error an end is never live again, accepts nothing more, and is closed once it has run what was posted. |
| Disconnects.ClosedForEver | src/change_lib/net/connection.hpp:65-65 | A closed end stays closed and moves no more bytes either way. |
| Disconnects.ClosedHasQueuedAll | src/change_lib/net/connection.hpp:65-77 | A closed end has put every message it accepted on its outbound queue. |
| Disconnects.SendsWhenLive | src/change_lib/net/connection.hpp:69-79 | A message is accepted and posted exactly by a live end; sending otherwise changes nothing. |
| Disconnects.FailedReadIsLast | src/change_lib/net/connection.hpp:93-113 | After a failed read an end never reads or receives again. |
| Disconnects.FailedWriteIsLast | src/change_lib/net/connection.hpp:131-156 | After a failed write an end never writes again. |
| DeliveryProgress.EverythingCanArrive | src/change_lib/net/connection.hpp:69-167 | For every sequence of messages there is a run in which all are posted and all are received. |
| DeliveryProgress.StaleBodyArrives | src/change_lib/net/connection.hpp:87-92 | There is a run in which a message sent without a body arrives with the body of the one before. |
| SharedQueue.HubRunKeepsInv | src/change_lib/net/connection.hpp:160-167 | With any number of clients, joining at any time, what is on the shared queue or handled from one connection is what that connection has received. |
| SharedQueue.HandledInOrder | src/change_lib/net/server_interface.hpp:115-127 | Of the messages the server handled, those of each client are the first ones it posted, in order and once, with the same header and, if it has one, body; no other message is handled. |
| ServerInterfaces.ServerInterface.MessageAllClient | src/change_lib/net/server_interface.hpp:93-113 | Posts the message to each connected client but the ignored one, to no other, reports the other entries in order as disconnected, and leaves the connected clients in their order. |
| ServerInterfaces.DueOnce | src/change_lib/net/server_interface.hpp:97-101 | In a list without repetitions that is exactly one copy for each such client. |
| ServerInterfaces.MarkedThenDropped | src/change_lib/net/server_interface.hpp:103-111 | Resetting entries in the loop and erasing the null ones afterwards keeps exactly the connected entries. |
| ServerInterfaces.KeptNext | src/change_lib/net/server_interface.hpp:108-112 | Which entries are kept goes entry by entry, in their order. |
| ServerInterfaces.LostIsKeptOtherwise | src/change_lib/net/server_interface.hpp:102-106 | The entries reported as disconnected are those that are not kept, in their order. |
| ServerInterfaces.ServerInterface.Update | src/change_lib/net/server_interface.hpp:115-127 | Handles messages in queue order, at most the given number, and stops earlier only at an empty queue; nothing is lost while other threads push; after a wait at least one is handled. |
| WallCache.CacheObject.Insert | src/change_lib/wall_cache.hpp:52-60 | Appends an unused item and sets the flag, only when the value is new. |
| WallCache.CacheObject.InsertElem | src/change_lib/wall_cache.hpp:62-68 | Appends only when the whole item is new. |
| WallCache.CacheObject.Erase | src/change_lib/wall_cache.hpp:75-78 | Drops the item at the position and sets the flag. |
| WallCache.InsertKeepsDistinct | src/change_lib/wall_cache.hpp:52-60 | `insert` keeps values and items distinct, adds this value and no other, and only appends. |
| WallCache.ElemInsertKeepsDistinct | src/change_lib/wall_cache.hpp:62-68 | `insert_elem` keeps items distinct and adds this item and no other. |
| WallCache.RemoveKeepsDistinct | src/change_lib/wall_cache.hpp:75-78 | Erasing keeps distinctness and takes away exactly one occurrence of one item. |
| WallCache.RemovedPositions | src/change_lib/wall_cache.hpp:75-78 | Erasing moves every later item one place forward and no other. |
| WallCache.InsertedItem | src/change_lib/wall_cache.hpp:52-60 | `insert` appends one unused item with the value and location, and sets the flag, exactly if no item has the value. |
| WallCache.InsertedElem | src/change_lib/wall_cache.hpp:62-68 | `insert_elem` appends the item, and sets the flag, exactly if the very item is not there. |
| WallCache.ItemTotal | src/change_lib/wall_cache.hpp:23-23 | The defaulted order of items is total, asymmetric and irreflexive. |
| WallCache.ItemTransitive | src/change_lib/wall_cache.hpp:23-23 | It is transitive. |
| WallCache.TextLessIff | src/change_lib/wall_cache.hpp:23-23 | A value is less exactly if at the first difference it ends or has the smaller byte. |
| WallCache.ItemLessIff | src/change_lib/wall_cache.hpp:7-23 | Items are ordered by value, then null, unused, used, favorate, then location. |
| ItemMerge.RangesMerge | src/change_lib/wall_cache_library.cpp:173-174 | The two-pointer loop fills the whole buffer with the merge of the lists, sorted or not. |
| ItemMerge.MergeInterleaves | src/change_lib/wall_cache_library.cpp:173-174 | Both inputs are order-preserving complementary subsequences of the merge. |
| ItemMerge.MergeKeepsItems | src/change_lib/wall_cache_library.cpp:173-174 | The merge has the multiset union of the items: nothing lost, added or collapsed. |
| ItemMerge.MergeSortedIff | src/change_lib/wall_cache_library.cpp:173-174 | The merge is sorted exactly when both inputs are. |
| ItemMerge.MergeStable | src/change_lib/wall_cache_library.cpp:173-174 | Of sorted inputs, an item of the second precedes one of the first only if it is strictly less. |
| ItemMerge.MergeInOrderIff | src/change_lib/wall_cache_library.cpp:173-174 | In terms of bytes, states and locations, the merge is in order exactly when both inputs are, and an item of the second list that comes earlier strictly precedes. |
| ItemMerge.MergeChoices | src/change_lib/wall_cache_library.cpp:173-174 | For any inputs each place of the merge has the front of the second list if that strictly precedes the front of the first or the first is used up, and else the front of the first. |
| ItemMerge.MergeDistinctIff | src/change_lib/wall_cache_library.cpp:173-174 | The merge repeats no item exactly when neither input does and they share none. |
| CacheLibrary.CacheLib.ExistsNamed | src/change_lib/wall_cache_library.cpp:134-142 | True exactly when the search by name finds a collection. |
| CacheLibrary.CacheLib.InsertCache | src/change_lib/wall_cache_library.cpp:41-49 | Appends a collection under a free name; otherwise fails and changes nothing. |
| CacheLibrary.CacheLib.SetActive | src/change_lib/wall_cache_library.cpp:69-80 | Sets the cursor to the 32-bit position of an existing collection and the active name to the name there. |
| CacheLibrary.CacheLib.RenameStore | src/change_lib/wall_cache_library.cpp:82-98 | Renames in place and follows with the active name; each failing case has its error. |
| CacheLibrary.CacheLib.RemoveCache | src/change_lib/wall_cache_library.cpp:100-109 | Drops the collection and leaves cursor and active name. |
| CacheLibrary.CacheLib.RemoveCacheItem | src/change_lib/wall_cache_library.cpp:111-130 | Drops the first item with the value; a search in vain still marks the collection. |
| CacheLibrary.CacheLib.MergeCache | src/change_lib/wall_cache_library.cpp:163-185 | Replaces both collections by their merge, appended under the first name. |
| CacheLibrary.CacheLib.MoveCacheItem | src/change_lib/wall_cache_library.cpp:187-209 | Takes the first item with the value out of the source and puts it into the destination unless it is there. |
| CacheLibrary.CacheLib.CacheList | src/change_lib/wall_cache_library.cpp:155-161 | Lists all names in order. |
| CacheLibrary.CacheLib.Modified | src/change_lib/wall_cache_library.cpp:146-153 | Where it is defined, it is true exactly for a non-empty library. |
| LibraryRefinement.OperationRefines | src/change_lib/wall_cache_library.cpp:41-209 | Each operation keeps names distinct and simulates, outcome included, the operation on a map from names to item lists. |
| LibraryRefinement.RunFromEmpty | src/change_lib/wall_cache_library.cpp:41-209 | Every run from the empty library keeps names distinct and computes what the map operations compute. |
| LibraryRefinement.MergeRefines | src/change_lib/wall_cache_library.cpp:163-185 | A merge is, on the map, dropping the second name and binding the first to the merged items. |
| LibraryRefinement.MoveRefines | src/change_lib/wall_cache_library.cpp:187-209 | A move is, on the map, one update of the source and one of the destination. |
| LibraryRefinement.FailureChangesNothing | src/change_lib/wall_cache_library.cpp:41-209 | A failed operation changes nothing but, when an item to remove is missing, the flag of its collection. |
| LibraryRefinement.MergeLayout | src/change_lib/wall_cache_library.cpp:170-181 | After a merge all other collections stand in their old order, followed by the merged one. |
| LibraryRefinement.MoveConserves | src/change_lib/wall_cache_library.cpp:187-209 | A move conserves the items of both collections, lowers the source by one, raises the destination by one unless the item was there, and touches no other. |
| LibraryLayout.InsertLayout | src/change_lib/wall_cache_library.cpp:41-49 | A taken name is refused; otherwise the collection goes to the end with its content and flag. |
| LibraryLayout.ChangeActiveLayout | src/change_lib/wall_cache_library.cpp:69-80 | Cursor and active name go to the first collection of the name, and nothing else changes. |
| LibraryLayout.RenameLayout | src/change_lib/wall_cache_library.cpp:82-98 | One collection changes its name in its place, the active name follows if it is that one, and each failure has its error. |
| LibraryLayout.RemoveLayout | src/change_lib/wall_cache_library.cpp:100-109 | The collection goes, the others keep their order, cursor and active name stay. |
| LibraryLayout.RemoveItemLayout | src/change_lib/wall_cache_library.cpp:111-130 | The first item with the value goes, the others keep their order, and only this collection changes; each failure has its error. |
| LibraryLayout.MoveOutcome | src/change_lib/wall_cache_library.cpp:187-209 | When a move is done, and which error it gives otherwise, changing nothing. |
| LibraryLayout.MoveLayout | src/change_lib/wall_cache_library.cpp:187-209 | The first item with the value leaves the source in order and goes to the end of the destination unless the very item is there; only these two change. |
| LibraryLayout.MergeOutcome | src/change_lib/wall_cache_library.cpp:163-185 | When a merge is done, and which error it gives otherwise, changing nothing. |
| LibraryRuns.OperationKeepsDistinctIff | src/change_lib/wall_cache_library.cpp:41-209 | Distinctness of items survives an operation exactly when it is not a merge of collections sharing an item or an insertion of a repetitive one. |
| LibraryRuns.DistinctAlongRun | src/change_lib/wall_cache_library.cpp:41-209 | It survives every run of such operations. |
| LibraryRuns.MergePositions | src/change_lib/wall_cache_library.cpp:163-185 | Where every collection stands after a merge, by position. |
| LibraryRuns.ChangeActiveAgrees | src/change_lib/wall_cache_library.cpp:69-80 | A successful choice brings cursor and active name into step, on the chosen name when its position has 32 bits. |
| LibraryRuns.OperationKeepsCursorIff | src/change_lib/wall_cache_library.cpp:69-185 | Cursor and active name stay in step exactly when a removal or merge is behind the cursor, or the merged collection lands under it. |
| LibraryRuns.CursorAlongRun | src/change_lib/wall_cache_library.cpp:69-209 | They stay in step along every run of such operations. |
| JsonHelper.WriteCache | src/change_lib/json_helper.hpp:39-50 | The loop gives null for an empty collection and otherwise the array of its items in order. |
| JsonHelper.ReadCache | src/change_lib/json_helper.hpp:52-60 | For any JSON value the loop throws exactly when something it visits is no item, and otherwise inserts each new one in order. |
| JsonHelper.CacheFromOther | src/change_lib/json_helper.hpp:52-60 | An object reads as the array of its values in key order; a string or number cannot be read as a collection. |
| JsonHelper.ItemReads | src/change_lib/json_helper.hpp:27-34 | Which JSON values read as an item, and as which. |
| JsonHelper.ArrayReads | src/change_lib/json_helper.hpp:52-60 | An array of items reads as each where it occurs first, and counts as modified even if empty. |
| JsonHelper.ArrayThrows | src/change_lib/json_helper.hpp:56-58 | An element that is no item makes the array unreadable. |
| JsonHelper.ElementsOf | src/change_lib/json_helper.hpp:56-56 | The loop visits the elements of an array, the values of an object in the order of its keys, and any other value itself. |
| JsonHelper.ItemRoundTrip | src/change_lib/json_helper.hpp:18-35 | Every item comes back from its JSON form. |
| JsonHelper.StateNames | src/change_lib/json_helper.hpp:6-13 | The three names of states, null for the fourth, and null for whatever is no name. |
| JsonHelper.ItemFields | src/change_lib/json_helper.hpp:20-25 | The fields of an item's object and what they hold. |
| JsonHelper.StoreFields | src/change_lib/json_helper.hpp:64-69 | The object of a collection has its name, the number of its items, and null or one element for each item in order. |
| JsonHelper.StoreReads | src/change_lib/json_helper.hpp:71-77 | What is read is the name and the collection of the object; null gives a nameless empty one. |
| JsonHelper.CacheRoundTrip | src/change_lib/json_helper.hpp:37-61 | A collection comes back with each item where it occurs first, marked as modified unless empty. |
| JsonHelper.StoreRoundTrip | src/change_lib/json_helper.hpp:63-78 | A named collection comes back under its name. |
| JsonHelper.StoresRoundTrip | src/change_lib/json_helper.hpp:63-78 | All named collections come back in order. |
| JsonHelper.FirstOccurrencesAll | src/change_lib/json_helper.hpp:56-58 | Collapsing repetitions keeps the set of items and leaves them distinct. |
| JsonHelper.FirstOccurrencesIdentityIff | src/change_lib/json_helper.hpp:56-58 | It is the identity exactly on lists without repetitions. |
| JsonHelper.FirstOccurrencesNext | src/change_lib/json_helper.hpp:56-58 | Each item stands where it occurs first. |
| Persistence.Serialize | src/change_lib/wall_cache_library.cpp:223-235 | Writes count, name under the cursor and collections; an empty library leaves the file alone. |
| Persistence.Load | src/change_lib/wall_cache_library.cpp:12-25 | Builds the library the file describes, or none exactly when reading throws. |
| Persistence.SavedFile | src/change_lib/wall_cache_library.cpp:223-235 | The file has the number of collections, the name under the cursor, and each collection described in order; an empty library leaves it alone. |
| Persistence.LoadedReads | src/change_lib/wall_cache_library.cpp:12-25 | A loaded library has the collections and the active name of the file, with the cursor on the first collection of that name or else at the start. |
| Persistence.SaveThenLoad | src/change_lib/wall_cache_library.cpp:223-249 | Loading what was saved gives the same collections in order, repetitions collapsed, the name under the cursor active. |
| Persistence.ItemsRestoredIff | src/change_lib/wall_cache_library.cpp:223-249 | Item lists come back unchanged exactly when no collection repeats an item. |
| Persistence.CursorRestoredIff | src/change_lib/wall_cache_library.cpp:15-22 | The cursor comes back exactly when no earlier collection has its name. |
| Persistence.ActiveRestoredIff | src/change_lib/wall_cache_library.cpp:227-246 | A loaded library has cursor and active name in step; the active name comes back exactly when they were in step before. |
| Persistence.RoundTripIdentityIff | src/change_lib/wall_cache_library.cpp:146-249 | Saving and loading a non-empty library is defined, and the identity, flags aside, exactly when some collection is modified and those three conditions hold. |
| PathTables.PathTableObject.Insert | src/change_lib/path_table.cpp:24-32 | Binds the path's checksum only when it is free, and sets the flag then. |
| PathTables.PathTableObject.Lookup | src/change_lib/path_table.cpp:34-42 | Returns the path of the first entry with the key, if any. |
| PathTables.PathTableObject.Store | src/change_lib/path_table.cpp:50-57 | Writes all entries, only when modified. |
| PathTables.InsertExtends | src/change_lib/path_table.cpp:24-32 | An insertion only appends, keeps keys distinct and equal to the checksums of their paths, and makes the key known. |
| PathTables.BoundForever | src/change_lib/path_table.cpp:24-48 | Along any insertions keys stay well formed and a bound key keeps its path. |
| PathTables.InsertTwice | src/change_lib/path_table.cpp:24-32 | A second insertion of a path changes nothing. |
| PathTables.LookupAfterInsert | src/change_lib/path_table.cpp:24-42 | The lookup gives a path of the same checksum, and the inserted one exactly when no other path with that checksum was there. |
| PathTables.TableRoundTrip | src/change_lib/path_table.cpp:8-22 | A modified table comes back from the file; an unmodified one leaves the file alone. |
| PathTables.TableFile | src/change_lib/path_table.cpp:8-57 | The file has an array of key and path for each entry in order; no file or a null reads as an empty table. |
| WallManager.CollectFiles | src/change_app/wall_manager.cpp:125-138 | The directory loop inserts each entry that is no directory. |
| WallManager.CollectedFiles | src/change_app/wall_manager.cpp:125-138 | The collection has each file name once, unused, with the directory's key, and nothing else. |
| WallManager.Manager.CreateCollection | src/change_app/wall_manager.cpp:116-152 | Scans an existing directory, records it in the path table, and inserts the collection under a free name. |
| WallManager.Manager.AddToCollection | src/change_app/wall_manager.cpp:154-170 | Adds the file to an existing collection and its directory to the table; otherwise changes neither. |
| WallManager.Manager.ForwardOp | src/change_app/wall_manager.cpp:188-255 | The forwarding commands do the library operation and report its success. |
| WallManager.DrawUnused | src/change_app/wall_manager.cpp:56-66 | The random search ends with the first draw that hits an unused item. |
| WallManager.Manager.ShowNext | src/change_app/wall_manager.cpp:42-77 | Marks the first unused item drawn from the active collection as used and appends it to the history with its directory. |
| WallManager.Manager.ShowPrevious | src/change_app/wall_manager.cpp:79-86 | Takes the last history entry back and returns it. |
| WallManager.Manager.MarkFavorateItem | src/change_app/wall_manager.cpp:26-40 | Marks the first item with the value shown last in the collection under the cursor. |
| WallManager.ShowThenMarkIff | src/change_app/wall_manager.cpp:26-77 | Marking right after showing marks the shown item, and nothing else, exactly when the cursor is on the active collection and no earlier item there has its value. |
| WallManager.Manager.ValidateCollection | src/change_app/wall_manager.cpp:257-282 | Lists in order the items whose file is missing, and only marks the collection. |
| WallManager.MissingExactly | src/change_app/wall_manager.cpp:265-273 | The list has every occurrence of each item whose file is missing in its known directory, and no other. |
| WallManager.Manager.Store | src/change_app/wall_manager.cpp:15-24 | Writes a non-empty history, then the path file, then the library file. |
| WallManager.StateKeepsDistinctIff | src/change_app/wall_manager.cpp:58-66 | Changing an item's state creates a repetition exactly when another item already is the same with that state. |
| ManagerCommands.AddExactly | src/change_app/wall_manager.cpp:154-170 | Adding succeeds exactly for an existing collection; it appends one unused item with the file name and the key of the directory unless the name is there, makes the directory known, and changes nothing else. |
| ManagerCommands.CreateExactly | src/change_app/wall_manager.cpp:116-152 | Creating succeeds exactly under a free name and appends the collection; an existing directory is recorded even when it fails. |
| ManagerCommands.CollectedNext | src/change_app/wall_manager.cpp:125-138 | The collection grows by each file of the listing in turn. |
| ManagerCommands.ForwardExactly | src/change_app/wall_manager.cpp:188-255 | A forwarded operation changes the library only and reports success exactly if it is done. |
| ManagerCommands.ValidateExactly | src/change_app/wall_manager.cpp:257-282 | Validation succeeds exactly for an existing collection and only marks it. |
| ManagerCommands.MissingNext | src/change_app/wall_manager.cpp:265-273 | The list grows, in order, by each item that is not in its known directory on disk. |
| ManagerCommands.ShowExactly | src/change_app/wall_manager.cpp:42-77 | Showing sets one item's state to used and appends it to the history, and changes nothing else. |
| ManagerCommands.BackExactly | src/change_app/wall_manager.cpp:79-86 | Going back takes the last entry off the history and changes nothing else. |
| ManagerCommands.MarkExactly | src/change_app/wall_manager.cpp:26-40 | Marking sets the state of the first item under the cursor with the value shown last, and changes nothing else. |
| ManagerCommands.HistoryFile | src/change_app/wall_manager.cpp:15-21 | The history file has one object for each entry in order with its four fields; an empty history leaves it alone. |
| Sessions.ShowThenBack | src/change_app/wall_manager.cpp:42-86 | The shown wallpaper becomes used, is reported with a directory that has its key, and going back restores the history but not the state. |
| Sessions.CommandOk | src/change_app/wall_manager.cpp:26-282 | Every command keeps names distinct, keys well formed and every item's directory in the table. |
| Sessions.EventOk | src/change_app/wall_manager.cpp:15-170 | So does every file write and restart, in memory and on disk. |
| Sessions.ReferentialIntegrity | src/change_app/wall_manager.cpp:15-24 | At every point of every run, also between the two writes, each item's directory is found, in memory and in the files. |
| Sessions.RestartAlwaysPossible | src/change_app/wall_manager.cpp:12-24 | At every such point both files load without an exception. |
| Sessions.EventKeepsPathIff | src/change_lib/path_table.cpp:8-48 | A bound key keeps its path through an event exactly when that is no restart or the key is in the path file. |
| Sessions.StoredKept | src/change_lib/path_table.cpp:8-57 | Over any run the path file only grows, and the table in memory extends it. |
| Sessions.StoredPathsKept | src/change_lib/path_table.cpp:8-57 | A key once written has the same path in all later states, in memory and on disk, through restarts and crashes. |
| Sessions.SavedItemsKeepDirectory | src/change_app/wall_manager.cpp:15-24 | Every item ever saved keeps one directory, whose checksum is its key, in all later states. |
| Sessions.PathsKept | src/change_lib/path_table.cpp:8-48 | Between any two states of a run a bound key keeps its path throughout exactly when at each restart in between it is in the path file. |
| Sessions.UnwrittenKeyForgotten | src/change_lib/path_table.cpp:8-32 | A run in which a key that was not written is bound before a restart and unknown after it. |
| Sessions.NamesAndKeys | src/change_app/wall_manager.cpp:116-170 | Along all runs names and keys stay distinct and keys are the checksums of their paths. |
| Sessions.StoreThenRestart | src/change_app/wall_manager.cpp:15-24 | After both writes a restart finds the same table and the saved library, or for an empty library what the file had before. |
| Storing.OperationKeepsRangeIff | src/change_lib/wall_cache_library.cpp:69-185 | An operation leaves the cursor in range exactly unless it drops a collection while the cursor is on the last. |
| Storing.SoundAlongRunIff | src/change_lib/wall_cache_library.cpp:225-227 | Up to any point of a run the cursor is in range, or ready for a first collection, exactly when no operation dropped a collection while it was on the last of several. |
| Storing.FindModifiedIff | src/change_lib/wall_cache_library.cpp:146-153 | The search for a modified collection ends past the last exactly when none is modified. |
| Storing.OperationKeepsStorableIff | src/change_lib/wall_cache_library.cpp:41-235 | The exact condition under which each library operation leaves the library fit to be stored. |
| Storing.CommandKeepsStorableIff | src/change_app/wall_manager.cpp:26-282 | The same for each command; a first collection must come from a directory with a file. |
| Storing.RestartStorableIff | src/change_lib/wall_cache_library.cpp:146-153 | Right after a restart storing is defined exactly when there is no collection or one with an item. |
| Storing.StoreDefined | src/change_lib/wall_cache_library.cpp:223-235 | Storing is defined at all points of a run exactly when every event meets its condition, and exactly when the library is always fit to be stored. |
| Storing.StorableAlongRun | src/change_lib/wall_cache_library.cpp:41-235 | The library stays fit to be stored along every run of operations that meet their conditions. |
| Storing.RunThenRoundTrip | src/change_lib/wall_cache_library.cpp:41-249 | A run from the empty library that keeps items distinct, the library fit to be stored and the cursor in step can be saved, and survives saving and loading without loss. |
| Storing.StoreUndefinedForFreshCollection | src/change_lib/wall_cache_library.cpp:146-153 | A run after which the search for a modified collection finds none and storing reads its end. |
| Storing.StoreUndefinedPastTheEnd | src/change_lib/wall_cache_library.cpp:223-227 | A run after which a modified collection is there but the cursor is past it, so storing reads out of range. |
| SessionRuns.StepKeepsCursor | src/change_app/wall_manager.cpp:15-255 | In any run an event keeps cursor and active name in step exactly when its condition holds; a restart needs a library file. |
| SessionRuns.CursorAcrossSessions | src/change_lib/wall_cache_library.cpp:69-249 | Once an active collection is chosen they stay in step through any commands, stores and restarts that meet the conditions. |
| SessionRuns.CursorParts | src/change_lib/wall_cache_library.cpp:100-109 | A run in which a removal leaves the cursor on another collection than the active one. |
| SessionRuns.CommandKeepsDistinctIff | src/change_app/wall_manager.cpp:26-282 | A command keeps all collections free of repetitions exactly when merges are disjoint and no state change makes a twin. |
| SessionRuns.DistinctAcrossSessions | src/change_app/wall_manager.cpp:15-282 | Over any sessions of such commands no collection repeats an item. |
| SessionRuns.TwinArises | src/change_app/wall_manager.cpp:58-66 | A run in which showing a wallpaper makes two items of a collection equal. |
| SessionRuns.LosslessRestart | src/change_app/wall_manager.cpp:15-24 | A run that keeps both, and whose events keep storing defined, can be saved and loaded at any point without losing collection, item, order, cursor or active name. |

## Left out

- Delivery.EndToEndDelivery: starts from an established connection, and senders pass messages whose header size is the body size, as sealed messages below 4 GiB have; with another size the receiver splits the stream differently.
- Delivery.DrainedMeansDelivered: does not claim that a connection drains; no fairness of the event loop or the network is modelled.
- SharedQueue.HandledInOrder: takes a push or pop of the shared queue as one step; the steps of its locks are those of the queue model.
- Sockets, resolver, acceptor, identifiers given to clients, threads, logging and the message time stamp, which is never sent; a posted handler runs in posting order, and an id is a 32-bit word on a little-endian machine.
- A header that an error cuts off is dropped, where the program leaves part of it in the receive buffer; it is overwritten by the next header and never delivered.
- QueueConcurrency.RunKeepsInv: covers safety only; `wait` tests for emptiness without the blocking mutex, so a notification can be missed.
- `message_client`: it resets the pointer before looking for it, so it does not remove the entry; only `message_all_client` is modelled.
- ServerInterfaces.ServerInterface.Update: takes what arrives during a `wait` as an argument and starts when it has returned; the blocking itself is part of the queue model.
- NetMessage.Message.Pop: requires a valid body to be as long as the value read; the program reads out of bounds otherwise.
- JSON text, CBOR, and UTF-8 checks of strings: files are JSON trees without booleans and fractions.
- `JsonHelper.StoreFromJson`: an absent `Store` key, which the program looks up unchecked, counts as unreadable.
- The file system: existence and listing of a directory are arguments, a directory iterator does not fail, each file write is atomic, and paths are strings; the history file, which is never read, is not part of a session's state.
- WallManager.Manager.ShowNext: takes the random draws as an argument and requires one to hit an unused item before any is out of range; the draw is from 1 to the size, so it never gives 0 and can be out of range, and the search has no bound when nothing is unused.
- WallManager.Manager.MarkFavorateItem: is defined only where the cursor is in range and the item is found, since the program dereferences the result of its search unchecked.
- `merge_cache` and `move_cache_item` pass the character pointer of a string view; names are taken to be NUL-terminated there.
- `src/change_service`, the command-line program, platform code, known folders and benchmarks.
