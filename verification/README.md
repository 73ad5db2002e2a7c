# A verified model of the change-stream store

The repository stores the change stream of MySQL servers. This project models the parts of it that
are data structures and protocols of its own, and proves what they are there for. Files and sockets
are byte sequences, threads are sequences of atomic steps.

| file | models |
|---|---|
| `MemChannel.dfy` | the byte pipe between two threads of `cluster/memChannel.h`, one shared access per step |
| `ChannelCalls.dfy` | what one call of send or recv achieves: short results, and that every call returns |
| `Bucket.dfy` | the transaction scheduler of `replicator/bucket.cpp`: key queues and biased blocking counters |
| `Ref.dfy` | the reference word `ref<T>` of `cluster/clusterLogFile.h` with its compare-and-exchange loops |
| `LogEntry.dfy` | the length in front of a log entry |
| `LogStream.dfy` | the cluster log file while one writer appends, one iterator reads and blocks are evicted and reloaded |
| `LogCalls.dfy` | what one call of append, flush or next achieves, placing the iterator, and the block cache |
| `LogIndex.dfy` | `findBlock`, `block::find` and `rollback` of the cluster log file |
| `KeyOrder.dfy` | the comparison of index keys, and the building of keys of several columns |
| `AppendingIndex.dfy` | the live index of a block: sorted keys with growing id arrays |
| `SolidIndex.dfy` | the writers that freeze an index into one byte image |
| `IndexReader.dfy` | decoding and searching a frozen image, and its agreement with the live index |
| `IndexSize.dfy` | the room reserved for an image against the bytes the writers store |
| `FrozenIndex.dfy` | freezing a live index and looking keys up in its image, end to end |
| `Row.dfy` | offset tables, setters and readers of DML rows |
| `RecordBlock.dfy` | pages, packed record addresses and the renumbering of `toSolidBlock` |
| `Trie.dfy` | the keyword trie of the SQL parser |
| `Buddy.dfy` | splitting and merging in the buddy allocator, and its level lists |
| `Binlog.dfy` | the binlog file writer and reader |
| `TableIdTree.dfy` | the tree of versioned table ids |
| `Bytes.dfy`, `Bits.dfy`, `Options.dfy`, `Runs.dfy` | little-endian words, memory, bits, missing values, induction along a run |

Where a property is false of the code, the code is modelled as it is, a lemma names inputs that break
the property, and the exact condition under which it holds is proved:

- `memChannel` breaks FIFO order when the producer links a new node between the two lines in which the
  consumer marks its node FREE and leaves it (`Disturbs`): a full node of sent bytes is left outside what
  the consumer reads up to m_head. Whatever the consumer does then, the producer's next step
  breaks the FIFO equation; a run keeps it all the way if and only if no producer step but the last
  disturbs (`FifoExactly`, reached by `DisturbanceIsReachable`).
- The head test of the scheduler compares records. A transaction that queues two records on one key waits
  for itself and is never scheduled; one record whose own keys share a queue is harmless if and only if it
  is first there, and then takes its own counter below 0. When no thread can step any more, all
  transactions are finished if and only if none waits for itself (`TwoRecordsOnOneQueue`,
  `RecordTwiceOnOneQueueRuns`, `ItDecrementsItself`).
- An object is deleted after `needFree` if and only if `needFree` did not meet a thread that was loading or
  closing it, or a failed load; a bit set at such a time is overwritten (`LostWhileClosing`,
  `LostWhileLoading`). A failed load leaves the word in IN_LOAD for good (`StuckAfterFailedLoad`).
- `findBlock` misses an index inside a block once its halving has tested that block, unless it is the last
  one; `rollback` then does nothing. `rollback` also does nothing for a target between two blocks, and
  drops the file head when no entry survives (`MissedIndex`).
- `unionKey::compare` is no order on 32-bit columns (`Narrow32IsNoOrder`); it is one as long as the
  differences in every 32-bit column fit an int, that is, as long as its values lie in one half of the number
  range (`DifferencesFit`).
- A fixed index image can exceed the room computed for it, by one word for each key with exactly 127 ids
  (`OverrunExample`).
- The offset table of a row type wraps around if and only if its fixed columns take 2^16 bytes or more
  (`OffsetsAreUsable`; `CrossingColumn` names the column whose field reaches the table of starts).
- `toSolidBlock` uses up its page numbers exactly when every registered table that has an index owns a page;
  a table whose first record is refused does not (`RefusedTableBreaksCount`).
- Inserting a keyword again that has its value already is refused if and only if no longer keyword that begins
  with it has been inserted; else it is answered like a new one and counted again, with the first value kept
  (`OwnSlotHolds`).
- A whole top block that the buddy allocator hands out passes for a right half when it is freed, with
  itself as the left one; below the top level the test is right (`MaskTestIsRight`).
- What the binlog writer accepts is read back, every event in order, if and only if every kept event has its
  header, the first one is a format event with its position, a rotate event comes only last, and a last stop
  event has a numbered file (`WriteAndReadBack`, for any events). Otherwise the reader may stop: at a last
  event that declares less than a header (`ShortEventIsStored`) or at a first format event without its
  position (`UnpositionedFormatIsStored`). It may also return an event that nobody wrote
  (`EventsAreMisread`).
- A lookup in `tableIdTree` ends at the chain of another id, on which the code asserts, if and only if the
  slot number of the id does not fit 16 bits, lies below 512 when it is cut, and the cut id has versions; a
  put is misplaced if and only if the slot number does not fit (`TooLargeIdsCollide`,
  `TooLargeIdIsMisplaced`). Ids handed out one by one always fit.

## Model

| member | source | states |
|---|---|---|
| `MemChannel.ChannelIsFifo` | cluster/memChannel.h:69-196 | in every undisturbed interleaving of send and recv, received bytes followed by unread bytes are the sent bytes, line 107 never fails, the ring has at most 8 nodes, and, but for the instants between marking a node and moving on, FREE nodes are exactly those behind m_head up to m_tail |
| `MemChannel.RunInv` | cluster/memChannel.h:36-196 | the invariant of both threads' program counters, ring and node contents holds after every undisturbed run |
| `MemChannel.FifoExactly` | cluster/memChannel.h:69-196 | over every interleaving: all prefixes of a run keep the promise of the FIFO theorem if and only if no producer step other than the last one links a node between lines 113 and 114 |
| `MemChannel.NextProducerBreaks` | cluster/memChannel.h:84-114 | after a first such link the next producer step breaks the promise, whatever the consumer did in between |
| `MemChannel.NextStepSkips` | cluster/memChannel.h:86-88 | that step leaves at least one full node of sent bytes outside what the consumer will read up to m_head |
| `MemChannel.StaysStranded` | cluster/memChannel.h:109-196 | until then the consumer can do nothing but poll the new empty node |
| `MemChannel.DisturbanceIsReachable` | cluster/memChannel.h:69-117 | one send and one recv can reach that link, so the condition of the FIFO theorem cannot be dropped |
| `MemChannel.CopyKeeps` | cluster/memChannel.h:145-149 | copying behind the published head keeps the invariant |
| `MemChannel.PublishKeeps` | cluster/memChannel.h:150 | publishing appends exactly the copied bytes to the unread bytes |
| `MemChannel.LookNextKeeps` | cluster/memChannel.h:71-83 | testing the next node and counting a new one keep the invariant and the bound of 8 nodes |
| `MemChannel.LinkKeeps` | cluster/memChannel.h:84-86 | linking a new node behind m_head keeps the invariant unless the consumer stands between lines 113 and 114 |
| `MemChannel.MoveKeeps` | cluster/memChannel.h:88-96 | moving m_head to the new or freed node keeps the invariant |
| `MemChannel.MarkFullKeeps` | cluster/memChannel.h:89-99 | marking the left node FULL keeps the invariant |
| `MemChannel.RecvAdvanceKeeps` | cluster/memChannel.h:163-168 | taking bytes out moves them from unread to received |
| `MemChannel.FreeKeeps` | cluster/memChannel.h:107-113 | resetting and freeing a node that was read to its end keeps the invariant |
| `MemChannel.AdvanceKeeps` | cluster/memChannel.h:114 | leaving the freed node keeps the invariant |
| `ChannelCalls.ShortRecvMeansAll` | cluster/memChannel.h:159-196 | in every undisturbed run, a recv that has returned gave exactly the bytes asked for, or everything that had been sent when it was called has been received |
| `ChannelCalls.ShortSendMeansFull` | cluster/memChannel.h:141-158 | in every undisturbed run, a send that has returned accepted all its bytes, or the ring had its 8 nodes and seven full nodes of bytes had been sent beyond what was received when it was called |
| `ChannelCalls.SendGivesUp` | cluster/memChannel.h:74-82 | a send stops early only when the ring has all its nodes and its time is over |
| `ChannelCalls.ReadCounts` | cluster/memChannel.h:174-186 | a recv stops early only when its time is over |
| `ChannelCalls.RecvReturns` | cluster/memChannel.h:159-196 | from every reachable state a running recv returns within a bounded number of its own steps |
| `ChannelCalls.SendReturns` | cluster/memChannel.h:141-158 | so does a running send |
| `Bucket.CountersAreExact` | replicator/bucket.cpp:372-454 | in every run a counter is the number of counted pushes not first in their queues plus decrements under way (plus the bias while put runs, less the transaction's own decrements while it runs); a transaction is scheduled at most once, exactly when put has returned and nothing blocks it, and then its own record heads every queue it is in |
| `Bucket.ConflictsRunInPutOrder` | replicator/bucket.cpp:249-256 | a scheduled transaction finds every earlier record of its keys popped, so transactions that share a key run in put order |
| `Bucket.BiasProtects` | replicator/bucket.cpp:439-452 | no decrement of a writer schedules a transaction whose put has not returned |
| `Bucket.WaitingForItselfNeverRuns` | replicator/bucket.cpp:249-256 | a transaction with a counted push behind an earlier push of its own is never scheduled, in any run |
| `Bucket.SecondRecordIsCounted` | replicator/bucket.cpp:249-256 | a second record on a queue of the transaction always makes it wait for itself |
| `Bucket.SecondPushOfRecord` | replicator/bucket.cpp:253-255 | a second push of the same record to a queue is counted if and only if the record is not first there |
| `Bucket.RecordTwiceOnOneQueueRuns` | replicator/bucket.cpp:249-256 | one record whose two keys share an empty queue is scheduled |
| `Bucket.ItDecrementsItself` | replicator/bucket.cpp:385-394 | its writer then takes its own counter from 0 to 0xffffffff, and it is not scheduled again |
| `Bucket.TwoRecordsOnOneQueue` | replicator/bucket.cpp:249-256 | two records on one queue wait for themselves |
| `Bucket.DistinctKeysNeverWait` | replicator/bucket.cpp:249-256 | a transaction that pushes to every queue once never waits for itself |
| `Bucket.OldestIsUnblocked` | replicator/bucket.cpp:437-454 | the oldest unfinished transaction waits behind nobody |
| `Bucket.NoDeadlock` | replicator/bucket.cpp:372-454 | when no transaction waits for itself some thread can step until everything is finished |
| `Bucket.EveryTransactionFinishes` | replicator/bucket.cpp:372-454 | any continuation of a run without further puts is bounded; when no step is left all transactions are finished if and only if none waits for itself |
| `Bucket.WorkDecreases` | replicator/bucket.cpp:383-404 | every step other than a new put makes progress |
| `Bucket.ScheduledIsFirst` | replicator/bucket.cpp:393-394 | a scheduled transaction is at the head of all its queues |
| `Bucket.PopsItself` | replicator/bucket.cpp:385-389 | what a writer pops is its own record |
| `Bucket.RunInv` | replicator/bucket.cpp:249-454 | queues in put order, exact counters and single scheduling hold after every run |
| `Ref.HoldersAreSafe` | cluster/clusterLogFile.h:44-109 | for any number of threads, with needFree at any time outside the loop of use(), the word counts the holders, holders find the data loaded, close and delete run with no holder, delete at most once |
| `Ref.FreedUnlessBusy` | cluster/clusterLogFile.h:44-63 | after needFree and when all have left, the object is deleted if and only if needFree did not meet a thread that was loading or closing it, or a failed load |
| `Ref.LostWhenBusy` | cluster/clusterLogFile.h:44-48 | the bit that needFree sets is lost if and only if some thread is loading or closing, or a load has failed |
| `Ref.LostWhileClosing` | cluster/clusterLogFile.h:44-63 | a run in which needFree meets close(): all leave and nothing is deleted |
| `Ref.LostWhileLoading` | cluster/clusterLogFile.h:91-99 | a run in which needFree meets a load: the loader ends up holding an object that is never deleted |
| `Ref.StuckAfterFailedLoad` | cluster/clusterLogFile.h:93-98 | a first load that fails leaves the word in IN_LOAD with nobody loading |
| `Ref.FailedLoadIsFinal` | cluster/clusterLogFile.h:93-98 | after a failed load nobody ever holds the object again |
| `Ref.LoadedWhileUsed` | cluster/clusterLogFile.h:50-109 | in every run the data is loaded exactly while some thread holds the object, has just loaded it or is about to close it; a word of 0 means that nothing is loaded |
| `Ref.CallsReturn` | cluster/clusterLogFile.h:50-109 | an undisturbed use or unuse returns within five steps; only use waits, and only while somebody is loading or closing or after a failed load |
| `Ref.RunInv` | cluster/clusterLogFile.h:44-109 | the word, the holders, the loader and the closer agree after every run |
| `LogStream.ReaderSeesTheLog` | cluster/clusterLogFile.cpp:346-399 | in every interleaving of writer, iterator, eviction and reloading the iterator has returned exactly the appended entries from its start on, and no thread leaves a block's memory |
| `LogStream.BlocksTileTheFile` | cluster/clusterLogFile.cpp:366-399 | every block starts where the one before it ends and its written part is in the file |
| `LogStream.ReloadGivesSameBytes` | cluster/clusterLogFile.cpp:444-477 | an evicted block is reloaded with exactly its bytes |
| `LogStream.NothingMoreMeansAll` | cluster/clusterLogFile.cpp:728-759 | in every interleaving, when a call of next has answered null, everything accepted before the call, from the iterator's start on, has been returned in order |
| `LogStream.OneEntryPerCall` | cluster/clusterLogFile.cpp:728-759 | in every interleaving a call of next that has returned answered null or exactly one more entry |
| `LogCalls.AcceptedWhenRoom` | cluster/clusterLogFile.cpp:598-617 | in every interleaving, once append has returned, the entry has been accepted if and only if, when the call began, it fitted the file and there was no block, or it fitted the current block with its RPC head, or one more block was allowed; nothing else was accepted |
| `LogCalls.AppendReturns` | cluster/clusterLogFile.cpp:346-399 | from every reachable state a running append returns after at most four steps of its own |
| `LogCalls.NextReturns` | cluster/clusterLogFile.cpp:728-759 | the iterator is never stuck: alone, it answers or moves to a later block |
| `LogCalls.FlushWritesAll` | cluster/clusterLogFile.cpp:672-684 | after a flush between two appends every block stands in the file at its place, and the file ends at the log position |
| `LogCalls.SearchPlaces` | cluster/clusterLogFile.cpp:712-727 | the iterator is placed at the entry asked for |
| `LogCalls.EvictedAndReloaded` | cluster/clusterLogFile.cpp:444-477 | every block before the current one without the iterator can be evicted, which frees its memory, and reloading restores exactly its entries |
| `LogStream.RotateKeeps` | cluster/clusterLogFile.cpp:731-739 | rotating to the next block neither skips nor repeats an entry |
| `LogStream.FetchEntry` | cluster/clusterLogFile.cpp:746-757 | the bytes at the iterator's offset are the next entry of the log |
| `LogStream.PublishKeeps` | cluster/clusterLogFile.cpp:47-52 | publishing the size makes exactly the stored entry visible |
| `LogStream.OpenKeeps` | cluster/clusterLogFile.cpp:372-391 | a new block continues the log at the current offset |
| `LogStream.WriteCurrentKeeps` | cluster/clusterLogFile.cpp:585-597 | flushing adds exactly the unwritten bytes to the file |
| `LogStream.RunInv` | cluster/clusterLogFile.cpp:346-759 | the invariant of blocks, file, writer and iterator holds after every run |
| `LogIndex.FindBlock` | cluster/clusterLogFile.cpp:400-443 | a non-null answer is the block that contains the target; the containing block is found if and only if the halving reaches it |
| `LogIndex.ContainingBlockIsUnique` | cluster/clusterLogFile.cpp:400-443 | at most one block contains an index |
| `LogIndex.MiddleBlockIsMissed` | cluster/clusterLogFile.cpp:406-423 | with three blocks or more, indexes inside the middle block are never found |
| `LogIndex.StartsAndLastBlockAreReached` | cluster/clusterLogFile.cpp:424-442 | block starts and the last block are always found, as long as the last index stays below 2^64 - 1 |
| `LogIndex.MissedIndex` | cluster/clusterLogFile.cpp:400-443 | a file of three blocks and an index that is not found |
| `LogIndex.FindEntry` | cluster/clusterLogFile.cpp:35-46 | the offset of the first entry not below the target, or INVALID_RESULT if and only if there is none |
| `LogIndex.LogFile.Rollback` | cluster/clusterLogFile.cpp:630-671 | keeps exactly the entries below the target, with consistent blocks, links, offset, index and file, or changes nothing; the entries that stay are those below the target if and only if it cuts or all entries are below; an emptied file loses its head |
| `LogIndex.RollbackToAnEntry` | cluster/clusterLogFile.cpp:630-641 | rolling back to a stored entry works if and only if findBlock reaches its block |
| `LogIndex.CutIsBelow` | cluster/clusterLogFile.cpp:642-669 | cutting a block at the found entry leaves the entries below the target |
| `LogIndex.CutImage` | cluster/clusterLogFile.cpp:653-659 | the truncated file is a prefix of the file before |
| `KeyOrder.BinaryCompareIsLexicographic` | meta/columnType.cpp:24-42 | compare is negative, zero, positive exactly as the strings are before, equal, behind in lexicographic order |
| `KeyOrder.BeforeIsTransitive` | meta/columnType.cpp:24-42 | the lexicographic order is transitive |
| `KeyOrder.ValueIsNumber` | meta/columnType.cpp:52-99 | the value of a column is the number in the range of its type that its little-endian bytes stand for |
| `KeyOrder.NumberHasBytes` | meta/columnType.cpp:52-99 | every number of the range is such a value |
| `KeyOrder.CompareIsNumeric` | meta/columnType.cpp:52-99 | a column of any width compares by these numbers, the smaller one first, 32-bit ones as long as the difference fits an int |
| `KeyOrder.FirstDifferenceDecides` | meta/columnType.cpp:47-139 | the first column that differs decides how two keys compare |
| `KeyOrder.SingleIsNumeric` | database/appendingIndex.h:30-94 | a key of one number is ordered by that number |
| `KeyOrder.CompareUnionKeys` | meta/columnType.cpp:47-139 | the loop with two cursors computes the comparison by the first column that differs |
| `KeyOrder.UnionOrder` | meta/columnType.cpp:47-139 | when the values of every 32-bit column lie in one half of the number range, compare is antisymmetric and zero exactly on identical bytes |
| `KeyOrder.UnionTransitive` | meta/columnType.cpp:47-139 | and transitive |
| `KeyOrder.DifferencesFit` | meta/columnType.cpp:73-80 | all differences of some 32-bit values fit an int if and only if the values lie in one half of the number range |
| `KeyOrder.WindowedWithout32` | meta/columnType.cpp:47-139 | keys without 32-bit columns always meet that condition |
| `KeyOrder.Narrow32IsRight` | meta/columnType.cpp:73-80 | a 32-bit column compares rightly if and only if the difference fits an int |
| `KeyOrder.Narrow32IsNoOrder` | meta/columnType.cpp:73-76 | three 32-bit values that compare in a circle |
| `KeyOrder.EqualKeysHaveEqualColumns` | meta/columnType.cpp:47-209 | keys of any columns compare equal if and only if they were built from the same values |
| `KeyOrder.SameBytesIs` | meta/columnType.h:241-253 | what operator== decides for keys of any length: lengths modulo 2^16, and as many bytes |
| `KeyOrder.SameBytesIsCompareZero` | meta/columnType.h:241-253 | below 2^16 bytes operator== and compare == 0 agree, also on 32-bit columns |
| `KeyOrder.ColumnsOfKey` | meta/columnType.cpp:162-209 | a built key gives back its columns |
| `KeyOrder.MemSize` | meta/columnType.cpp:140-161 | the computed size is the length of the key modulo 2^16 |
| `KeyOrder.InitKey` | meta/columnType.cpp:162-209 | the key is its size, unless all columns are fixed, and its columns in order |
| `KeyOrder.KeysAreTotallyOrdered` | database/appendingIndex.h:30-94 | single-column, binary and union keys are totally ordered, zero meaning equality, union keys under the condition on 32-bit columns |
| `KeyOrder.KeyOrderIsTransitive` | database/appendingIndex.h:30-94 | and transitively so |
| `AppendingIndex.Index.AppendKey` | database/appendingIndex.h:109-142 | adds the id to the list of its key, making the key exactly when it is new, and keeps keys sorted and counters right |
| `AppendingIndex.Index.Append` | database/appendingIndex.cpp:190-204 | lists a record under its new key and, when the key was updated, under the old one |
| `AppendingIndex.Index.Find` | database/appendingIndex.h:177-191 | the latest id appended for the key, -1 if and only if there is none |
| `AppendingIndex.InsertKeeps` | database/appendingIndex.h:115-123 | a new key keeps the nodes sorted and equal to the multimap of all appends |
| `AppendingIndex.GrowKeeps` | database/appendingIndex.h:130-140 | one more id, with doubling of the array, keeps them so |
| `SolidIndex.CreateFixed` | database/appendingIndex.h:309-343 | fills the buffer with head, slots and id lists of every posting |
| `SolidIndex.CreateVar` | database/appendingIndex.cpp:240-284 | fills the buffer with head, offset table and entries of every posting |
| `SolidIndex.PackedWordParts` | database/appendingIndex.h:327-333 | the word of a key with several ids has the count below 127 and 128 from there on in its top byte and the offset below it |
| `IndexReader.FixedImageDecodes` | database/solidIndex.h:128-174 | a fixed image with 24-bit offsets decodes to the keys and id lists it was written from |
| `IndexReader.VarImageDecodes` | database/solidIndex.h:34-70 | so does every image with keys of variable length below 4 GB |
| `IndexReader.Find` | database/solidIndex.cpp:11-104 | binary search finds a key if and only if it is there; otherwise -1, or the nearest position |
| `IndexReader.LookUp` | database/solidIndex.h:148-156 | an exact search returns the id list of the key, or nothing if and only if the key is absent |
| `IndexReader.FreezingPreserves` | database/solidIndex.h:34-174 | in an image of the postings of an index every appended key has one slot with all its ids in append order and no other key has one |
| `IndexSize.BlockIndexIsPackable` | database/appendingBlock.h:31 | with at most 131072 records and keys of at most 48 bytes every offset and id fits 24 bits |
| `IndexSize.FixedSizeExactly` | database/appendingIndex.h:350-370 | the exact difference between a fixed image and the room reserved for it |
| `IndexSize.FixedImageFitsWhen` | database/appendingIndex.h:350-370 | a fixed image fits if and only if long lists are covered by single ids and the allowance |
| `IndexSize.FixedOverrunIsBounded` | database/appendingIndex.h:309-370 | it exceeds the room by at most one word per key with exactly 127 ids |
| `IndexSize.OverrunExample` | database/appendingIndex.h:350-370 | one key with 127 ids exceeds it by four bytes |
| `IndexSize.VarImageFits` | database/appendingIndex.cpp:240-284 | an image with keys of variable length never exceeds its room |
| `IndexSize.VarSizeExactly` | database/appendingIndex.h:350-370 | and what it leaves unused, exactly |
| `IndexSize.RoomFromCounters` | database/appendingIndex.cpp:9-45 | both bounds hold for the counters that append keeps |
| `FrozenIndex.FreezeAndLookUp` | database/appendingIndex.h:350-397 | from any live index of a block, in both layouts, in the room that toSolidIndexSize computes: a key looked up in the frozen image is found if and only if it was appended, with all its ids in append order, the last of which is what the live index answers |
| `FrozenIndex.Freeze` | database/appendingIndex.h:350-397 | the image decodes to the postings of the index, its head states its type and exactly its size, which is within the computed room; nothing is made if and only if the index is empty |
| `FrozenIndex.RoomSuffices` | database/appendingIndex.h:350-370 | the computed room is as long as the image: always for keys of variable length, for fixed keys if and only if single ids and the allowance cover the long lists |
| `FrozenIndex.ImageDecodes` | database/solidIndex.h:34-174 | the image that the writer of the key type's layout makes holds the postings of the index |
| `FrozenIndex.PostingsOfBlock` | database/appendingIndex.cpp:190-284 | the postings of an index of a block meet what writers and decoders ask: key widths, ids, counts |
| `FrozenIndex.SmallKeysAreFreezable` | database/appendingBlock.h:31 | for fixed keys of at most 48 bytes that is the only condition |
| `Row.BuildOffsets` | meta/metaData.cpp:359-391 | every column gets its rank among its kind, every fixed column the sum of the sizes before it modulo 2^16 |
| `Row.Record.InitRecord` | message/record.h:272-293 | an empty record: head with type, version and table id, no bit set, end word behind the table |
| `Row.Record.SetFixedColumn` | message/record.h:302-314 | adds the column to the row and disturbs no other column, nor the head |
| `Row.Record.SetFixedColumnNull` | message/record.h:335-339 | adds a null column, its field zeros, and disturbs no other |
| `Row.Record.SetVarColumn` | message/record.h:319-329 | adds a value of variable length behind all others |
| `Row.Record.SetVarColumnNull` | message/record.h:330-334 | adds a null column of variable length |
| `Row.Record.FinishedSet` | message/record.h:398-404 | the size stored in the head is allocSize plus the lengths of all values of variable length |
| `Row.Record.Load` | message/record.h:416-436 | load finds the parts of a written record |
| `Row.Record.Column` | message/record.h:463-489 | column and varColumnSize give back the row: null for null, the exact bytes and length otherwise |
| `Row.Record.WriteRow` | message/record.h:272-404 | setting a whole row column by column gives a complete record of that row with its type, table id and size |
| `Row.BitmapHasRoom` | message/record.h:118-118 | the null bitmap has a bit for every column and at most one byte more than it needs |
| `Row.FixedRoundTrip` | message/record.h:463-475 | a fixed column reads as it was set |
| `Row.VarRoundTrip` | message/record.h:463-489 | a column of variable length reads as it was set, with its length |
| `Row.FieldsAreDisjoint` | meta/metaData.cpp:376-390 | fixed fields do not overlap and lie before the table of starts |
| `Row.OffsetsAreUsable` | meta/metaData.cpp:376-390 | the built offsets keep every fixed field before the table of starts if and only if the fixed columns take less than 2^16 bytes |
| `Row.MarkNext` | message/record.h:115-117 | setting or clearing one bit of the null bitmap changes no other column's bit |
| `RecordBlock.AppendingBlock.Append` | database/appendingBlock.cpp:327-374 | keeps every record readable at its packed address and adds the new one; log offsets never fall: illegal if and only if the offset is less than that of the last record; full if and only if records, page numbers or memory are used up, where the memory is the sum of the page sizes |
| `RecordBlock.AppendingBlock.AllocMem` | database/appendingBlock.cpp:257-296 | finds a page with room or makes one, below page 4096 and offset 2^20; a record that fits the last page of its table gets no new one |
| `RecordBlock.AppendingBlock.ToSolidBlock` | database/appendingBlock.cpp:429-528 | renumbers all pages, with the index pages of each table in front of its records, lists each table's records in order, and every record decodes to the same bytes at its new address, with its table and log offset; page numbers are used up if and only if every table with an index owns a page |
| `RecordBlock.ListInOrder` | database/appendingBlock.cpp:498-515 | a table's entry leads to its list of records |
| `RecordBlock.SolidSize` | database/appendingBlock.cpp:457-518 | when the assertion of line 518 holds |
| `RecordBlock.RefusedTableBreaksCount` | database/appendingBlock.cpp:327-518 | appending and freezing a block whose first record is refused: the table stays registered without a page and line 518 fails |
| `RecordBlock.RecordsOfTable` | database/appendingBlock.cpp:498-515 | a table's list names exactly its records in increasing order |
| `RecordBlock.ListsCoverHistory` | database/appendingBlock.cpp:498-515 | together the lists name every record once |
| `RecordBlock.Unpacked` | database/block.h:61-63 | page and offset are recovered from the packed word |
| `RecordBlock.CopyKeeps` | database/appendingBlock.cpp:307-324 | copying a record keeps all tables, pages and addresses right |
| `RecordBlock.StoredRecord` | database/appendingBlock.cpp:307-324 | a stored record carries its id and is otherwise unchanged |
| `RecordBlock.NewPageHasRoom` | database/appendingBlock.cpp:265-293 | a new page leaves room for the index pages of its table |
| `Trie.Trie.Insert` | MySQLParser/tireTree.cpp:480-622 | for keys of up to 2^16 bytes: afterwards every key has the value it was first inserted with; -1 if and only if the key was inserted before and no longer key that begins with it was, so a repeated prefix of another key is counted again |
| `Trie.Trie.Find` | MySQLParser/tireTree.cpp:623-695 | for keys of any length the value first inserted for the case-folded key, nothing if there is none |
| `Trie.Trie.Follow` | MySQLParser/tireTree.cpp:623-641 | the loop ends for every key, also when its 16-bit level starts anew, at the node of all bytes but the last, or nowhere |
| `Trie.FoldedEqual` | MySQLParser/tireTree.cpp:488-490 | two keys of any length are the same when the case is ignored if and only if they are equal up to the case of ASCII letters |
| `Trie.FoldedKey` | MySQLParser/tireTree.cpp:630-632 | a folded key has no capital letters and differs from the key in the case of letters only |
| `Trie.OwnSlotHolds` | MySQLParser/tireTree.cpp:533-542 | the slot of a key holds a value itself if and only if the key has one and no longer key that begins with it was inserted |
| `Trie.GetAfterStore` | MySQLParser/tireTree.cpp:23-75 | the nested arrays of a node behave as 256 slots |
| `Trie.BranchAdds` | MySQLParser/tireTree.cpp:489-547 | a chain of new nodes linked at last adds exactly its key, also over a value that has to move |
| `Trie.BranchKeepsTree` | MySQLParser/tireTree.cpp:489-547 | and keeps one path to every node |
| `Trie.LeafAdds` | MySQLParser/tireTree.cpp:533-536 | filling an empty slot adds exactly its key |
| `Trie.InnerAdds` | MySQLParser/tireTree.cpp:537-542 | a key that is a prefix of another gets its value in slot 0, unless it has one |
| `Buddy.Top.Alloc` | memory/buddySystem.h:220-259 | hands out one aligned block of the wanted size at the end of the chosen free one, also a whole top block; nothing else in use changes |
| `Buddy.Top.Free` | memory/buddySystem.h:122-160 | takes one block back and merges as far as possible; nothing else in use changes |
| `Buddy.MaskTestIsRight` | memory/buddySystem.h:130-144 | the mask test tells right from left halves if and only if the buffer is below the top level |
| `Buddy.SplitTiles` | memory/buddySystem.h:161-192 | splitting keeps the ring an address-ordered tiling whose masks are the offsets under the top bit |
| `Buddy.MergeTiles` | memory/buddySystem.h:145-153 | merging does so too |
| `Buddy.LeftNeighbour` | memory/buddySystem.h:130-136 | a right half has a neighbour before it, and one of the same level is exactly its buddy |
| `Buddy.RightNeighbour` | memory/buddySystem.h:137-143 | a left half has a neighbour behind it, and one of the same level is exactly its buddy |
| `Buddy.BuffersAreDisjoint` | memory/buddySystem.h:122-192 | buffers of a ring never overlap |
| `Buddy.NothingUsedIsWhole` | memory/buddySystem.h:122-160 | when everything has been taken back the top block is whole |
| `Buddy.AllocNewLevel` | memory/buddySystem.h:220-239 | the contents of every list: each level between holds exactly the buffer that was split to reach it, the target level the last split buffer and the new right half; it fails only when all lists above are empty and no top block can be made |
| `Buddy.NewLevelListsOnce` | memory/buddySystem.h:220-239 | when the new buffers are new, no buffer is listed twice and only the taken one changes its level |
| `Binlog.WriteBinlogFile.WriteBinlogEvent` | MySQLParser/BinlogFile.cpp:534-621 | for any batch size and flush timing file plus buffer are the magic number and the accepted events in order; the buffer never overflows |
| `Binlog.WriteBinlogFile.FlushBuf` | MySQLParser/BinlogFile.cpp:483-519 | moves the buffer to the file |
| `Binlog.WriteBinlogFile.Finish` | MySQLParser/BinlogFile.cpp:410-434 | the file holds the magic number and all accepted events |
| `Binlog.ReadBinlogFile.ReadBinlogEvent` | MySQLParser/BinlogFile.cpp:281-378 | on any file: the fake rotate, the format event, then what lies at the reading position, with the end at a rotate, a last stop or an error, after which nothing is returned |
| `Binlog.ReadBinlogFile.ReadFormatEvent` | MySQLParser/BinlogFile.cpp:131-148 | on any file: reads the first event and returns to the reader's position; another type than a format event is refused without an error |
| `Binlog.ReadGivesEventWhen` | MySQLParser/BinlogFile.cpp:186-274 | on any file, reading at the start of event k gives event k if and only if it carries its own length and its end position modulo 2^32 |
| `Binlog.ReadGivesEvent` | MySQLParser/BinlogFile.cpp:186-274 | on a readable file every event is given, and at the end the end of the file |
| `Binlog.ReadFails` | MySQLParser/BinlogFile.cpp:186-274 | on any file, why reading gives nothing: end of the file, incomplete event, or wrong length or position |
| `Binlog.HasNextNameWhen` | MySQLParser/BinlogFile.cpp:331-355 | a file name has a successor if and only if behind its first byte there is a digit below 9 followed by nines only |
| `Binlog.CallIsNext` | MySQLParser/BinlogFile.cpp:281-378 | on a readable file a call, from any event and in any status, returns what the list of events prescribes |
| `Binlog.WriteAndReadBack` | MySQLParser/BinlogFile.cpp:186-621 | for any given events, batch size and flush timing, the calls of a reader on the finished file return the fake rotate, every kept event in order, then nothing, if and only if the kept events are complete |
| `Binlog.AllAreKept` | MySQLParser/BinlogFile.cpp:534-560 | the writer keeps all given events as they are if and only if every event has its declared length, carries its end position, and is a format event only at the beginning, where it may lack a position |
| `Binlog.ReadFile` | MySQLParser/BinlogFile.cpp:281-378 | what any number of calls on any file return |
| `Binlog.FileIsReadBack` | MySQLParser/BinlogFile.cpp:281-378 | for any list of events: the calls on its file return the fake rotate, every event in order, then nothing, if and only if the events are readable and form a whole file |
| `Binlog.DataExactly` | MySQLParser/BinlogFile.cpp:281-378 | the same from any event on |
| `Binlog.StoredIsReadable` | MySQLParser/BinlogFile.cpp:534-560 | of what the writer accepted every event passes the reader's checks if and only if every event has its header and the first one its position |
| `Binlog.ShortEventIsStored` | MySQLParser/BinlogFile.cpp:186-560 | a last event that declares less than a header is stored; the reader finds the end of the file or an incomplete event |
| `Binlog.UnpositionedFormatIsStored` | MySQLParser/BinlogFile.cpp:186-560 | a first format event without its position is stored; the reader refuses it for its length |
| `Binlog.EventsAreMisread` | MySQLParser/BinlogFile.cpp:186-560 | two accepted events from which the reader makes a format event that was never written, without an error |
| `Binlog.MisleadingEvents` | MySQLParser/BinlogFile.cpp:534-560 | such events exist |
| `TableIdTree.TableIdTree.Put` | meta/tableIdTree.h:69-156 | afterwards every chain is the list of versions put for its id if and only if the slot number fits and the version is newer; the assertions of lines 129 and 130 notice a misplaced version if and only if its slot is in use |
| `TableIdTree.TableIdTree.Get` | meta/tableIdTree.h:194-231 | for every id exactly the meta put for the id and version, nothing if none was; the assertion of line 210 holds if and only if the walk does not end at another id's chain |
| `TableIdTree.TableIdTree.GetPrevVersion` | meta/tableIdTree.h:157-193 | for every id the version put just before the given one, with the same condition for line 173 |
| `TableIdTree.GrowthKeepsChains` | meta/tableIdTree.h:79-92 | growing the root changes no lookup whose slot number fits 16 bits |
| `TableIdTree.ChainAfterPut` | meta/tableIdTree.h:93-149 | a put changes only the chain of its own id |
| `TableIdTree.ConsecutiveIdsFit` | meta/tableIdTree.h:78-79 | ids handed out one after the other always have a slot number that fits |
| `TableIdTree.ChainIsRight` | meta/tableIdTree.h:194-224 | for every id: the walk ends at the versions put for it if and only if its slot number fits 16 bits, leads to no slot, or leads to an id without versions |
| `TableIdTree.PutStands` | meta/tableIdTree.h:76-149 | a put keeps all chains right if and only if its slot number fits 16 bits |
| `TableIdTree.ChainWraps` | meta/tableIdTree.h:78-115 | a walk takes the path of the id whose slot number is cut to 16 bits |
| `TableIdTree.TooLargeIdsCollide` | meta/tableIdTree.h:194-224 | after putting id 0, get of id 65536 meets its version and line 210 fails |
| `TableIdTree.TooLargeIdIsMisplaced` | meta/tableIdTree.h:69-156 | putting id 65536 into an empty tree is not noticed and leaves it under id 0 |

## Left out

- Memory ordering below sequential consistency: the fences of the source are taken to order its accesses; a message of 2^31 bytes or more is not sent through the channel.
- MemChannel.TryAddStep: how long and how often a thread waits before it gives up; condition variables only wake a waiting thread earlier.
- Which keys a record hashes to, DDL records and the table's meta data in the replicator; queues are never removed from their map.
- `ref` with 2^29 threads or more, a second needFree, and a thread inside the loop of use() when or after needFree is called, on which the source asserts.
- The end-of-file marker, the index checks of append and flushing from a third thread in the running log; a reader is placed at an entry, and the log is not rolled back while it is read.
- Appending after a rollback: m_logIndex and the written size of the cut block are not reset by the source, so the next append is refused.
- Crash recovery of log and redo files, clusterLog's commit index, elections.
- LogIndex.FindEntry: entries shorter than their head are excluded; on an entry of length zero the loop of the source would not end.
- SolidIndex.CreateFixed: needs a buffer as long as the image; when the room of toSolidIndexSize suffices is the subject of `RoomSuffices`.
- FrozenIndex.FreezeAndLookUp: a fixed image longer than its room or than 2^24 bytes, and a variable one whose room is 4 GB or more, are excluded; so are union keys with 32-bit values in both halves of the number range.
- SolidIndex.CreateVar: needs a buffer as long as the image, and at least one key, as the do-while loop of the source does.
- Float and double keys, and BLOB keys, which the type table marks as fixed while their values are pointers; the iterators over indexes, which only step through what is decoded here.
- The skip list and the arena of the live index: a skip list is the sorted sequence of its nodes.
- KeyOrder.InitKey: keys of 2^16 bytes or more, whose size wraps around, are built but not looked at further.
- Row.Record.Column: tables whose fixed columns take 2^16 bytes or more, for which `OffsetsAreUsable` shows that fields overlap the table of starts, and rows of 2^32 bytes or more are excluded.
- The old image of an updated row, whose sizes mix two offset tables.
- RecordBlock.AppendingBlock.Append: the path on which a record is built in place, DDL records, the redo file, and the time fields of the block.
- RecordBlock.AppendingBlock.ToSolidBlock: the types and times of the records, the bytes of the first page, compression and the contents of index pages, which are those of module SolidIndex.
- Trie.Trie.Insert: keys of more than 2^16 bytes, for which the loop of the source does not end; the iterator and clear.
- Buddy.Top.Alloc: works on the ring of one top block and takes the free buffer as given, because merge unlinks buffers that are in no list, after which the level lists are not reliable.
- Buddy.Top.Free: a top block handed out whole is not taken back, because merge would merge it with itself (`MaskTestIsRight`); the unlinking and relisting of buffers is not modelled.
- Buddy.AllocNewLevel: models the lists of free buffers by name, apart from the rings.
- Usage percentages, callbacks and changes of the memory limit of the buddy allocator.
- Binlog.WriteBinlogFile.WriteBinlogEvent: failing file operations and appending to an existing file; an event shorter than its header is not passed in.
- Binlog.ReadBinlogFile.ReadBinlogEvent: files shorter than the magic number and file operations that fail, the bytes of the fake rotate event, checksums, the name of the next file and the growth of the read buffer.
- TableIdTree.TableIdTree.Put: nodes are values, so linking in place, parent pointers and endId, which no lookup reads, are not captured; ids stay below 2^31, from where line 115 overflows an int; nothing is said about a tree after a misplaced put.
- Network, sockets, MySQL client calls, configuration, memKvDatabase, kWaySortIterator, ringBuffer, tableMapCache, MetaTimeline and value formatting.
