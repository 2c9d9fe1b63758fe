# ZenDB: a Dafny model of its storage engines, log, tables, replicated values and clock

This project models the algorithms of ZenDB, an embedded local-first database, in Dafny 4.11 and proves
what they promise for every input, every run and every interleaving. `dafny verify dfyconfig.toml` checks it.

| files | what they model |
|---|---|
| `SkipList.dfy` | the arena-backed skip list, for every choice of random levels |
| `Bytes.dfy`, `KeyDirLog.dfy`, `KeyDirFile.dfy`, `KeyDirCompaction.dfy`, `KeyDir.dfy` | the append-only key directory: bytes, replay, compaction in place |
| `Lex.dfy`, `PageFile.dfy`, `LeafPage.dfy`, `LeafSplit.dfy`, `PageSplit.dfy` | the B+ tree page by page: separators, freelist and extents, slotted leaf bytes, splits |
| `BTree.dfy`, `TreeEdit.dfy`, `TreeSplit.dfy`, `Tree.dfy` | the tree above the pages: routing, lookup, put with leaf split, delete, the chain of leaves |
| `BulkLoad.dfy`, `BulkPut.dfy` | the bottom-up load of a new tree and of one emptied by deletes |
| `TopicFile.dfy`, `Topic.dfy` | the segmented log as its writer sees it, and recovery of a torn tail |
| `TopicRun.dfy`, `TopicSafety.dfy`, `TopicProgress.dfy`, `TopicWriter.dfy` | the same log as a protocol of one writer and many readers, step by step: its safety, and that readers and writer get on |
| `TableHistory.dfy`, `Table.dfy`, `MergedEntries.dfy` | the table over cache, state and log, its recovery, and merged iteration |
| `Stamps.dfy`, `Text.dfy`, `TextReplica.dfy`, `TextConvergence.dfy` | collaborative text: operations, merge and convergence |
| `TextOrder.dfy`, `TextWalk.dfy`, `TextSplice.dfy`, `TextEdit.dfy` | the order of a text, the walk that reads it, and what inserting, deleting and formatting do to the string |
| `ClockMap.dfy`, `MvRegister.dfy`, `OrSet.dfy`, `PriorityQueue.dfy` | the other replicated values |
| `Receipts.dfy`, `Clock.dfy`, `ClockNetwork.dfy` | receipt windows and the hybrid logical clock over many devices |

How things are represented:

- Objects whose methods update their fields are classes; `Valid()` ties the fields to ghost values, and each
  method states the new ghost value. Steps that work on several sequences at once are methods over values
  that the class methods call.
- The leaf page is an `array<byte>` changed in place. Memory maps that are resized and page words are
  sequences held in fields.
- Keys and values of the key directory, and log records, stand for their encodings. Keys of the skip list and
  the table are integers and compare as such.
- Random levels, the compaction threshold, the unused page an allocation returns and wall clocks are arbitrary:
  every theorem holds for all of them.
- A table runs over the topic itself, among any other consumers; changes are written with an encoding that
  decoding undoes.
- Machine widths are explicit where the code depends on them: 32-bit record sizes and their two reserved
  markers, 16-bit slots, the sequence and logical limits of the clock.
- A replica is a history of deliveries and merges; convergence assumes that a stamp belongs to one operation.

What the code does that its own text does not say:

- A separator is documented as a prefix of the right key. `TruncatedSeparator` states exactly when it is one.
- A table with a cache limit of zero logs a change and then fails to cache it. `Insert` states this exactly; the
  change comes into effect when the table is opened again (`Reopen`).
- A set remove that observed nothing of an unknown element adds an empty entry and reports no change.
- A leaf split can overfill its left half. `SplitLeaf` states exactly when, `SplitFits` that entries of at most a
  third of a page never do it, `SplitOverflows` gives sizes that do.
- A bulk load that fits one leaf writes page one and leaves root and separators alone. In a tree of several leaves
  emptied by deletes an entry is then found exactly if its key is below every separator on the way to page one
  (`BulkPutSorted`, `FindLoaded`; `EmptiedLoadMisses` is a tree where it is not). The rightmost leaf is also taken to
  be page one.
- Merging registers and queues with a conflict keeps what was merged before it, unlike text. `MergeFrom` states what
  exactly, `StoppedSame` when that is nothing, `MergeStops` an input where it is not. A register can then show a
  value that was replaced: `StoppedTidy` states exactly when, `AppliedTidy` when an assignment ends it; the next
  merge that succeeds ends it always.

## Model

| member | source | states |
|---|---|---|
| `TextConvergence.Convergence` | zendb-types/src/crdt/values/text.rs:187-352 | any two replicas that have seen the same operations, delivered and merged in any order and any number of times, hold identical states, provided each stamp belongs to one operation |
| `TextConvergence.StateDescribed` | zendb-types/src/crdt/values/text.rs:187-352 | every history of deliveries and merges reaches exactly the state its set of operations describes, and no merge or insert in it ever conflicts |
| `TextConvergence.UnionDescribes` | zendb-types/src/crdt/values/text.rs:309-352 | the closed form of two states composes under merge: contents, latest delete, latest attribute per key |
| `TextConvergence.ReplicasAgreeOnOrder` | zendb-types/src/crdt/values/text.rs:386-409 | two replicas that show the same two characters show them in the same order, whatever else each has seen |
| `Texts.UnionCommutes` | zendb-types/src/crdt/values/text.rs:309-352 | merge commutes exactly on the states that agree: no conflicting content and no attribute with one stamp and two values |
| `Texts.UnionAssociates` | zendb-types/src/crdt/values/text.rs:309-352 | merge is associative on all states |
| `Texts.UnionIdempotent` | zendb-types/src/crdt/values/text.rs:309-352 | merging the same state twice is merging it once |
| `TextReplicas.Text.Apply` | zendb-types/src/crdt/values/text.rs:187-307 | an operation equals merging its own small state; a malformed or contradicting one fails with the first contradicted character and changes nothing; the flag is exact. What is accepted and what it does to the string is in `TextEdits.Type`, `Erase`, `Style` and `Texts.RefusedFor` |
| `TextReplicas.Text.Merge` | zendb-types/src/crdt/values/text.rs:309-352 | merge is the union of the states; it fails exactly on a conflict, naming the first, before changing anything; the flag is exact |
| `TextReplicas.Text.InsertAll` | zendb-types/src/crdt/values/text.rs:222-244 | the insert loop, placeholders included, equals the union with the contribution of the insert |
| `TextReplicas.Text.DeleteAll` | zendb-types/src/crdt/values/text.rs:250-268 | the delete loop equals the union with its contribution, skipping characters not older than it |
| `TextReplicas.Text.FormatAll` | zendb-types/src/crdt/values/text.rs:274-304 | the format loop equals the union with its contribution |
| `TextReplicas.MergeInto` | zendb-types/src/crdt/values/text.rs:323-343 | one entry is merged field by field and the flag tells whether it changed |
| `TextReplicas.MergeAttributes` | zendb-types/src/crdt/values/text.rs:332-342 | attributes merge key by key, the later stamp winning |
| `Stamps.MergeClock` | zendb-types/src/crdt/values/text.rs:374-384 | the clock becomes the later of the two and the flag tells whether it moved |
| `TextReplicas.FirstConflict` | zendb-types/src/crdt/values/text.rs:310-319 | the first conflicting character in key order, if there is a conflict |
| `TextReplicas.FirstClash` | zendb-types/src/crdt/values/text.rs:203-220 | the first character of the insert that the state contradicts, if there is one |
| `TextWalks.Children` | zendb-types/src/crdt/values/text.rs:57-65 | every character with content is filed under its anchor, newest first |
| `TextWalks.Walk` | zendb-types/src/crdt/values/text.rs:386-409 | the recursive walk terminates, visits everything below its start once, and lists the shown characters in chain order |
| `TextWalks.VisibleIds` | zendb-types/src/crdt/values/text.rs:56-71 | the list read is the sorted list of the chains of shown characters |
| `TextOrders.ListedOnce` | zendb-types/src/crdt/values/text.rs:56-71 | exactly the undeleted characters whose chain of anchors reaches the head are listed, each once |
| `TextOrders.ListsUnique` | zendb-types/src/crdt/values/text.rs:56-71 | a state determines the list |
| `TextOrders.OrderStable` | zendb-types/src/crdt/values/text.rs:386-409 | the order of two characters depends only on their chains: it is the same in any two states without conflict |
| `TextOrders.OrderKept` | zendb-types/src/crdt/values/text.rs:309-352 | no operation and no merge reorders characters shown before and after it |
| `TextSplices.SpliceString` | zendb-types/src/crdt/values/text.rs:77-87 | inserting after a visible character or at the head with a stamp above all in the text yields the old string with the new one spliced in there |
| `TextSplices.Splice` | zendb-types/src/crdt/values/text.rs:194-245 | the same on the list of identities: the new characters stand together at that place and nothing else moves |
| `TextSplices.Classify` | zendb-types/src/crdt/values/text.rs:194-245 | every chain after such an insert is an old chain or one of those the insert makes |
| `TextSplices.ReadString` | zendb-types/src/crdt/values/text.rs:77-87 | the string spells the characters of the list in order |
| `TextEdits.Type` | zendb-types/src/crdt/values/text.rs:194-245 | typing at any place of what is read, with a stamp later than any in the text, is always accepted, and the text then reads as before with the string spliced in there |
| `TextEdits.Erase` | zendb-types/src/crdt/values/text.rs:246-269 | deleting any stretch of what is read with a later stamp is always accepted, and exactly that stretch goes from the string |
| `TextEdits.Style` | zendb-types/src/crdt/values/text.rs:270-305 | formatting any stretch of what is read with a later stamp is always accepted, sets or clears the attribute of exactly its characters and leaves the string alone |
| `TextEdits.DeleteString` | zendb-types/src/crdt/values/text.rs:386-409 | any delete takes from list and string exactly the named characters older than it, the rest keeping its order; named characters that are not older stay |
| `TextEdits.Deleted` | zendb-types/src/crdt/values/text.rs:250-268 | the same on the list and its chains |
| `TextEdits.StaleDeletes` | zendb-types/src/crdt/values/text.rs:404-404 | delete clocks that are not later than their character do not affect what is listed |
| `TextEdits.FormatReads` | zendb-types/src/crdt/values/text.rs:274-304 | a format later than any in the text shows its value, or nothing if it clears the key, on exactly the characters it names, and every other key as before |
| `TextEdits.FormatString` | zendb-types/src/crdt/values/text.rs:270-305 | no format changes what is listed or read |
| `TextEdits.StateSound` | zendb-types/src/crdt/values/text.rs:187-352 | in the state of every history ids are non-zero and in range, the characters of one insert are anchored one on the other and its first one elsewhere, and delete clocks are later than their characters |
| `Texts.RefusedFor` | zendb-types/src/crdt/values/text.rs:187-202 | exactly which stamps, ids and lengths are refused, with each error |
| `MvRegisters.Convergence` | zendb-types/src/crdt/values/mv_register.rs:73-149 | replicas that have seen the same assignments hold the same register |
| `MvRegisters.VisibleIff` | zendb-types/src/crdt/values/mv_register.rs:73-149 | a value is visible under a stamp iff it was assigned with that stamp and no delivered assignment replaces it, whichever arrived first |
| `MvRegisters.StateDescribed` | zendb-types/src/crdt/values/mv_register.rs:73-149 | every history reaches the state its set of assignments describes, and no delivery or merge in it ever conflicts |
| `MvRegisters.NoConflict` | zendb-types/src/crdt/values/mv_register.rs:111-142 | replicas with consistent stamps never conflict |
| `MvRegisters.AssignedAlone` | zendb-types/src/crdt/values/mv_register.rs:36-41 | an assignment over everything visible leaves its value alone in view |
| `MvRegisters.Replica.Assign` | zendb-types/src/crdt/values/mv_register.rs:36-41 | the assignment a replica makes leaves its value alone in view, under any new stamp, and a value assigned concurrently elsewhere is visible after a merge |
| `MvRegisters.Replica.Apply` | zendb-types/src/crdt/values/mv_register.rs:73-109 | fails exactly when its stamp is visible with another value; takes the replaced values out of view on any register, and on a tidy one equals merging its contribution; the flag is exact |
| `MvRegisters.Replica.MergeFrom` | zendb-types/src/crdt/values/mv_register.rs:111-149 | merge is the union on any two registers; it fails exactly on a surviving assignment with two values, names the first, and keeps all remote clocks and the assignments before it |
| `MvRegisters.StoppedSame` | zendb-types/src/crdt/values/mv_register.rs:118-142 | a failed merge changes nothing iff no remote clock and no remote assignment before the conflict was news |
| `MvRegisters.StoppedTidy` | zendb-types/src/crdt/values/mv_register.rs:118-148 | a failed merge leaves a replaced value visible iff a remote clock removes a value visible here |
| `MvRegisters.MergeStops` | zendb-types/src/crdt/values/mv_register.rs:118-142 | two registers whose merge fails, changes the local one and leaves a replaced value visible |
| `MvRegisters.AppliedTidy` | zendb-types/src/crdt/values/mv_register.rs:73-109 | an assignment ends that iff it replaces every such value |
| `MvRegisters.AppliedUnion` | zendb-types/src/crdt/values/mv_register.rs:73-109 | on a tidy register an assignment is the union with its contribution and the result is tidy |
| `OrSets.Convergence` | zendb-types/src/crdt/values/or_set.rs:93-152 | replicas that have seen the same operations hold the same set |
| `OrSets.PresentIff` | zendb-types/src/crdt/values/or_set.rs:43-46 | an element is present iff some delivered add of it was observed by no delivered remove |
| `OrSets.StateDescribed` | zendb-types/src/crdt/values/or_set.rs:93-152 | every history reaches the state its set of operations describes |
| `OrSets.RemovedGone` | zendb-types/src/crdt/values/or_set.rs:55-64 | a remove that observed every add takes the element away |
| `OrSets.OrSet.Remove` | zendb-types/src/crdt/values/or_set.rs:55-64 | the remove a replica makes takes the element away under any stamp, touches no other, and an add not seen here brings the element back after a merge |
| `OrSets.AddedLater` | zendb-types/src/crdt/values/or_set.rs:55-64 | a remove leaves every add it did not observe in place |
| `OrSets.OrSet.Apply` | zendb-types/src/crdt/values/or_set.rs:93-120 | an operation equals merging its contribution; the flag is exact except for a remove that observed nothing of an unknown element |
| `OrSets.OrSet.MergeFrom` | zendb-types/src/crdt/values/or_set.rs:122-152 | merge is the union element by element and the flag is exact |
| `PriorityQueues.Convergence` | zendb-types/src/crdt/values/priority_queue.rs:105-257 | replicas that have seen the same operations hold the same queue |
| `PriorityQueues.LiveIff` | zendb-types/src/crdt/values/priority_queue.rs:44-59 | an element is live iff it was pushed and not validly popped, whichever arrived first |
| `PriorityQueues.StateDescribed` | zendb-types/src/crdt/values/priority_queue.rs:105-257 | every history reaches the state its set of operations describes, and no delivery or merge in it ever conflicts |
| `PriorityQueues.UnionDescribes` | zendb-types/src/crdt/values/priority_queue.rs:162-179 | the closed form composes under merge, without conflict |
| `PriorityQueues.LiveList` | zendb-types/src/crdt/values/priority_queue.rs:44-59 | the live elements, all of them, by ascending priority and by stamp within one priority |
| `PriorityQueues.PopTarget` | zendb-types/src/crdt/values/priority_queue.rs:62-75 | a pop targets the live element with the least priority, and the least stamp among those; there is none iff no element is live |
| `PriorityQueues.PushedLive` | zendb-types/src/crdt/values/priority_queue.rs:105-157 | a push with a new stamp is live and touches no other element |
| `PriorityQueues.PoppedGone` | zendb-types/src/crdt/values/priority_queue.rs:105-157 | a pop later than a live element ends it and touches no other element |
| `PriorityQueues.MergeInto` | zendb-types/src/crdt/values/priority_queue.rs:196-245 | one entry is merged into another, pending pops included; two contents under one stamp are refused |
| `PriorityQueues.PriorityQueue.Apply` | zendb-types/src/crdt/values/priority_queue.rs:105-157 | an operation equals merging its contribution; only a contradicting push fails; the flag is exact |
| `PriorityQueues.PriorityQueue.MergeFrom` | zendb-types/src/crdt/values/priority_queue.rs:162-179 | merge is the union; it fails exactly on a push with two contents, names the first, and keeps the union with the remote entries before it |
| `PriorityQueues.StoppedSame` | zendb-types/src/crdt/values/priority_queue.rs:162-179 | a failed merge changes nothing iff every remote entry before the conflict was no news |
| `PriorityQueues.MergeStops` | zendb-types/src/crdt/values/priority_queue.rs:162-179 | two queues whose merge fails and changes the local one |
| `ClockMaps.AdvanceAll` | zendb-types/src/crdt/values/mv_register.rs:89-100 | setting clocks forward for a list of keys joins them with the new stamp, repeats included |
| `ClockMaps.JoinAll` | zendb-types/src/crdt/values/mv_register.rs:118-127 | taking over the later of the remote clocks is the join |
| `ClockMaps.JoinTops` | zendb-types/src/crdt/values/mv_register.rs:118-127 | joining two maps of latest clocks gives the latest clocks of both contributions |
| `Clocks.Device.MintStamp` | zendb-workspace/src/devices/runtime.rs:303-344 | a minted stamp is later than every stamp minted or observed before and carries a new sequence number; it fails exactly on exhaustion and then changes nothing |
| `Clocks.Device.ObserveStamp` | zendb-workspace/src/devices/runtime.rs:346-394 | a stamp is taken in exactly if the wall clock can be read, its sequence is positive and, for an own stamp, not exhausted; the clock moves past it, it is new exactly on first sight, and a refusal leaves clock and receipts alone |
| `Clocks.Mint` | zendb-workspace/src/devices/runtime.rs:303-344 | exactly when a mint succeeds; the stamp is ahead of the clock it came from and not before the wall reading, and no earlier time is |
| `Clocks.Observed` | zendb-workspace/src/devices/runtime.rs:364-388 | the merged clock is not behind the stamp, the wall reading, nor anything it was ahead of, and takes its time from one of the three |
| `ClockNetworks.CausalOrder` | zendb-workspace/src/devices/runtime.rs:303-394 | for any number of devices, wall clocks and deliveries, happened-before implies stamp order; a delivery counts whenever it brings a minted stamp to a running device with a readable wall clock |
| `ClockNetworks.UniqueIds` | zendb-workspace/src/devices/runtime.rs:303-344 | no two stamps minted in a run share an identity |
| `ClockNetworks.Monotone` | zendb-workspace/src/devices/runtime.rs:303-394 | over any stretch of a run no clock moves back |
| `ClockNetworks.Accepted` | zendb-workspace/src/devices/runtime.rs:346-394 | every stamp minted in a run is taken in wherever it is brought |
| `ClockNetworks.AcceptedBefore` | zendb-workspace/src/devices/runtime.rs:346-394 | everything a device mints after a stamp was brought to it is later than that stamp |
| `ClockNetworks.Mints` | zendb-workspace/src/devices/runtime.rs:303-344 | a device asked for a stamp mints one exactly unless its clock is exhausted |
| `ClockNetworks.PhysicalTime` | zendb-workspace/src/devices/runtime.rs:315-320 | the physical time of a stamp is the greatest wall reading in its causal past: one step on a path to it read that time, and none read a greater one |
| `Receipts.Window.Observe` | zendb-workspace/src/devices/receipts.rs:22-48 | a number is new exactly on first sight, zero is refused, and the window then denotes the numbers seen plus it |
| `Receipts.Window.MissingIndex` | zendb-workspace/src/devices/receipts.rs:50-60 | binary search finds the range missing a number iff there is one |
| `Receipts.Window.ObserveAll` | zendb-workspace/src/devices/receipts.rs:22-48 | after any observations the window denotes exactly the valid numbers observed |
| `Receipts.Canonical` | zendb-workspace/src/devices/receipts.rs:15-19 | windows that denote the same numbers are equal, whatever the order of observation |
| `Receipts.SameRanges` | zendb-workspace/src/devices/receipts.rs:15-19 | sorted, non-empty, non-adjacent ranges are determined by the numbers in them |
| `Receipts.Removed` | zendb-workspace/src/devices/receipts.rs:34-47 | taking one number out of a range keeps the ranges tidy and loses nothing else |
| `SkipLists.SkipList.constructor` | zendb-storage/src/backend/skiplist.rs:55-69 | a new list is empty |
| `SkipLists.SkipList.Search` | zendb-storage/src/backend/skiplist.rs:71-95 | the search returns the predecessor on every level and the node iff the key is bound |
| `SkipLists.Alloc` | zendb-storage/src/backend/skiplist.rs:97-121 | a slot comes from the free list or extends the arena, or capacity rejects it |
| `SkipLists.SkipList.InsertNew` | zendb-storage/src/backend/skiplist.rs:123-149 | for every level drawn, the new node is linked on its levels with back links and tail; a rejected one changes nothing |
| `SkipLists.SkipList.RemoveFound` | zendb-storage/src/backend/skiplist.rs:151-180 | the node leaves every level, its slot becomes free, height and tail shrink as needed |
| `SkipLists.SkipList.FirstAtOrAfter` | zendb-storage/src/backend/skiplist.rs:182-189 | the first node at or above the key |
| `SkipLists.SkipList.Get` | zendb-storage/src/backend/skiplist.rs:218-227 | the value bound in the map |
| `SkipLists.SkipList.Put` | zendb-storage/src/backend/skiplist.rs:264-272 | the map gains the binding; it is rejected exactly when the key is new and capacity is reached, and then nothing changes |
| `SkipLists.SkipList.PutIfAbsent` | zendb-storage/src/backend/skiplist.rs:273-280 | inserts exactly when absent |
| `SkipLists.SkipList.Replace` | zendb-storage/src/backend/skiplist.rs:281-294 | put that returns the previous binding |
| `SkipLists.SkipList.BulkPutSorted` | zendb-storage/src/backend/skiplist.rs:295-323 | the sorted sweep equals repeated put, duplicates and the first rejection included (`SkipLists.PutAllIs` says what that is) |
| `SkipLists.SkipList.Delete` | zendb-storage/src/backend/skiplist.rs:324-331 | the map loses the key |
| `SkipLists.SkipList.BulkDeleteSorted` | zendb-storage/src/backend/skiplist.rs:332-362 | the sorted sweep leaves the map without exactly the listed keys and counts the removals |
| `SkipLists.PutAllIs` | zendb-storage/src/backend/skiplist.rs:295-323 | repeated put binds every key to its last listed value up to the first new key that finds the map at capacity, and stops only there |
| `SkipLists.DeleteAllIs` | zendb-storage/src/backend/skiplist.rs:332-362 | repeated delete leaves the map without exactly the listed keys |
| `SkipLists.SkipList.Update` | zendb-storage/src/backend/skiplist.rs:363-384 | the map after applying a function to the binding, insertion rejection included |
| `SkipLists.SkipList.Clear` | zendb-storage/src/backend/skiplist.rs:385-393 | the list is empty |
| `SkipLists.SkipList.Range` | zendb-storage/src/backend/skiplist.rs:401-416 | exactly the bindings in the half-open range, ascending |
| `SkipLists.SkipList.RangeRev` | zendb-storage/src/backend/skiplist.rs:458-480 | the same bindings, descending along back links |
| `SkipLists.SkipList.Entries` | zendb-storage/src/backend/skiplist.rs:246-252 | all bindings, ascending |
| `SkipLists.SkipList.EntriesRev` | zendb-storage/src/backend/skiplist.rs:447-456 | all bindings, descending from the cached tail |
| `Towers.FirstInsert` | zendb-storage/src/backend/skiplist.rs:131-141 | what each level links to after a node enters the bottom list |
| `Towers.FirstRemove` | zendb-storage/src/backend/skiplist.rs:154-167 | what each level links to after a node leaves the bottom list |
| `KeyDirs.KeyDir.Put` | zendb-storage/src/backend/keydir.rs:564-581 | the map gains the binding; file, index and counters stay what a scan would give |
| `KeyDirs.KeyDir.Delete` | zendb-storage/src/backend/keydir.rs:588-596 | the map loses the key; a missing key changes nothing |
| `KeyDirs.KeyDir.PutIfAbsent` | zendb-storage/src/backend/keydir.rs:602-621 | inserts exactly when absent |
| `KeyDirs.KeyDir.Replace` | zendb-storage/src/backend/keydir.rs:630-662 | put that returns the previous value read off the file |
| `KeyDirs.KeyDir.Update` | zendb-storage/src/backend/keydir.rs:672-730 | the map after applying a function to the binding, with at most one record written; only the record written has to fit |
| `KeyDirs.KeyDir.Clear` | zendb-storage/src/backend/keydir.rs:737-747 | an empty map in the same file |
| `KeyDirs.KeyDir.Get` | zendb-storage/src/backend/keydir.rs:508-512 | the value bytes the index points at are the binding in the map |
| `KeyDirs.KeyDir.Size` | zendb-storage/src/backend/keydir.rs:550-552 | the number of bindings |
| `KeyDirs.KeyDir.Compact` | zendb-storage/src/backend/keydir.rs:458-485 | compaction keeps the map and leaves no dead byte |
| `KeyDirs.KeyDir.Reopen` | zendb-storage/src/backend/keydir.rs:430-456 | after any run, scanning the file gives the same index, data size and dead bytes as the live instance |
| `KeyDirs.KeyDir.Open` | zendb-storage/src/backend/keydir.rs:430-456 | any file: refused without the magic number, corrupt exactly when its records lead out of it, otherwise the directory of the records up to the terminator or the end |
| `KeyDirs.KeyDir.Accounts` | zendb-storage/src/backend/keydir.rs:304-355 | header, live bytes and dead bytes make up the data size |
| `KeyDirFiles.WriteEntry` | zendb-storage/src/backend/keydir.rs:175-215 | the record and terminator stand at the tail, the file grown if need be |
| `KeyDirFiles.WriteTombstone` | zendb-storage/src/backend/keydir.rs:221-254 | the tombstone carries the key copied out of the doomed record |
| `KeyDirFiles.RebuildIndex` | zendb-storage/src/backend/keydir.rs:304-355 | scanning any bytes finds the log of the file and gives its replay, and tells whether it ended properly |
| `KeyDirFiles.OneLog` | zendb-storage/src/backend/keydir.rs:304-355 | a file holds one log: whatever stands from the header to where the scan stops is determined by the bytes |
| `KeyDirCompactions.Compact` | zendb-storage/src/backend/keydir.rs:458-485 | the new file holds one record per live key and its replay is the new index |
| `KeyDirCompactions.SlidNext` | zendb-storage/src/backend/keydir.rs:467-475 | moving a record forward overwrites no record that has yet to move |
| `KeyDirCompactions.SweepEnd` | zendb-storage/src/backend/keydir.rs:464-481 | once all have moved, the new log describes the same map and the index is its replay |
| `KeyDirLogs.Conserved` | zendb-storage/src/backend/keydir.rs:304-355 | replaying any log conserves bytes |
| `KeyDirLogs.Located` | zendb-storage/src/backend/keydir.rs:304-355 | the index points at the record that last set the key |
| `Topics.Topic.Append` | zendb-storage/src/topic.rs:186-215 | the record joins the history in the last segment if it fits or that one is empty, and otherwise in a new one, after which exactly the compactable segments are gone; retained segments still tile the history |
| `Topics.Topic.Rotate` | zendb-storage/src/topic.rs:171-181 | a new empty segment starts at the next offset, and of the list with it exactly the compactable segments are gone |
| `Topics.Topic.Compact` | zendb-storage/src/topic.rs:345-383 | exactly the leading segments that end at or before the least committed cursor go, the counters follow, and the rest still tiles |
| `Topics.CompactedOnce` | zendb-storage/src/topic.rs:345-383 | what a compaction leaves is determined by segments and cursors |
| `Topics.Least` | zendb-storage/src/topic.rs:346-357 | the least committed cursor, attained by a consumer |
| `Topics.Topic.Consumer` | zendb-storage/src/topic.rs:132-165 | a new consumer starts at the tail and a name has one open handle |
| `Topics.Topic.Next` | zendb-storage/src/topic.rs:484-522 | the record appended at the cursor, or none at the tail |
| `Topics.Topic.Commit` | zendb-storage/src/topic.rs:410-415 | the committed cursor becomes the volatile one |
| `Topics.Topic.Close` | zendb-storage/src/topic.rs:525-534 | what was not committed is forgotten |
| `Topics.Topic.Open` | zendb-storage/src/topic.rs:268-343 | reopening yields the history up to the last complete record of the active file; a file without the magic number is refused |
| `Topics.Topic.Reopenable` | zendb-storage/src/topic.rs:268-343 | the files of any valid topic, with the active one cut anywhere after its header, are a directory that can be reopened |
| `Topics.Topic.ReopenMarked` | zendb-storage/src/topic.rs:288-293 | and none of its files is refused |
| `Topics.Retained` | zendb-storage/src/topic.rs:450-459 | every offset from the earliest to the tail is in a retained segment |
| `TopicFiles.Scan` | zendb-storage/src/topic.rs:596-622 | the scan of a cut file finds exactly the longest run of complete records |
| `Topics.Find` | zendb-storage/src/topic.rs:450-459 | some segment holds every retained offset |
| `Topics.Skip` | zendb-storage/src/topic.rs:461-468 | skipping record by record reaches the position of the wanted one |
| `TopicSafety.ReadersServed` | zendb-storage/src/topic.rs:444-522 | in every state of every interleaving each reader has received exactly the consecutive records since it placed its cursor, its search succeeds, the files it holds exist and its next read delivers the record at its cursor |
| `TopicSafety.RunKeeps` | zendb-storage/src/topic.rs:171-215 | every interleaving of writer and reader steps, appends and compactions, keeps the invariant |
| `TopicSafety.StepKeeps` | zendb-storage/src/topic.rs:345-383 | each load, store, file write, scan of a cursor, publication, single mark and file removal keeps the invariant, in an append and in a compaction called on its own |
| `TopicSafety.PublishedCovers` | zendb-storage/src/topic.rs:445-459 | whatever the writer is doing, the published list covers every offset from the oldest committed one to the tail |
| `TopicSafety.DrainedSafe` | zendb-storage/src/topic.rs:359-375 | dropping segments below the scanned cursors strands no consumer, late registrations included |
| `TopicSafety.ReadKeeps` | zendb-storage/src/topic.rs:505-521 | a read yields the next record of the history |
| `TopicSafety.ReapKeeps` | zendb-storage/src/topic.rs:85-91 | a file goes only when no list and no reader refers to its segment |
| `TopicProgress.ReaderServed` | zendb-storage/src/topic.rs:444-522 | progress: in every reachable state a consumer with a record to read, given a bounded number of its own steps among any steps of the others, has received exactly the record at its cursor and moved past it |
| `TopicProgress.ReadCloser` | zendb-storage/src/topic.rs:444-522 | each step of a reader brings it nearer to that record |
| `TopicProgress.ComesBackEmpty` | zendb-storage/src/topic.rs:484-503 | a read comes back with nothing only if the cursor was at the tail when it looked |
| `TopicProgress.FindsNothing` | zendb-storage/src/topic.rs:484-503 | and at the tail it does |
| `TopicProgress.Registers` | zendb-storage/src/topic.rs:132-165 | a new consumer starts at the tail, a taken name changes nothing, and a consumer that leaves is gone |
| `TopicProgress.ConsumerMoves` | zendb-storage/src/topic.rs:410-432 | a consumer goes where it seeks, commits where it is, and resets to what it committed |
| `TopicWriters.AppendRecords` | zendb-storage/src/topic.rs:186-215 | whatever steps are interleaved, an append in progress stays in progress until its record is the next of the history |
| `TopicWriters.AppendCompletes` | zendb-storage/src/topic.rs:186-215 | from every reachable state an append can run to its end, and the history then has exactly its record more |
| `TopicWriters.WriterFinishes` | zendb-storage/src/topic.rs:171-215 | whatever the writer is doing, its own steps bring it to its end |
| `TopicWriters.RotatesWhenFull` | zendb-storage/src/topic.rs:189-194 | an append writes to the current segment if that is empty or has room, and otherwise starts one at the tail |
| `TopicWriters.CompactionRemoves` | zendb-storage/src/topic.rs:345-383 | a compaction removes and marks exactly the leading segments that end at or before the least committed cursor, and nothing without consumers |
| `TopicWriters.ReapedOnce` | zendb-storage/src/topic.rs:85-91 | a marked file goes when it is reaped exactly if no reader holds its segment |
| `Tables.Table.Insert` | zendb-storage/src/table/table.rs:68-98 | with a limit of at least one the row reads as the new cell and the change links to the previous one; with a limit of zero, and only then, the change is logged and the row refused; the table is valid in every case |
| `Tables.Table.Log` | zendb-storage/src/table/table.rs:86-91 | right after the append, before the row is cached, the log with the change is recoverable |
| `Tables.Table.WriteRow` | zendb-storage/src/table/table.rs:130-140 | after each single row of a drain the table is recoverable |
| `Tables.Table.Elsewhere` | zendb-storage/src/table/table.rs:63-65 | whatever other consumers of the log do, the table stays valid; nobody else can attach as its recovery consumer |
| `Tables.Table.Compact` | zendb-storage/src/table/table.rs:222-225 | the log loses exactly what every consumer, the table included, has committed past |
| `Tables.Table.PrepareCache` | zendb-storage/src/table/table.rs:100-111 | after it the cache has room for the key unless the limit is zero |
| `Tables.Table.DrainCache` | zendb-storage/src/table/table.rs:130-140 | the state becomes the table and the cache empty; before the cursor is committed the table is valid and recoverable |
| `Tables.Table.Flush` | zendb-storage/src/table/table.rs:142-154 | the cursor moves to the end of the log, but never for an in-memory state |
| `Tables.Table.Get` | zendb-storage/src/table/table.rs:246-248 | the last cell applied |
| `Tables.Table.Size` | zendb-storage/src/table/table.rs:288-290 | the number of distinct keys |
| `Tables.Table.Entries` | zendb-storage/src/table/table.rs:268-286 | the merged rows are the table in key order |
| `Tables.Table.Open` | zendb-storage/src/table/table.rs:202-220 | over the files of a topic, torn tail included: the state becomes the replay from the stored cursor, which is the table of the intact log iff the state on disk is right on keys untouched since |
| `Tables.Table.CrashSafe` | zendb-storage/src/table/table.rs:113-154 | at every point, inner ones included, every record from the recovery cursor on is in a retained segment, and replaying it over whatever mixture of later writes a crash left gives the table of the log |
| `Tables.Table.Reopen` | zendb-storage/src/table/table.rs:202-220 | opening the files at any such point gives a valid table with the rows of the whole log |
| `Tables.Replay` | zendb-storage/src/table/table.rs:113-128 | the replay loop reads the topic from the cursor to its end and writes each change |
| `TableHistories.RecoveryExact` | zendb-storage/src/table/table.rs:113-128 | replay yields the last cell of every key |
| `TableHistories.RecoveryNeeds` | zendb-storage/src/table/table.rs:113-128 | and does so only over such a state |
| `TableHistories.RecoveryRestarts` | zendb-storage/src/table/table.rs:113-128 | a recovery interrupted anywhere can start over |
| `TableHistories.FromNothing` | zendb-storage/src/table/table.rs:149-154 | an empty state recovers from the start of the log |
| `MergedRows.MergedEntries.Next` | zendb-storage/src/table/iter.rs:44-65 | the first row of the union, cache rows winning, after which exactly the later rows are left, in either direction |
| `MergedRows.MergedEntries.Collect` | zendb-storage/src/table/iter.rs:44-65 | the whole iteration is the union, cache rows winning, each key once, ascending or descending as asked |
| `Lex.TruncatedSeparator` | zendb-storage/src/backend/btree.rs:230-240 | a shortest string above the left key and not above the right one; a prefix of the right key exactly unless the left key is one followed by a non-zero byte |
| `PageFiles.PageFile.AllocPage` | zendb-storage/src/backend/btree.rs:891-903 | a page not in use, off the freelist or new |
| `PageFiles.PageFile.FreePage` | zendb-storage/src/backend/btree.rs:905-911 | the page heads the list and is no longer in use |
| `PageFiles.PageFile.AllocRun` | zendb-storage/src/backend/btree.rs:918-962 | the first contiguous descending run of the list is taken whenever it holds one |
| `PageFiles.PageFile.AllocExtent` | zendb-storage/src/backend/btree.rs:969-977 | pages in use grow by exactly the extent; it comes off the list whenever the list holds a run of that length, and from the end of the file exactly otherwise |
| `PageFiles.PageFile.FreeExtent` | zendb-storage/src/backend/btree.rs:987-992 | exactly the extent leaves use |
| `PageFiles.PageFile.Recycle` | zendb-storage/src/backend/btree.rs:969-992 | freeing an extent and allocating that size returns it and restores list and file |
| `PageFiles.FindRun` | zendb-storage/src/backend/btree.rs:931-959 | the chain scan finds the first run iff there is one |
| `LeafPages.LeafPage.Put` | zendb-storage/src/backend/btree.rs:1166-1256 | the entry replaces the one with its key or enters in order, or the page lacks room and keeps the others |
| `LeafPages.Insert` | zendb-storage/src/backend/btree.rs:1222-1253 | slots shift, bytes go below the data, every other entry stays readable, the data still tile the page |
| `LeafPages.Remove` | zendb-storage/src/backend/btree.rs:1491-1534 | data slide and slots follow, every other entry keeps its bytes, the data still tile the page |
| `LeafPages.Overwrite` | zendb-storage/src/backend/btree.rs:1207-1214 | a value of the same size replaces the old one and nothing else changes |
| `LeafPages.LeafPage.Delete` | zendb-storage/src/backend/btree.rs:1115-1126 | the entry goes exactly if the key is there |
| `LeafPages.FindSlot` | zendb-storage/src/backend/btree.rs:849-864 | the slot of the key or where it belongs |
| `LeafSplits.SplitLeaf` | zendb-storage/src/backend/btree.rs:1321-1444 | two non-empty halves hold the old entries and the new one in order, the right one always fits, the left one exactly unless an entry straddles the midpoint; the separator is a shortest one |
| `LeafSplits.FindMid` | zendb-storage/src/backend/btree.rs:1426-1438 | the midpoint by bytes, kept inside the list |
| `LeafSplits.SplitFits` | zendb-storage/src/backend/btree.rs:1426-1438 | entries of at most a third of a page never straddle |
| `LeafSplits.SplitOverflows` | zendb-storage/src/backend/btree.rs:1426-1438 | larger ones can: the left half then overflows its page |
| `PageSplits.SplitPage` | zendb-storage/src/backend/btree.rs:1321-1462 | the same on the bytes: the page is read out, reset and written back as the left half, the right half goes to an empty page |
| `BTrees.Search` | zendb-storage/src/backend/btree.rs:821-846 | binary search finds the child a key is routed to |
| `TreeSplits.SplitRouted` | zendb-storage/src/backend/btree.rs:1570-1625 | the separator of a leaf split lands right after the split child, keys at or above it of that child go to the new page, and every other key goes where it went |
| `BTrees.Get` | zendb-storage/src/backend/btree.rs:808-817 | descending by separators finds exactly the entry with the key, at any height, empty leaves and the empty tree included |
| `BTrees.SeparatorRouted` | zendb-storage/src/backend/btree.rs:1588-1604 | a separator between two keys of one child is routed to that child |
| `Trees.Tree.Put` | zendb-storage/src/backend/btree.rs:1058-1080 | the entry replaces the one with its key or is added, every other entry is kept and found, whether the leaf has room, is split below a parent with room, or is the root; it stops exactly where a half would overflow, or the parent has no room for the separator |
| `Trees.Tree.Delete` | zendb-storage/src/backend/btree.rs:1115-1163 | the entry with the key goes exactly if there is one, its leaf stays |
| `Trees.Tree.Get` | zendb-storage/src/backend/btree.rs:808-817 | the entry with the key, exactly if the tree holds one |
| `Trees.LeafSplit` | zendb-storage/src/backend/btree.rs:1439-1489 | a leaf split below a parent with room keeps the whole tree sound: routing at every height, pages apart, sizes, and the chain of leaves relinked on both sides |
| `Trees.RootReplaced` | zendb-storage/src/backend/btree.rs:1538-1568 | a leaf that is the root splits below a new root |
| `Trees.LeafWritten` | zendb-storage/src/backend/btree.rs:1222-1253 | writing the leaf a key is routed to changes the tree only for that key |
| `TreeEdits.GraftReplaces` | zendb-storage/src/backend/btree.rs:1058-1080 | what changes a subtree only for a key routed to it changes the whole tree only for that key |
| `TreeSplits.SplitReplaces` | zendb-storage/src/backend/btree.rs:1570-1625 | the parent with the split leaf takes the place of the parent anywhere in a tree |
| `TreeSplits.ChainSplit` | zendb-storage/src/backend/btree.rs:1465-1482 | the new leaf is linked between the split one and the one after it, in both directions |
| `TreeEdits.StoredOrdered` | zendb-storage/src/backend/btree.rs:821-846 | the entries of a stored tree are in key order |
| `BulkPuts.BulkPutSorted` | zendb-storage/src/backend/btree.rs:2368-2376 | any strictly ascending list loaded into a tree without entries: exactly it is stored if it needs several leaves or the tree is one leaf; otherwise an entry is found iff its key is below the old separators on the way to page one |
| `BulkPuts.FindLoaded` | zendb-storage/src/backend/btree.rs:808-846 | a lookup after such a one-leaf load finds the entry iff its key is routed to page one, and otherwise nothing |
| `BulkPuts.EmptiedLoadMisses` | zendb-storage/src/backend/btree.rs:539-561 | two leaves emptied by deletes and an entry the load does not make reachable |
| `BulkPuts.ChainLists` | zendb-storage/src/backend/btree.rs:780-790 | the chain of leaves of a stored tree lists its entries in order |
| `BulkPuts.Load` | zendb-storage/src/backend/btree.rs:475-560 | any strictly ascending list of storable entries, the empty one included, becomes a valid tree holding exactly it, with the leaf chain in order in both directions |
| `BulkPuts.LoadAndGet` | zendb-storage/src/backend/btree.rs:475-560 | a key looked up after a load is found exactly when it was loaded |
| `BulkLoads.Builder.Push` | zendb-storage/src/backend/btree.rs:475-537 | the entry joins the current leaf exactly if it fits there and otherwise a new one chained after it, on any unused page; there is one leaf iff everything fits one |
| `BulkLoads.Builder.Finish` | zendb-storage/src/backend/btree.rs:539-561 | entries for several leaves end up in a valid tree that holds exactly them; otherwise page one alone has been written |
| `BulkLoads.BuildLevel` | zendb-storage/src/backend/btree.rs:1986-2048 | the level above holds the same entries in at most half as many pages, rounded up |
| `BulkLoads.BuildGroup` | zendb-storage/src/backend/btree.rs:1992-2043 | a page takes at least two children when two are left, and stops only where no separator for the next one would fit |
| `BulkLoads.BuildInternalLevels` | zendb-storage/src/backend/btree.rs:1978-2061 | level building ends with one page over the same entries and leaves, no page twice |

## Left out

- `internal_split` and cascading splits of internal pages: the lifted separator is not compared with the keys of the child beside it, so routing is claimed for parents with room and for bulk-loaded trees; `Trees.Tree.Put` stops where an internal page would have to be split.
- B+ tree `bulk_delete_sorted` and the rebuild of internal levels from leaves: page conservation does not hold there.
- B+ tree compaction, iterators, statistics counters, the byte layout of internal pages and the bytes inside extents.
- Trees.Tree.Put: pages are entries and separators, not bytes; `LeafSplits.SumTotal` ties the sizes to the byte layout and `PageSplits.SplitPage` the split. Where a half would overflow its page the model stops, the original goes on to write it.
- BulkPuts.Load: as for `Trees.Tree.Put`, pages are entries and separators.
- LeafPages.LeafPage.Put: freeing the extent of an overwritten large value belongs to the tree and is not part of the page.
- KeyDirs.KeyDir.Put: file growth failures and sizes beyond 64 bits are not modelled; a record must fit its 32-bit size field.
- KeyDirs.KeyDir.Open: where records lead out of the file the original panics and the model returns an error; a log that fills the file without a terminator is read but not claimed to be valid for further writes.
- SkipLists.SkipList.BulkPutSorted: requires a key-sorted input, as the sweep does; iterators are collected into sequences.
- Topics.Topic.Seek: seeking back before the committed cursor is excluded; the original allows it and may then find nothing.
- TopicSafety.ReadersServed: memory is sequentially consistent; input and output errors in mid-operation are not modelled.
- TopicProgress.ReaderServed: that a thread is ever scheduled is not modelled; the steps of the consumer are counted, not timed.
- Topics.Topic.Append: the cursors are a map rather than a key directory of their own, and writes do not fail.
- Tables.Table.Insert: applying an operation to a cell is a function parameter; cells are opaque.
- Tables.Table.Entries: the rows of the state are given in key order, which the tree's byte order need not be.
- Tables.Table.Open: a stored cursor past the end of a torn log is not claimed to recover.
- Clocks.Device.ObserveStamp: one device per peer identity; loss of unflushed clock checkpoints is not modelled.
- TextReplicas.Text.Apply: building formatting intervals by position and `max_stamp` would only add easy members.
- Cells, records, lists, counters, plain sets and scalar values; roles, listeners, catalogs, locks, networking and signing.
