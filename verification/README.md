# Verification model of DINI

DINI is an in-memory document store: typed items in tables and ordered lists, parent
relations, transactions with undo, indexes that answer queries, and a binary change log.
This project models its algorithms in Dafny and proves that each fast form does what a
simple one does, and that the document stays in order through every run of transactions.

`dafny verify dfyconfig.toml` checks everything.

| area | files |
|---|---|
| batch inserts into lists: Fenwick tree of free slots, round-robin schedule, reverse placement | `FreeSlots`, `ListPlanner`, `GroupPlanner` |
| order of a batch: counting passes, radix sort, breadth-first visit | `CountingSort`, `RadixSort`, `BatchOrder` |
| the document as a value: validation, lists, updates, what keeps it well formed | `ParentChain`, `Document`, `DocumentLists`, `DocumentItems` |
| changes, their inverses and their replay, joint updates, cascades, snapshots | `Changes`, `Undo`, `Batches`, `Replay`, `JointUpdates`, `Requests`, `Cascade`, `Reachability`, `Restore`, `Orphans` |
| the engine in place: item and group maps, batches, replay, collection | `ListRefresh`, `SmoothReplay`, `Subtree`, `Engine` |
| transactions, the failure journal, undo and redo | `Journal`, `History`, `Transactions`, `UndoHistory` |
| change log and merge | `Codec`, `ChangeLog`, `LogFormat`, `Merge`, `ChangeSets`, `Logs`, `MergedUpdates` |
| indexes: interval treap, ordered index, kd-tree, buckets, aggregates | `IntervalTree`, `IntervalIndex`, `IntervalStore`, `OrderedIndex`, `KdTree`, `Tallies`, `IndexStore`, `Aggregation` |
| queries | `Query`, `QueryExecution`, `ParentSelection` |

**Documents.** A document is a map of items and a map of ordered lists. A well-formed one
has parents that exist and chains of parents that end, values that fit their columns, unique
values that are unique in their scope, and lists that hold an item at a position exactly when
the item has that association and that cached position. A list that has run empty and one
that never was count as the same, since erasing never drops the key.

**Classes and specifications.** `DocumentEngine`, `Transaction`, `UndoHistory`,
`FreeListSlotIndex`, `IntervalIndex`, `ContainerRangeIndex`, `RuntimeIndexStore`,
`QueryEngine`, `LinkedChanges`, `BinaryWriter` and `BinaryReader` change their fields as the program does, and
their methods are proved against functions on values. The laws are proved about those functions.
What these functions are is said a second time without them: `Requests` speaks of stored cells,
owners and lists, `LogFormat` of bytes, `Values.LessMeans` and `Values.OperatorsMean` of numbers
and strings, `BatchOrder.OrderMeans` of any two positions, and `OrderedIndexes.Nearest` and
`QueryEngine.Execute` of single rows and ids.

**Errors.** Where the program throws, a method returns `false` or `None`; the contracts
say exactly when, and what state is left.

**Where the code does less than one may expect.** These are kept as they are. Each is shown
by a concrete input, and comes with the exact condition under which it does not happen:

| what happens | input | exactly right when |
|---|---|---|
| a failed transaction leaves cached positions of members it never saved | `Transactions.RollbackLeavesPositions` | `Journals.RestoredExactlyIff`, and for a lone request `Journals.LoneInsertExactIff`, `Journals.LoneRemovalExactIff` and `Journals.LoneRotationExactIff` |
| `removeAt` does not cascade, and a snapshot of what it leaves may not be restored | `Transactions.RemoveAtLeavesAnOrphan` | `Transactions.RemoveAtKeepsWellFormedIff`, `Orphans.RemovedAtRestoresIff` |
| a joint update may be recorded that can be neither replayed nor undone | `JointUpdates.JointMoveIsStuck` | `JointUpdates.JointLeadsIff` |
| a merged stream may leave another value | `Merges.MixedKindsDiffer` | `Merges.EffectKept` |
| a point without a constrained field may come through | `KdTrees.IncompletePointComesThrough` | `KdTrees.ExactIff` |
| a probe that is no interval finds nothing | `QueryExecution.ReversedProbeFindsNothing` | `Queries.IntervalShortcutIff`, `Queries.PlainShortcutIff` |
| an interval without a start or end, or one that does not begin before it ends, is not found | `QueryExecution.NullStartFindsNothing` | `Queries.IntervalShortcutIff`, `Queries.PlainShortcutIff` |
| a range does not find a null, nor a number of another type that does not compare alike | `QueryExecution.NullBelowBoundFindsNothing`, `QueryExecution.MixedTypesFindNothing` | `Queries.RangeShortcutIff` |
| a negated filter without an index finds nothing | `QueryExecution.NegatedUnindexedColumn` | `QueryExecution.LostExactIff`, `QueryExecution.LostFilterExactIff`; in any expression `QueryExecution.ShownRightIff` |
| the indexed minimum may not be the folded one | `Aggregations.NullMinimaDiffer` | `Aggregations.FoldAgreesIff` |

## Model

| member | source | states |
|---|---|---|
| `FreeSlots.NextCover` | src/engine.cpp:1350-1352 | The update chain `i, i + lowbit(i), …` reaches every tree node that covers a slot and skips none between two of its stops. |
| `FreeSlots.DescentStep` | src/engine.cpp:1336-1351 | In the power-of-two descent, the node one step ahead counts exactly the free slots that the step would pass over. |
| `FreeSlots.FreeListSlotIndex.constructor` | src/engine.cpp:1329-1334 | A new index represents a row of slots that are all free. |
| `FreeSlots.FreeListSlotIndex.Descend` | src/engine.cpp:1336-1345 | The descent ends on a free slot with exactly `order - 1` free slots before it, without looking at any slot itself. |
| `FreeSlots.FreeListSlotIndex.Take` | src/engine.cpp:1336-1358 | Takes the `order`-th free slot of the plain row of slots the tree stands for, frees or takes nothing else, and leaves the tree representing the new row. |
| `ListInserts.PassStuck` | src/engine.cpp:1796-1812 | If no waiting insert fits its list, a pass places nothing and keeps them all waiting in order. |
| `ListInserts.SettleAfterPass` | src/engine.cpp:1796-1812 | Repeated passes have one outcome: making a pass first changes nothing of what they come to. |
| `ListInserts.SettleFillsTail` | src/engine.cpp:1384-1407 | Inserts that fill a contiguous tail, in any order, are all placed by repeated positional insertion and give exactly that tail. |
| `ListInserts.OneSettles` | src/engine.cpp:443-456 | One insert goes in at its position, moving what stands there up, or at the end; behind the end it waits for ever. |
| `ListInserts.ThreeSettle` | src/engine.cpp:1796-1812 | A concrete run of the passes: the first of three inserts is put off, the others go in in their turn, and then it does. |
| `PlannedOrder.ScheduleNext` | src/engine.cpp:1428-1446 | Scheduling the first fitting unscheduled position at or after the cursor is the step the passes make next. |
| `PlannedOrder.WrapAround` | src/engine.cpp:1432-1435 | With nothing fitting at or after the cursor, starting again at the front is what the next pass does. |
| `PlannedOrder.Stuck` | src/engine.cpp:1428-1431 | With nothing fitting anywhere, the passes are over and exactly the unscheduled inserts are left. |
| `PlannedOrder.UndoLast` | src/engine.cpp:1448-1458 | The slot that is number k among the free ones holds the item that was inserted last at index k; without it the free slots hold the list before that insertion. |
| `ListPlanner.PlanTail` | src/engine.cpp:1384-1407 | When the shortcut answers, its list is the existing one with the inserts as a contiguous tail, each at the position it asks for. |
| `ListPlanner.NextReady` | src/engine.cpp:1432-1436 | The next position taken is the least ready one not before the cursor, or the least of all when there is none. |
| `ListPlanner.Schedule` | src/engine.cpp:1409-1446 | The round-robin schedule is found exactly when the passes place everything, and replaying it one insertion at a time gives their list. |
| `ListPlanner.PlaceReversed` | src/engine.cpp:1448-1467 | Placing a schedule backwards into free slots gives the list that inserting it forwards one at a time gives. |
| `ListPlanner.PlanGroup` | src/engine.cpp:1379-1469 | For every list and every batch of inserts, the plan is exactly what repeated passes of positional insertion with deferral come to, and there is none exactly when those passes get stuck. |
| `GroupPlanner.PassPerGroup` | src/engine.cpp:1796-1812 | One pass over a batch that mixes lists is, for each list, one pass over its own inserts. |
| `GroupPlanner.SettlePerGroup` | src/engine.cpp:1365-1383 | Passes over the mixed batch come, in each list, to what passes over that list alone come to. |
| `GroupPlanner.SettledPerGroup` | src/engine.cpp:1365-1383 | The mixed batch settles completely exactly when each list settles. |
| `GroupPlanner.PlanBatch` | src/engine.cpp:1365-1470 | `planInsertedListGroups` succeeds exactly when the one-at-a-time passes over the whole batch settle it, and then its plans are their lists. |
| `Values.CompareTotal` | src/engine.cpp:138-159 | The order by type tag and then payload is total, antisymmetric, and calls two values equal only when they are the same value. |
| `Values.CompareTransitive` | src/engine.cpp:138-159 | That order is transitive, across types too. |
| `Values.LessMeans` | src/engine.cpp:138-159 | Null is less than booleans, these than signed, unsigned and floating numbers, these than strings and these than bytes; false is less than true, numbers go by size, doubles by sign and pattern, and strings and bytes by the first byte that differs. |
| `Values.OperatorsMean` | src/engine.cpp:162-183 | Each of the six comparisons by the order, and on signed numbers by size. |
| `IntervalTrees.RotationAugmented` | src/support/runtime_index.cpp:1076-1110 | A rotation with one refresh makes the greatest-end field exact at both nodes, whatever it was at the root. |
| `IntervalTrees.InsertGood` | src/support/runtime_index.cpp:1112-1132 | Insertion keeps strict order, heap order on priorities and exact greatest ends at every node, and adds just the one entry. |
| `IntervalTrees.EraseGood` | src/support/runtime_index.cpp:1134-1154 | Erasing through rotations terminates, keeps the same three invariants, and drops just the one entry. |
| `IntervalTrees.EndsEarlier` | src/support/runtime_index.cpp:1163-1165 | A subtree whose greatest end is not after the probe's start has no overlapping entry. |
| `IntervalTrees.QueryExact` | src/support/runtime_index.cpp:1157-1173 | The pruned query gives exactly the non-excluded ids whose interval overlaps the probe. |
| `IntervalNodes.Node.Update` | src/support/runtime_index.cpp:1076-1088 | On linked nodes: the field becomes the greatest end of the subtree, and the children stay as they are. |
| `IntervalNodes.RotateRight` | src/support/runtime_index.cpp:1090-1099 | The in-place rotation turns the nodes into the rotated tree and uses just the nodes it had. |
| `IntervalNodes.RotateLeft` | src/support/runtime_index.cpp:1101-1110 | The same to the left. |
| `IntervalNodes.Insert` | src/support/runtime_index.cpp:1112-1132 | In-place insertion through rotated nodes refines insertion into the tree as a value. |
| `IntervalNodes.Erase` | src/support/runtime_index.cpp:1134-1154 | In-place erasure refines erasure from the tree as a value, with no node shared or left over. |
| `IntervalNodes.Query` | src/support/runtime_index.cpp:1157-1173 | The query of the linked nodes answers as that of the tree does. |
| `IntervalIndexes.IntervalTree.Insert` | src/support/runtime_index.cpp:1207-1210 | The set of entries gains the one entry, and the tree stays a treap. |
| `IntervalIndexes.IntervalTree.Erase` | src/support/runtime_index.cpp:1212-1215 | The set of entries loses the one entry, and the tree stays a treap. |
| `IntervalIndexes.IntervalTree.Query` | src/support/runtime_index.cpp:1217-1227 | Exactly the overlapping, non-excluded ids when the probe is an interval, and none when its start is not before its end. |
| `IntervalIndexes.IntervalIndex.Add` | src/support/runtime_index.cpp:1234-1245 | One more row, whether or not it has a valid interval and a complete group key: all later answers are those of a scan. |
| `IntervalIndexes.IntervalIndex.Remove` | src/support/runtime_index.cpp:1247-1261 | One row less; a group that runs empty is dropped without changing any answer. |
| `IntervalIndexes.IntervalIndex.Query` | src/support/runtime_index.cpp:1263-1297 | After any run of additions and removals each answer is the scan of all rows with a valid interval in that group. |
| `IntervalIndexes.ScanOfNumbers` | src/support/runtime_index.cpp:1157-1173 | On numbers: found exactly when interval and probe begin before they end and each begins before the other ends; touching is not enough. |
| `IntervalStores.IntervalStore.Add` | src/support/runtime_index.cpp:1336-1338 | The one index gains the row, made if it was not there yet, and no other index changes. |
| `IntervalStores.IntervalStore.Remove` | src/support/runtime_index.cpp:1409-1414 | The one index loses the row, and no other index changes. |
| `IntervalStores.IntervalStore.Query` | src/support/runtime_index.cpp:1524-1534 | What a scan of that index's rows finds. |
| `OrderedIndexes.AddFiles` | src/support/runtime_index.cpp:902-917 | Adding a row keeps each group the entries of its rows; a row with a null key is in none. |
| `OrderedIndexes.RemoveFiles` | src/support/runtime_index.cpp:919-941 | So does removing one, with a group that runs empty dropped. |
| `OrderedIndexes.Nearest` | src/support/runtime_index.cpp:943-1001 | The neighbour found is on the side asked for, with the lesser (or greater) value at the first order column that differs, or equal values and the smaller (or greater) id, and no other row that is not excluded lies between; nothing comes out exactly when there is no such row. |
| `OrderedIndexes.SeqLessIff` | src/support/runtime_index.cpp:891-900 | The lexicographic order: the lesser value at the first position that differs, or the one that ends there. |
| `ParentChain.EndsOrRepeats` | src/engine.cpp:639-665 | In a finite parent map, a climb that never ends visits some item twice. |
| `ParentChain.MeetAtMultiple` | src/engine.cpp:651-663 | On a chain that goes round, the slow and the fast climber do meet. |
| `ParentChain.EnsureNoCycle` | src/engine.cpp:639-665 | Terminates on every finite parent map, cyclic ones too, and passes exactly when the chain from the parent reaches the top through existing items without meeting the item. |
| `ParentChain.HangingKeepsRoots` | src/engine.cpp:667-691 | Hanging an item under a parent that this check passes keeps every chain of parents ending at a root. |
| `DocumentLists.RemoveKeepsOrder` | src/engine.cpp:418-441 | Taking an item out of its list leaves every list and cached position in agreement, and removes it from nowhere else. |
| `DocumentLists.InsertKeepsOrder` | src/engine.cpp:443-456 | Putting an item into its list at the position it asks for keeps lists and cached positions in agreement and changes nothing else of any item. |
| `DocumentLists.RotateKeepsOrder` | src/engine.cpp:1718-1734 | Rotating part of a list keeps lists and cached positions in agreement. |
| `DocumentLists.RotateBack` | src/engine.cpp:1724-1731 | Rotating by an offset of either sign and any size, and then by its opposite, restores the list. |
| `DocumentLists.EraseAllKeepsOrder` | src/engine.cpp:1250-1302 | Erasing many items leaves each list with its survivors in order and every position right. |
| `DocumentItems.AcceptKeepsSound` | src/engine.cpp:667-812 | An item that passes validation keeps the forest, the types and the uniqueness of all items, although an update checks only the unique columns it changes. |
| `DocumentItems.EraseKeepsSound` | src/engine.cpp:1232-1238 | Erasing items that nothing remaining hangs under keeps the forest, the types and uniqueness. |
| `DocumentItems.AcceptedBack` | src/engine.cpp:884-935 | An item of a sound document passes validation again in every part of it that has its parent. |
| `Undo.UpdateBack` | src/engine.cpp:1674-1705 | An update with its move between lists, undone by an update back, restores the whole document. |
| `Undo.PutBack` | src/engine.cpp:1222-1230 | An erased childless item, inserted as it was stored, restores the whole document. |
| `Undo.RotateBackDocument` | src/engine.cpp:1718-1734 | A rotation followed by its inverse restores items and lists. |
| `Undo.PerformKeepsWellFormed` | src/engine.cpp:3515-3998 | Every single-item request that goes through keeps the document well formed. |
| `Undo.PerformAndUndo` | src/change.cpp:44-114 | For every request, what it records, inverted and applied, gives back exactly the document from before; applied as it is, it repeats the request. |
| `Requests.AcceptsIff` | src/engine.cpp:667-812 | Validation accepts an item exactly when its cells are of columns and their types and none required is missing, its owner is there in the right container and not below it, and no other item of its scope has one of its unique cells, though an update checks only what it changes. |
| `Requests.RowInserted` | src/engine.cpp:3515-3556 | What inserting a row stores, and exactly when it is refused. |
| `Requests.ListItemInserted` | src/engine.cpp:3558-3635 | The same for a list, with the list that results. |
| `Requests.ValueSet` | src/engine.cpp:3757-3845 | The same for setting one cell. |
| `Requests.ParentSet` | src/engine.cpp:3757-3845 | The same for a move, with both lists. |
| `Requests.JointSet` | src/engine.cpp:3847-3947 | After a joint update each column that was given holds what it was given, and everything else what it held. |
| `Requests.JointAcceptedIff` | src/engine.cpp:3847-3947 | A joint update is accepted exactly when its columns are legal, none is given twice, and what the item comes to hold fits. |
| `Requests.TurnedRound` | src/engine.cpp:3949-3998 | A rotation within the list turns each place to what stood the offset further on, counted round. |
| `Requests.MemberTakenOut` | src/engine.cpp:3714-3755 | Removing by position takes just that member out of its list and the items. |
| `Undo.UndoRun` | src/change.cpp:199-211 | Every run of requests, undone change by change from the last, passes only through well-formed documents and ends where the run began. |
| `Batches.SomeoneIsReady` | src/engine.cpp:1614-1639 | While snapshots of a sound document wait, one of them has its parent stored already. |
| `Batches.AcceptAllFills` | src/engine.cpp:1614-1639 | So the passes store all of them, whatever order they are tried in. |
| `Batches.BatchCompletes` | src/engine.cpp:1594-1646 | A batch that holds the missing items of a well-formed document, and whose lists settle into that document's, gives just that document. |
| `Replay.BatchIsRun` | src/engine.cpp:1743-1762 | Insertions that would succeed one after the other give, as one planned batch, the same document. |
| `Replay.EraseIsRun` | src/engine.cpp:1764-1782 | Removals one after the other give the same document as erasing all of them at once. |
| `Replay.BatchesAreFaithful` | src/engine.cpp:1738-1813 | On a change set in which each change describes the document it meets, the batched replay does what one change after the other does, however a batch is arranged. |
| `Replay.UndoRestores` | src/engine.cpp:1738-1813 | The inverse of what any run of requests recorded, replayed with its batches, restores the document, and the change set itself repeats the run. |
| `Cascade.BelowByParent` | src/engine.cpp:3651-3673 | An item other than the root is in the subtree exactly when its parent's chain passes through the root. |
| `Cascade.CascadeKeepsWellFormed` | src/engine.cpp:3637-3703 | Removing an item with everything below it leaves a well-formed document. |
| `Cascade.SubtreeBack` | src/engine.cpp:1594-1646 | A removed subtree put back as one batch, in any order, restores the document, lists included. |
| `Cascade.UndoCascade` | src/engine.cpp:3652-3689 | The inverse of one lone cascading removal restores the document, whatever order its children were collected in. |
| `Reachability.ActedLeads` | src/engine.cpp:3515-3998 | One request, joint update or cascading removal keeps the document well formed, and the engine's own replay goes there and that of the inverse back: always, but for a joint update exactly when the way to the new owner is clear. |
| `Reachability.ReachedIsWellFormed` | src/engine.cpp:380-467 | Every document reached from the empty one, mixing requests, joint updates and cascading removals, is well formed, and each step can be replayed both ways exactly when it is not a joint update whose way is not clear. |
| `Reachability.ReachedMeans` | src/engine.cpp:667-812 | There parents exist and chains end, a list holds an item at position i exactly when the item has that association and position i, lists have no duplicates, and no two items of one scope share a unique value. |
| `Restore.SomeoneCanBeRestored` | src/engine.cpp:3107-3129 | While anything waits to be restored, some item has its parent there and its list long enough. |
| `Restore.RestoreRebuilds` | src/engine.cpp:3107-3129 | Whatever order the items of a well-formed document are written in, the retry loop makes progress in every pass, ends, and rebuilds the same items and lists. |
| `Orphans.ForestIff` | src/engine.cpp:639-665 | All chains of parents reach a root exactly when none goes round and every parent is there. |
| `Orphans.OrphansGetStuck` | src/engine.cpp:3107-3129 | While an item waits whose chain of parents reaches no root, the passes end with nothing restored. |
| `Orphans.RestoreIff` | src/engine.cpp:3107-3129 | For every document that is well formed but for its parents, and every order of its items, the passes rebuild it exactly when all chains of parents reach a root, and get stuck otherwise. |
| `Orphans.RemovedAtRestoresIff` | src/engine.cpp:3107-3129 | A document that an item was removed from by position can be restored from its snapshot exactly when nothing hung below the item. |
| `CountingSort.BucketsStable` | src/engine.cpp:1492-1507 | A counting pass keeps the members of each bucket in their order. |
| `CountingSort.BucketsPermute` | src/engine.cpp:1492-1507 | A counting pass loses and doubles nothing. |
| `CountingSort.CountOffsets` | src/engine.cpp:1492-1502 | The summed-up counts are where each bucket begins. |
| `CountingSort.Scatter` | src/engine.cpp:1503-1507 | Writing each position into the next free place of its bucket gives the buckets one after the other. |
| `RadixSort.PassSorts` | src/engine.cpp:1492-1507 | A stable pass by byte k sorts by the lowest k + 1 bytes what was sorted by the lowest k. |
| `RadixSort.SortByRadix` | src/engine.cpp:1492-1508 | Eight passes give a permutation ordered by 64-bit id. |
| `RadixSort.OneOrderById` | src/engine.cpp:1481-1508 | With distinct ids there is one such order, so both branches of the sort agree. |
| `RadixSort.SortPositionsById` | src/engine.cpp:1481-1508 | Whichever branch is taken, a permutation of the positions ordered by id. |
| `BatchOrder.VisitComplete` | src/engine.cpp:1566-1584 | A finished breadth-first visit has met all positions exactly when the parent links are acyclic. |
| `BatchOrder.Visit` | src/engine.cpp:1566-1584 | The visit gives every position once with parents first exactly when the links are acyclic, and otherwise comes out short. |
| `BatchOrder.FormFamilies` | src/engine.cpp:1514-1564 | Counting and lining up gives each position the family of its children, ordered by id when the schema lets them be. |
| `BatchOrder.OnlyOrder` | src/engine.cpp:1510-1592 | The order is determined by the batch: any two runs of the algorithm agree. |
| `BatchOrder.OrderMeans` | src/engine.cpp:1564-1592 | Of any two positions: those without a parent in the batch come first and as they came, the others in the turn of their parents, and siblings by id, or as they came if unique values may clash. |
| `BatchOrder.OrderByParent` | src/engine.cpp:1510-1592 | A permutation of the batch with every in-batch parent before its children whenever the links are acyclic, and the batch unchanged when they are not. |
| `ListRefresh.SettleMembers` | src/engine.cpp:1365-1470 | Settling loses and doubles no member: the list and what is left hold what there was. |
| `ListRefresh.ErasedAll` | src/engine.cpp:1278-1297 | Rewriting only the lists that lost someone, and then dropping the items, is erasing all of them. |
| `ListRefresh.InsertedAll` | src/engine.cpp:1640-1645 | Writing only the planned lists and their positions gives every item of the document the position its list gives it. |
| `SmoothReplay.FaithfulIsSmooth` | src/engine.cpp:1738-1813 | Change sets whose changes describe the documents they meet keep the engine's lists in order throughout the replay. |
| `SmoothReplay.CascadeUndoIsSmooth` | src/engine.cpp:1738-1813 | So does the inverse of a lone cascading removal. |
| `SmoothReplay.TryEachStuck` | src/engine.cpp:1796-1812 | A retry pass that applies nothing leaves the document as it is, and nothing of what waits can be applied to it. |
| `SmoothReplay.DrainMeans` | src/engine.cpp:1796-1812 | The retries come to an end: all late changes are applied, in some order, or some are left of which none can be applied any more. |
| `SmoothReplay.UpdatesReplay` | src/engine.cpp:1738-1813 | A change set of updates is replayed one after the other, and the first refused one ends the replay. |
| `Subtrees.UnderOneChild` | src/engine.cpp:3661-3672 | Where no chain of parents goes round, nothing is below two children of one item at once. |
| `Subtrees.CollectedAll` | src/engine.cpp:3661-3672 | The root followed by the collected subtrees of its children is the whole subtree, each item once. |
| `Subtrees.ChildIsSmaller` | src/engine.cpp:3661-3672 | The recursion goes down to a smaller subtree, so it ends. |
| `Subtrees.ForestHasNoRounds` | src/engine.cpp:639-665 | In a document whose chains of parents all end at roots, none goes round, so what a removal asks is met. |
| `Subtrees.EraseMakesNoRounds` | src/engine.cpp:1232-1238 | Erasing an item, with orphans left or not, makes no chain of parents go round. |
| `Engine.DocumentEngine.RefreshListIndexes` | src/engine.cpp:380-395 | Every item of the list behind the start gets its position, and no other item changes. |
| `Engine.DocumentEngine.RemoveFromListGroup` | src/engine.cpp:418-441 | The document loses the item from its list, found by its cached position or else by search; no other list changes. |
| `Engine.DocumentEngine.InsertIntoListGroup` | src/engine.cpp:443-456 | Refused exactly when the position is out of range, and then the document is as before; otherwise the item stands there. |
| `Engine.DocumentEngine.MoveAndStore` | src/engine.cpp:458-467 | The stored item is replaced and moves between lists if its membership changed; a refused move has left the old list already. |
| `Engine.DocumentEngine.InsertSnapshot` | src/engine.cpp:1222-1230 | Stores exactly what validation and the list accept, and otherwise leaves the document as it was. |
| `Engine.DocumentEngine.EraseSnapshot` | src/engine.cpp:1232-1238 | The document without the item, and only its own list changed. |
| `Engine.DocumentEngine.RotateListGroup` | src/engine.cpp:1718-1734 | The document with that part of the list rotated, negative offsets included. |
| `Engine.DocumentEngine.ApplyOperation` | src/engine.cpp:1663-1736 | Fails exactly when the change cannot be applied to the document, and otherwise gives the document the change leads to; a refused update leaves the document as it was, or the item out of its list if only the new position was out of range. |
| `Engine.DocumentEngine.EraseSnapshots` | src/engine.cpp:1250-1302 | The in-place erasure of many items gives the document without them, lists and positions included. |
| `Engine.DocumentEngine.AcceptPending` | src/engine.cpp:1614-1639 | Stores all waiting snapshots or rolls every one of them back. |
| `Engine.DocumentEngine.InsertItemSnapshots` | src/engine.cpp:1594-1646 | Refuses exactly when the plan or the passes fail and then changes nothing; otherwise it leaves the document of the batch. |
| `Engine.DocumentEngine.TryChanges` | src/engine.cpp:1754-1760 | Each insertion in turn, with just those that fail kept for later. |
| `Engine.DocumentEngine.DrainPending` | src/engine.cpp:1796-1812 | Retries what waits until all of it is applied, or fails exactly when a round applies nothing. |
| `Engine.DocumentEngine.ApplyChangeSet` | src/engine.cpp:1738-1813 | The replay with its batches, fallbacks and retries computes the document that the replay of the change set comes to; a change set of updates that fails stays applied up to the first refused one. |
| `Engine.DocumentEngine.Collect` | src/engine.cpp:3661-3673 | Collects the item and exactly everything below it, once each, the item first. |
| `Engine.DocumentEngine.RestoreSnapshot` | src/engine.cpp:3107-3129 | Forgets the old document and ends exactly as the restore passes do. |
| `Journals.SaveItem` | src/engine.cpp:258-269 | Saving an item at its first touch keeps the promise that restoring gives the beginning. |
| `Journals.SaveGroup` | src/engine.cpp:271-286 | The same for a list, one that did not exist included. |
| `Journals.Touch` | src/engine.cpp:297-316 | Changing only what was saved keeps that promise. |
| `Journals.RestoredIsBegin` | src/engine.cpp:318-339 | Restoring gives back every list exactly and every item up to its cached position. |
| `Journals.RestoredExactlyIff` | src/engine.cpp:318-339 | The cached positions come back too exactly when each restored list finds its members with their positions, saved or untouched. |
| `Journals.LoneInsertExactIff` | src/engine.cpp:318-339 | A lone insertion into a list is taken back exactly when it went to the end. |
| `Journals.LoneRemovalExactIff` | src/engine.cpp:318-339 | A lone removal from a list is taken back exactly when it was of the last member. |
| `Journals.LoneRotationExactIff` | src/engine.cpp:318-339 | A lone rotation is taken back exactly when it moved nothing. |
| `Transactions.Transaction.RestoreJournal` | src/engine.cpp:318-339 | Every saved item and list is as it was saved, missing ones missing, and the others stay as they are. |
| `History.Invert` | src/change.cpp:199-211 | The inverses, last change first; what it inserts again is something the change set removed. |
| `History.WalkOn` | src/engine.cpp:3515-3998 | A transaction whose change set leads from its beginning to here and back still does so after one more request. |
| `History.WalksLead` | src/engine.cpp:4038-4060 | Then the engine's batched replay of the change set and of its inverse leads there and back too. |
| `History.CascadeLeads` | src/engine.cpp:3637-3703 | The change set of one lone cascading removal leads there and back. |
| `Transactions.Transaction.MarkFailed` | src/engine.cpp:627-637 | At any point of any transaction, giving up restores all lists, and all items up to cached positions; fully exactly when the journal is exactly restorable. |
| `Transactions.RollbackLeavesPositions` | src/engine.cpp:318-339 | The concrete failure, through a transaction: it inserts at the front of a list of one and fails; the list is as before, but the member keeps the position it was pushed to. |
| `Transactions.Transaction.Insert` | src/engine.cpp:3515-3556 | Stores just the item with the given container, parent and values and leaves all other items and every list; from sound items it succeeds exactly when the container is a table, every value is of a column and its type, no required one is missing, the parent is there in the right container, and no other item of the scope has a unique value. It is recorded and stays recoverable; a failure gives the transaction up. |
| `Transactions.Transaction.InsertAtPosition` | src/engine.cpp:3558-3635 | The same for a list: the list becomes what stood before the index, the item and what stood from it on, other lists stay, and other items stay up to positions; an index out of range is refused. |
| `Transactions.Transaction.Update` | src/engine.cpp:3757-3845 | Sets just the one cell, null taking it away, and leaves all else; from sound items it succeeds exactly when the item and column exist, the value is of the type or may be null, and no other item of the scope has it where it must be unique. |
| `Transactions.Transaction.UpdateParent` | src/engine.cpp:3757-3845 | Moves the item out of its old list and into the new one at the target position, and leaves its values, other lists, and other items up to positions; from sound items it succeeds exactly when the position is in range, the new parent is there in the right container and not below the item, and no item of its scope has one of the item's unique values. |
| `Transactions.Transaction.UpdateColumns` | src/engine.cpp:3847-3947 | Several columns checked together: succeeds exactly when the joint update is accepted, and its changes lead there and back exactly when each new value given before the move is free under the old owner and each old value replaced after it is free under the new one. |
| `JointUpdates.JointLeadsIff` | src/engine.cpp:1086-1109 | A joint update's changes can be replayed exactly when the way is clear in the document before it, and its inverse from the document after it exactly then: no other item under the old owner has a unique value that is given before the move, and none under the new owner one that is replaced after it. |
| `JointUpdates.ForwardIff` | src/engine.cpp:1738-1813 | From any half-way document on, the remaining edits can be replayed exactly when no half-way item still to come shares a unique value with another item of its scope. |
| `JointUpdates.BackwardSits` | src/engine.cpp:1738-1813 | If the edits can be taken back one by one, no half-way item on the way clashes. |
| `JointUpdates.StuckUndoLeaves` | src/engine.cpp:3160-3175 | An undo that gets stuck leaves a well-formed document in which the last edits are taken back, exactly as far as the half-way item clashes with no other one. |
| `JointUpdates.JointReplayedIff` | src/engine.cpp:1738-1813 | The engine's own replay, and its own undo, of a joint update succeed exactly when the way is clear, and then they lead to the document after it and back to the one before. |
| `JointUpdates.PlainJointLeads` | src/engine.cpp:3847-3947 | If it leaves the relation column alone that is always so. |
| `JointUpdates.JointMoveIsStuck` | src/engine.cpp:3847-3947 | The concrete failure: an item moves to an owner where its old code is taken and takes a new code; together that is accepted, but it can neither be replayed nor undone. |
| `Transactions.Transaction.RotateAt` | src/engine.cpp:3949-3998 | Succeeds exactly when the range is within the list, and turns it left by the offset, counted round; other lists stay, and items up to positions. |
| `Transactions.Transaction.Remove` | src/engine.cpp:3637-3712 | Removes exactly the items whose chain of parents comes by the item, in documents with orphans too, leaves the others up to positions, and records one removal and, for each item below, a cascaded one with its ancestor; in a transaction of its own, its change set leads there and back. |
| `Transactions.Transaction.RemoveAtPosition` | src/engine.cpp:3714-3755 | Takes just the item at the index out of the list and the items, whatever hangs below it, makes no chain of parents go round, and leaves the transaction active when the index is out of range. |
| `Transactions.RemoveAtKeepsWellFormedIff` | src/engine.cpp:3714-3755 | Because `removeAt` does not cascade, it keeps the document well formed exactly when the item has no children. |
| `Transactions.RemoveAtLeavesAnOrphan` | src/engine.cpp:3714-3755 | The concrete failure: a list member with one item below it, removed by position. |
| `Transactions.Transaction.Rollback` | src/engine.cpp:4038-4060 | Rolling an active transaction back restores the document it began with, if its change set leads back; after a failure it changes nothing more; and when the replay itself fails, what was saved is as it was saved. |
| `UndoHistories.UndoHistory.Commit` | src/engine.cpp:1815-1850 | Makes an undo step of every change set of one change and of every one that is not of inserted table rows alone, none of the empty one and of several rows alone; a step clears the redo stack, and every step on the stacks keeps leading from document to document. |
| `UndoHistories.CommitThenUndo` | src/engine.cpp:3160-3189 | A performed request committed by itself, a single inserted row too, is undone to exactly the document before it. |
| `UndoHistories.UndoHistory.Undo` | src/engine.cpp:3160-3189 | With steps that lead from document to document, goes back to exactly the one before the last step, which can then be redone. An undo that fails leaves the stacks as they were; a step of updates fails exactly when its inverse cannot be replayed, and then stays taken back up to the refused update. |
| `UndoHistories.UndoHistory.Redo` | src/engine.cpp:3191-3219 | Likewise forward: to exactly the document after the step undone last, which can then be undone again; a failed redo leaves the stacks as they were, and a step of updates stays replayed up to the refused update. |
| `UndoHistories.UndoneUnderRowsIff` | src/engine.cpp:1815-1847 | When commits that make no step put rows below a row, undoing that row's insertion leaves a well-formed document exactly when none hangs below it. |
| `Codec.ValueLaws` | src/change_log.cpp:319-362 | Reading a written value gives it back, and every accepted value has only the bytes writing gives. |
| `Codec.ItemSnapshotLaws` | src/change_log.cpp:413-468 | The same for item snapshots with their optional fields and column values. |
| `Codec.OperationLaws` | src/change_log.cpp:65-174 | Reading a written operation of any of the eight kinds gives it back, and every accepted one has only the bytes writing gives. |
| `Codec.SerializedReadsBack` | src/change_log.cpp:470-511 | Deserialising a serialised change set with links in range gives it back. |
| `Codec.AcceptedIsCanonical` | src/change_log.cpp:470-511 | Whenever deserialising succeeds, serialising the result gives the same bytes, and its links are in range. |
| `Codec.ReadableIff` | src/change_log.cpp:470-511 | The bytes of a change set value can be read exactly when its links are in range. |
| `LogFormat.UInt64Written` | src/change_log.cpp:195-200 | A number is written as its eight bytes, low one first. |
| `LogFormat.ValueWritten` | src/change_log.cpp:319-340 | A value is written as its type's number 0 to 6 and its bytes: two's complement for signed numbers, the length before strings and bytes. |
| `LogFormat.ItemWritten` | src/change_log.cpp:413-439 | An item is written as id, kind, container, parent, variant, cells, list value and position, with a flag before what may be missing. |
| `LogFormat.OperationWritten` | src/change_log.cpp:65-111 | An operation is written as its kind's number 0 to 7 and its fields in their order. |
| `LogFormat.FileWritten` | src/change_log.cpp:470-485 | A file is the eight bytes of the magic, version 2, the number of operations and they, the number of links and they. |
| `LogFormat.FileRead` | src/change_log.cpp:487-511 | Bytes are read as a change set exactly when they are its file and its links are in range. |
| `LogFormat.ItemsInFiles` | src/change_log.cpp:113-174 | The files of an insertion (kind 0), a removal (1) and a cascaded removal (4), byte by byte, written and read. |
| `LogFormat.UpdatesInFiles` | src/change_log.cpp:113-174 | The same of an update (2) and a computed update (3). |
| `LogFormat.ListsInFiles` | src/change_log.cpp:113-174 | The same of a list insertion (5) and a list removal (6). |
| `LogFormat.RotationInFile` | src/change_log.cpp:113-174 | The same of a rotation (7), with a negative offset. |
| `ChangeLog.BinaryWriter.WriteUInt` | src/change_log.cpp:188-200 | The loop that appends bytes little end first writes the number's encoding and touches nothing before it. |
| `ChangeLog.BinaryWriter.WriteItemSnapshot` | src/change_log.cpp:413-439 | Appends exactly the encoding of the snapshot. |
| `ChangeLog.BinaryWriter.WriteOperation` | src/change_log.cpp:65-111 | Appends exactly the encoding of the operation. |
| `ChangeLog.SerializeChangeSet` | src/change_log.cpp:470-485 | The writer's bytes are the encoding the laws are about. |
| `ChangeLog.BinaryReader.ReadUInt` | src/change_log.cpp:256-272 | The shifting loop reads the encoded number and advances past it, or fails when bytes are missing. |
| `ChangeLog.BinaryReader.ReadItemSnapshot` | src/change_log.cpp:441-468 | Reads what the grammar reads, fails exactly when it fails, and stops where it stops. |
| `ChangeLog.BinaryReader.ReadOperation` | src/change_log.cpp:113-174 | The same for operations; an unknown kind is refused. |
| `ChangeLog.BinaryReader.ReadLinks` | src/change_log.cpp:487-511 | The same for links, each checked against the operations read. |
| `ChangeLog.DeserializeChangeSet` | src/change_log.cpp:487-511 | Accepts exactly the byte strings of the grammar, trailing bytes refused. |
| `ChangeSets.LinkedChanges.constructor` | src/change.cpp:152-154 | A change set made of operations has no links, so all are in range. |
| `ChangeSets.LinkedChanges.Append` | src/change.cpp:184-188 | Appends the operation and keeps every link in range. |
| `ChangeSets.LinkedChanges.AddDerivedLink` | src/change.cpp:190-197 | Takes a link exactly when it is between operations that are there, so all links stay in range. |
| `ChangeSets.LinkedChanges.Serialize` | src/change.cpp:213-216 | What any change set object writes reads back as that change set. |
| `ChangeSets.MergeAll` | src/change.cpp:223-313 | Merging change set objects gives an object with links in range again, with the contents of the merge. |
| `Logs.SaysOne` | src/change_log.cpp:65-174 | An operation of the log stands for one change of a document only. |
| `Logs.InverseSays` | src/change.cpp:44-114 | The inverse of the operation stands for the inverse of the change. |
| `Logs.InversesSay` | src/change.cpp:199-211 | The inverted operations, last first, stand for the inverted changes. |
| `Logs.LogDetermines` | src/change_log.cpp:470-511 | What was recorded, written to the log and read back stands for exactly the changes that were recorded, and so is replayed to the same document. |
| `Merges.MergedStays` | src/change.cpp:243-291 | Operations that are merged already are left as they are by merging them again. |
| `Merges.MergeOpsAgain` | src/change.cpp:243-291 | Merging a merged front part with what follows gives the operations of merging everything, and maps the later sources alike. |
| `Merges.MergedInRange` | src/change.cpp:223-313 | All links of a merged change set are in range and distinct, and no two of its operations update the same column. |
| `Merges.MergedPlaces` | src/change.cpp:243-291 | Every source operation is in the merged operation it is mapped to, itself or joined with updates of its column, and every merged operation has a source. |
| `Merges.OperationStands` | src/change.cpp:228-232 | All operations stand one change set after the other. |
| `Merges.MergedLinksMean` | src/change.cpp:293-313 | The merged links are just those of the sources, each from the merged operation of its own source end to that of its own derived end. |
| `Merges.MergeIncrementally` | src/change.cpp:223-313 | Merging the merge of a prefix with the next change set equals merging all at once, operations and links alike. |
| `Merges.MergeTwice` | src/change.cpp:223-313 | Merging a merged change set changes nothing. |
| `Merges.EffectKept` | src/change.cpp:243-291 | For every stream and whatever the values before it, the merged stream leaves the same values exactly when, for each cell updated both as a plain and as a computed column, the kind that begins later also ends later or both end with one value. |
| `Merges.EffectKeptAt` | src/change.cpp:243-291 | The same of one cell: it comes out with the value the stream gives it exactly when that holds of the cell. |
| `Merges.OneKindKept` | src/change.cpp:243-291 | So streams that update each column as one kind always keep their effect. |
| `MergedUpdates.UpdateAtOnce` | src/engine.cpp:1086-1109 | If a document differs from another one in an item that has moved or has one new value, one update of the item leads from one to the other, list positions included. |
| `MergedUpdates.TogetherGoes` | src/change.cpp:247-263 | A run of updates of one cell of one item, moves between and within lists included, leads where its merged update leads. |
| `MergedUpdates.UpdateTakenBack` | src/change.cpp:44-114 | An update or a move that records the old side it meets is taken back exactly by its inverse. |
| `MergedUpdates.MergedRunLeads` | src/change.cpp:243-291 | Merging such a run of operations leaves one operation, which leads from the document before the run to the one after it and back, with the same items, lists and positions. |
| `Merges.OldSideKept` | src/change.cpp:243-291 | The merged update of a column keeps the first update's old value and old position. |
| `Merges.MixedKindsDiffer` | src/change.cpp:243-291 | The concrete failure: a column updated both as a plain and as a computed one comes out with another final value. |
| `Merges.FindMerged` | src/change.cpp:248-282 | The search finds the first update of the same item, column and kind, or the end. |
| `Merges.Flatten` | src/change.cpp:225-241 | All operations in order, and all links moved behind the operations before them. |
| `Merges.MergeOperations` | src/change.cpp:243-291 | The loop computes the merged operations and where each source operation went. |
| `Merges.AddLinks` | src/change.cpp:298-310 | Each link where its operations went, once. |
| `Merges.MergeChangeSets` | src/change.cpp:223-313 | The in-place merge computes the merge the laws are about. |
| `KdTrees.BoxTestsExact` | src/support/runtime_index.cpp:342-386 | For all six operators, the outside test says exactly that no value of the box satisfies the constraint, the inside test that all do. |
| `KdTrees.Build` | src/support/runtime_index.cpp:744-786 | The recursive build ends and gives a tree over exactly those points, each node with the exact box of its points. |
| `KdTrees.TestBox` | src/support/runtime_index.cpp:800-810 | The node's flags say whether some constraint rules the box out, and whether all of them take it whole. |
| `KdTrees.Visit` | src/support/runtime_index.cpp:796-834 | The pruned visit finds every match of the subtree and nothing else among points that carry all constrained fields; it finds all when the box lies inside, and none when it lies outside. |
| `KdTrees.ContainerRangeIndex.Add` | src/support/runtime_index.cpp:690-706 | The container gains or replaces the point, unless it has no numeric field; other containers stay. |
| `KdTrees.ContainerRangeIndex.Remove` | src/support/runtime_index.cpp:708-719 | The container loses the point and nothing else. |
| `KdTrees.ContainerRangeIndex.Query` | src/support/runtime_index.cpp:721-837 | After any interleaving of additions, removals and queries: every match, nothing else among points that carry all constrained fields, every point when the constraints hold on the whole spans of their fields, and none when a constrained field is missing everywhere. |
| `KdTrees.ExactIff` | src/support/runtime_index.cpp:796-834 | Queries about some fields give exactly the matches, whatever they ask of them, exactly when every point carries all these fields or one of them is carried by none. |
| `KdTrees.IncompletePointComesThrough` | src/support/runtime_index.cpp:811-814 | The concrete failure, through the index: of two points one has no constrained field, and the query gives both. |
| `Tallies.SumWithout` | src/support/runtime_index.cpp:218-237 | A sum over items does not depend on the item one begins with. |
| `Tallies.SumsOfNumbers` | src/support/runtime_index.cpp:253-309 | A sum without items is zero, and one more item adds its number, signed or unsigned. |
| `Tallies.AddedTells` | src/support/runtime_index.cpp:253-264 | Adding a value keeps a bucket's count, sum and value multiplicities those of its items, nulls included; the sum stays an integer as long as only integers of one type come. |
| `Tallies.RemovedTells` | src/support/runtime_index.cpp:266-286 | So does removing one, and the bucket is empty exactly when its last item went. |
| `Tallies.MergedTells` | src/support/runtime_index.cpp:296-309 | Buckets of disjoint items merge into the bucket of all of them. |
| `Tallies.Extreme` | src/support/runtime_index.cpp:288-294 | The first or last key of the values is the least or greatest value, null before all others, and null without any. |
| `IndexStores.PutHolds` | src/support/runtime_index.cpp:504-508 | Adding an entry keeps the buckets those of the items. |
| `IndexStores.TakeHolds` | src/support/runtime_index.cpp:510-520 | Taking one out does too, with an empty bucket dropped. |
| `IndexStores.BucketsDetermined` | src/support/runtime_index.cpp:504-520 | Buckets that hold the same items are equal, however they came about. |
| `IndexStores.QueryBuckets` | src/support/runtime_index.cpp:522-566 | A query of the buckets gives exactly the items whose value compares as asked, for all six operators. |
| `IndexStores.RuntimeIndexStore.AddItem` | src/support/runtime_index.cpp:1310-1374 | All indexes together, the interval and ordered ones included, come to stand for the rows with the new one. |
| `IndexStores.RuntimeIndexStore.RemoveItem` | src/support/runtime_index.cpp:1376-1481 | Given the stored row, all indexes come to stand for the rows without it. |
| `IndexStores.UntouchedStays` | src/support/runtime_index.cpp:421-478 | An update that the early exit lets pass changes nothing that any index holds, the columns of interval and ordered indexes included. |
| `IndexStores.RuntimeIndexStore.UpdateItem` | src/support/runtime_index.cpp:1483-1492 | With or without the early exit, the indexes come to stand for the updated rows. |
| `IndexStores.RuntimeIndexStore.ContainerItems` | src/support/runtime_index.cpp:1494-1498 | Exactly the items of the container. |
| `IndexStores.RuntimeIndexStore.QueryItemIds` | src/support/runtime_index.cpp:135-174 | Exactly the ids that compare as asked. |
| `IndexStores.RuntimeIndexStore.QueryField` | src/support/runtime_index.cpp:1500-1516 | Exactly the items of the container whose field compares as asked. |
| `IndexStores.RuntimeIndexStore.QueryRange` | src/support/runtime_index.cpp:1518-1522 | The answers of the range index, for the points that the rows have. |
| `IndexStores.RuntimeIndexStore.QueryInterval` | src/support/runtime_index.cpp:1524-1534 | What a scan of the container's items finds for the interval index, after any run of updates. |
| `IndexStores.RuntimeIndexStore.Neighbour` | src/support/runtime_index.cpp:1583-1603 | The same of stored items: the previous (next) one of the group has the nearest lesser (greater) order columns, first one first, and then the nearest id. |
| `IndexStores.RebuildWithout` | src/engine.cpp:1264-1271 | Indexes of the survivors, built from nothing, stand for the rows without the removed ones. |
| `IndexStores.RemoveEach` | src/engine.cpp:1272-1277 | So do the indexes from which the removed rows are taken one by one. |
| `IndexStores.EraseItems` | src/engine.cpp:1264-1301 | So both branches of a large erasure leave indexes of the same rows. |
| `Aggregations.RightIsUnique` | src/view.cpp:388-443 | Results that are right are equal, so however two of them were computed they agree. |
| `Aggregations.MeansOfTwo` | src/view.cpp:388-443 | Of two numbers the four kinds come to two, their sum, the smaller and the greater. |
| `Aggregations.Fold` | src/view.cpp:388-443 | The fallback loop gives each group that has rows what folding its values in order comes to. |
| `Aggregations.FoldMeansIff` | src/view.cpp:398-419 | Folding values comes to their number or greatest value always, to their least one exactly when no null stands before a last value that is none, and to their integer sum exactly when all are integers of one type. |
| `Aggregations.FoldAgreesIff` | src/view.cpp:388-443 | Right results equal the fallback's exactly when every group folds right in that sense. |
| `Aggregations.IntegersFoldRight` | src/view.cpp:398-419 | On columns that hold nothing but integers of one type every group folds right, for all four kinds. |
| `Aggregations.NullMinimaDiffer` | src/view.cpp:408-412 | The concrete failure, through both: for a null before a 5 the indexed minimum is null and the folded one 5. |
| `Aggregations.AggregateAll` | src/support/runtime_index.cpp:1656-1740 | The ungrouped answer from the buckets is right, nulls counted as least; a sum if no value but integers of the type was ever in the column. |
| `Aggregations.CountByParent` | src/support/runtime_index.cpp:1656-1700 | Counts by parent from the parent counts are right. |
| `Aggregations.AggregateByParent` | src/support/runtime_index.cpp:1656-1740 | Sums and extremes by parent from the group buckets are right in the same sense. |
| `Aggregations.BucketValue` | src/support/runtime_index.cpp:311-317 | A bucket that tells of some items gives their sum, least or greatest value. |
| `Aggregations.CountUnder` | src/support/runtime_index.cpp:1634-1654 | The count over distinct parents is the number of rows below one of them. |
| `Aggregations.AggregateUnder` | src/support/runtime_index.cpp:1742-1853 | The merged buckets of distinct parents tell what the rows below them come to, and nothing exactly when there are none. |
| `Aggregations.CountUnderEach` | src/support/runtime_index.cpp:1761-1789 | Grouped by the chosen parents, the counts are right for the rows below them. |
| `Aggregations.AggregateUnderEach` | src/support/runtime_index.cpp:1824-1838 | So are sums and extremes. |
| `ParentSelection.AppendUnique` | src/engine.cpp:2169-2177 | The values gain the one value and stay without repetitions. |
| `ParentSelection.SelectionFor` | src/engine.cpp:2179-2227 | Finds a selection exactly when the filter is a choice among parents of one relation, and then the filter matches exactly the items below a selected parent. |
| `ParentSelection.CountSelected` | src/engine.cpp:2972-2978 | The counter of a hinted view counts the matching items less the offset, up to the limit, as the query would emit. |
| `ParentSelection.AggregateSelected` | src/engine.cpp:2979-2992 | The view's hinted sum or extreme is that of exactly the matching rows, and there is none exactly when nothing matches. |
| `ParentSelection.AggregateSelectedEach` | src/engine.cpp:2979-2992 | Grouped by the same relation, the view's hinted results are right for the matching rows. |
| `Queries.NormalizeMatches` | src/engine.cpp:2074-2111 | Pushing negation inward keeps what every expression matches, for every item, variant-specific columns included. |
| `Queries.NormalizeIsNormal` | src/engine.cpp:2074-2111 | Afterwards negation stands only before leaves whose field need not apply. |
| `Queries.FoundMatches` | src/engine.cpp:2508-2524 | What matches even if negations without an index held of nothing is a match, and it is every match when no negation lacks an index. |
| `Queries.LeafMeans` | src/engine.cpp:1853-1909 | A filter compares the id, the number of the variant, or the cell, null where there is none; a column of a variant matches on its items only. |
| `Queries.EqualitiesHold` | src/engine.cpp:2327-2355 | A matching item has all the values that the collected equalities say. |
| `Queries.GroupKeyHolds` | src/engine.cpp:2357-2370 | A group key taken from equalities that an item satisfies is the key of that item, with no null in it. |
| `Queries.LastBoundHolds` | src/engine.cpp:2453-2471 | A matching item satisfies the bound that the probe takes. |
| `Queries.MatchOverlaps` | src/engine.cpp:2429-2477 | A matching item with a valid interval overlaps a valid probe in its group. |
| `Queries.IntervalShortcutIff` | src/engine.cpp:2429-2477 | The interval shortcut finds every match exactly when nothing matches, or the probe is valid and every match has an interval that begins before it ends. |
| `Queries.PlainShortcutIff` | src/engine.cpp:2429-2477 | For conjunctions that ask only the group and the bounds: exactly when no row of the group meets both bounds, or the probe is valid and each row that does has a valid interval. |
| `Queries.SameComparison` | src/support/runtime_index.cpp:319-340 | On integers of one type the row filter and the range index compare alike. |
| `Queries.MatchInRange` | src/engine.cpp:2529-2534 | A match whose constrained columns are integers of the filters' types is a point that satisfies all constraints. |
| `Queries.RangeShortcutIff` | src/engine.cpp:2529-2534 | The range shortcut is sure of every match exactly when every match has, in each column asked about, an integer that stands to the filter's as asked, both taken as numbers. |
| `Queries.DirectAnswers` | src/engine.cpp:2479-2495 | The index of a directly indexed field answers exactly what the row filter matches. |
| `QueryExecution.OnlyAscending` | src/engine.cpp:2719-2726 | Sifting ids in ascending order gives the kept ids in ascending order. |
| `QueryExecution.AscendingAscends` | src/engine.cpp:2719-2726 | Each id of the set stands once, before all greater ones. |
| `QueryExecution.AscendingRank` | src/engine.cpp:2719-2726 | Before an id stand as many ids as are smaller. |
| `QueryExecution.SliceSize` | src/engine.cpp:2228-2236 | The count with offset and limit is the length of the slice. |
| `QueryExecution.QueryEngine.LeafCandidates` | src/engine.cpp:2479-2495 | A leaf has candidates exactly when its field is directly indexed, and they are exactly its matches. |
| `QueryExecution.QueryEngine.IntervalCandidates` | src/engine.cpp:2429-2477 | The interval shortcut is taken exactly when some index has a probe for the conjunction, and gives just the rows with a valid interval in the group that a valid probe overlaps. |
| `QueryExecution.QueryEngine.RangeCandidates` | src/engine.cpp:2529-2534 | The range shortcut is taken exactly for a conjunction of declared ranges, and gives every point that satisfies them, and no other point that has all their columns. |
| `QueryExecution.QueryEngine.Candidates` | src/engine.cpp:2497-2566 | For every normalised expression: candidates exactly when some index says something of it, and they are what its parts keep: probes what they overlap, ranges their points, conjunctions what all parts keep, disjunctions what any part keeps, and negations nothing where their own expression has no candidates. |
| `QueryExecution.QueryEngine.Emit` | src/engine.cpp:2606-2632 | The emitting loop gives the slice of the matching ids in the order they come. |
| `QueryExecution.QueryEngine.Execute` | src/engine.cpp:2598-2726 | The unsorted table query of any expression emits ids strictly ascending, each with just offset and its own place of smaller ids shown before it, as many as offset and limit leave; shown are the matches that are kept: exactly those where the points of the ranges asked are complete. With safe shortcuts and no lost negation that is every match, so the naive filter. |
| `QueryExecution.FoundIsKept` | src/engine.cpp:2497-2566 | With safe shortcuts every match that does not hang on a negation without an index is kept. |
| `QueryExecution.UnproposedIsKept` | src/engine.cpp:2536-2566 | An expression that no index says anything of keeps every item. |
| `QueryExecution.ExactIsTight` | src/engine.cpp:2529-2534 | Where every point has a number in each column of a range, or none has one in some column, nothing comes along with what is kept. |
| `QueryExecution.ShownRightIff` | src/engine.cpp:2598-2726 | Every slice of what is shown is the slice of the matches exactly when every match is kept. |
| `QueryExecution.NegatedUnindexedColumn` | src/engine.cpp:2508-2524 | The concrete failure, through the query: a negated variant column that only groups an interval index may be asked, an item matches, and nothing comes out. |
| `QueryExecution.LostExactIff` | src/engine.cpp:2508-2524 | Nothing is the right answer to every negated filter of a column exactly when the container is empty. |
| `QueryExecution.LostFilterExactIff` | src/engine.cpp:2508-2524 | Nothing is the right answer to one negated filter, whatever the slice, exactly when every item has the variant and satisfies the filter. |
| `QueryExecution.ReversedProbeFindsNothing` | src/engine.cpp:2472-2474 | The concrete failure, through the query: a stored interval meets both bounds of a reversed probe, and nothing comes out. |
| `QueryExecution.NullStartFindsNothing` | src/support/runtime_index.cpp:1234-1245 | The concrete failure, through the query: an item without a start matches both bounds of a valid probe, and nothing comes out. |
| `QueryExecution.NullBelowBoundFindsNothing` | src/support/runtime_index.cpp:690-706 | The same of a range: an item without a number is below the bound, and nothing comes out. |
| `QueryExecution.MixedTypesFindNothing` | src/support/runtime_index.cpp:319-340 | And of a signed number and an unsigned bound: the filter goes by their types, the range index by the numbers, and nothing comes out. |

## Left out

- Hooks, subscriptions, events and the pending source they may change: arbitrary callbacks.
- Shared data pointers, handles and validity of handles: value plumbing.
- Schema builders and schema checks: a frozen, valid schema is a parameter.
- Computed columns, defaults and check predicates: per-column steps beside the core. Variants are modelled in the indexes and the queries, not in the document.
- Generation of ids and the clock: new ids are taken to be fresh, and below 2 to the 64th where they are sorted.
- Several relations in one container: only the last becomes the parent, so documents have one relation per container.
- Doubles: kept as opaque 64-bit patterns in an arbitrary but total order; NaN, signed zero and the `long double` coordinate of a double are not modelled. Sums are mathematical integers, and a sum that turns into a double is known only as such.
- The hash behind treap priorities: any function from entries to priorities.
- Sorted queries, queries of lists, and visitors that stop early.
- The snapshot's file format: `restoreSnapshot` starts from the decoded items, and the emptying of the undo stacks and the open-transaction flag are left out.
- Capacity reservation and failed allocation.
- The single loops that do two things at once are split where the proof is clearer; the state after them is the same. Shifts and masks on 64-bit ids are written as division and remainder.
- Engine.DocumentEngine.ApplyChangeSet: equal to the replay of the change set only for change sets whose batches meet documents in order (`Smooth`), which `SmoothReplay.FaithfulIsSmooth` and `SmoothReplay.CascadeUndoIsSmooth` show for every recorded run, its inverse, and the inverse of a lone cascade. On a change set replayed onto a foreign document nothing is claimed.
- Engine.DocumentEngine.EraseSnapshots: for a document whose lists are out of order only the lists and the items up to cached positions are stated.
- Engine.DocumentEngine.InsertItemSnapshots: for a document out of order, or a batch item that asks for a position without a list, the stored document is not stated.
- Transactions.Transaction.Remove: that its change set leads back is stated for a transaction of its own; one that mixes removals of single elements with a cascade over the same list may be replayed in another order.
- Transactions.Transaction.Rollback: states the restored document for change sets that lead back; when a replay fails halfway it states only what the journal had saved.
- Aggregations.AggregateAll: an empty container is left open, since the fold then has no row where the index may show a zero.
- KdTrees.ContainerRangeIndex.Query: which incomplete points come through in between depends on how the tree splits, and is not described.
- QueryExecution.QueryEngine.Execute: where the points of a range that is asked are incomplete, which of them come along with what is kept depends on how the tree splits.
- QueryExecution.QueryEngine.Candidates: the same.
- MergedUpdates.MergedRunLeads: runs of updates of one cell; where moves of several items are interleaved, merging them may order the lists differently, and only the values are described (`Merges.EffectKept`).
- Aggregations.AggregateByParent: on columns of one variant nothing is claimed, since the indexes leave out items of the others.
- Aggregations.AggregateUnder: the same.
- ParentSelection.AggregateSelected: the same.
- The candidates that the index gives to the uniqueness check: the check is stated over all items of the scope.
- Logs.InverseSays: a rotation by exactly the least 64-bit integer has no opposite offset.
- UndoHistories.UndoHistory.Commit: labels and the option that turns undo off are not modelled, and after a change set that makes no step the steps below it need not lead back any more; `UndoHistories.UndoneUnderRowsIff` says when undoing one inserted row is still right.
