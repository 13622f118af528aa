# MetalORM: verified model of the core

MetalORM is a C++ object-relational mapper. This project models the parts of it that keep state over
several steps or that must agree with one another, and proves what they promise:

- **Trees** (`Forest` to `TreeRuns`): rows that carry the left and right boundaries of a nested set. A
  mutator is a short series of bulk UPDATEs; between them the table holds no tree, after them it holds
  the gapless numbering of an ordered forest again. `TreeManager` is a class that changes its table
  statement by statement, and each mutator is proved to do one operation on the forest. The numbering and
  the plain conditions on boundaries (1 to 2n, no repeat, no crossing, parent = smallest enclosing
  interval, depth = number of enclosing intervals) are proved to be the same thing. `recover`,
  `validate_tree` and `to_threaded` are the builder, the judge and the parser of that encoding.
- **Unit of work and sessions** (`Values` to `Session`): tracked entities, checkpoints in memory,
  savepoints in the database, a flag that lets nothing commit after a failure. The theorems are about
  whole runs: exact restoration after any nested history, and database and memory moving together. A flush is
  specified by the statements that it sends, `WriteBack` says when those make a correct write-back, and
  `FlushChoice` that this can be seen beforehand. `Scopes` says what nested transaction scopes come to, as a function
  of the steps of the callbacks and of what the database answered, and sessions do exactly that.
- **Keyset pagination** (`Base64Url`, `Decimals`, `Cursors`, `KeysetOrder`, `Pages`, `OffsetPages`):
  the cursor text (unpadded base64url, sections 3.2 and 5 of RFC 4648, over a 32-bit buffer that wraps around),
  the OR of ANDs as lexicographic order, and the pages that cursors chain together.
- **Parameter binding** (`SqlWords`, `Tokens`, `Queries` to `QueryReading`, `QueryCompiler`): the mutually recursive
  query compiler over queries as data, against a reference definition that writes every value in place. `SqlReader`
  reads statements by the words of SQL, without knowing the compiler, and what it reads is what `QueryMeaning` says
  that the query means: clauses, directions, operators, joins, aliases and values.
- **Pool and pooled executor** (`ResourcePool`, `PooledExecutor`, `PoolRefinement`): every stretch of code under the lock is
  one step, and the theorems hold for every schedule of steps, of several executors on one pool as well. The
  pool with its counters and threads is proved to do what the executors count on.
- **Cache codec** (`CacheCodec`, `CacheReader`, `CacheRoundTrip`) and **SQLite DDL** (`DdlScanner` to
  `DdlWhole`, `DdlConstraints`): printers and parsers, and their round trips.

Where the program updates objects in place the model is a class whose methods are tied to functions of
the old state; where it computes with expressions and recursion the model is functions and lemmas.
Primary keys of tree rows, addresses, connections and pool resources are wrapped integers; the database is a map
from row identity to column values with savepoints, and each of its answers may be an error.

Statements of the repository that turned out false as they stand, with the exact condition under which
they hold:

- `swap_adjacent` puts rows aside at a distance of 10000000. It leaves the other rows alone exactly if no
  row strays into that range (`ExchangeExact`); tables of up to 10000000 boundaries never have such a
  row (`SmallTablesAreSafe`), and a flat table of 5000002 roots already has one (`LargeTablesAreNot`).
- A cursor gives back its values and order exactly if no table or column name holds a newline
  (`CursorRoundTrip`).
- A page by number is the page that was asked for exactly if its 64-bit offset does not wrap around into
  the rows (`ExecutePaged`); the third page of 2^63 rows each shows the first one (`ThirdHugePage`).
- A page of a cursor is the page that was asked for exactly if the page size plus one does not wrap around in 64
  bits or nothing remains to show (`ExecuteCursor`, `PageThrough`); a page of 2^64-1 rows shows none (`HugePage`).
  Where duplicate roots are removed the sum is not sent, and every page is as asked.
- An inner transaction scope that fails makes the outer scopes roll back exactly if it had begun: one
  whose savepoint the database refused leaves no trace (`Transaction`).
- A flush of entities that remember their rows is a correct write-back exactly if surviving entities that stand
  for one row agree, and a row that a removed entity shares with a survivor is inserted again after its removal
  (`FlushWritesBack`). Two managed entities for one row, each with a change of its own, end up unlike the row
  (`TwoForOneRow`). A removed entity that has no row, but a key that an earlier insert is given, takes that row
  along (`RemovedTakesRow`). An entity that is persisted without a key and removed before a flush harms nothing
  (`NeverInserted`), and neither does anything else that meets the conditions that can be checked before the
  flush (`ApartWritesBack`). As long as new entities bring along only keys that nothing else goes by, those
  conditions are exact (`ApartIsExact`); a key brought along can also give a removed row back (`OwnKeyGivesBack`).
- Persisting, removing and persisting an entity leaves it as one persist does exactly if it has a key
  (`PersistAgain`). Without one it is managed although it never had a row: no flush inserts it
  (`ManagedIsNeverInserted`), and the update that is sent for it goes to no row, without an error (`RevivedHasNoRow`).
- A compiled query says what the query means exactly if every operand of a set operation is a plain SELECT
  (`Compile`, `ReadsExactly`): the order, limit or set operations of an operand become those of the whole
  (`OrderOfOperand`).
- A cursor of another order is turned down exactly if the signatures differ (`ForeignIsRejected`), which they do for
  names without separators (`SignatureTells`); `x.y` with `z` and `x` with `y.z` have one signature
  (`SignaturesCollide`).
- The cache reads back what it wrote exactly if no row list and no row is longer than 1000000
  (`CacheReadsBack`): the writer does not check the limit that the reader enforces (`OneRowTooMany`).
- `validate_tree` passes boundaries with gaps and shared right ends (`PassesWithGaps`): it reports the faults it looks
  for, and no more.

## Model

| member | source | states |
|---|---|---|
| Forests.SurgeryHas | include/metal/tree.hpp:588-706 | the keys of a forest after grafting, cutting, dissolving or exchanging at a key: exactly the old ones less what is lost plus what is gained |
| Forests.SurgeryShape | include/metal/tree.hpp:588-706 | such a change keeps all keys distinct and changes the size by exactly what was added or taken |
| NestedSets.Span | include/metal/tree.hpp:208-220 | every row of a numbered forest lies within the numbers of that forest and hangs under one of its rows or under the given parent |
| NestedSets.Rebase | include/metal/tree.hpp:870-919 | numbering a forest elsewhere shifts all boundaries and depths alike and changes only top-level parents |
| NestedSets.PlaceInSubtree | include/metal/tree.hpp:208-210 | a subtree is numbered by itself within the boundaries of its root, whose width is twice its size |
| NestedSetSurgery.SurgeryRenumbers | include/metal/tree.hpp:814-842 | whatever is done to a forest at one key renumbers every other row by one arithmetic edit of its boundaries |
| NestedSetSurgery.GraftNumbers | include/metal/tree.hpp:212-215 | what becomes the last children is numbered from the parent's right boundary on, one level deeper |
| NestedSetSurgery.NeighboursTouch | include/metal/tree.hpp:844-854 | next siblings have touching intervals, one parent and one depth |
| NestedSetSurgery.PreviousThenNext | include/metal/tree.hpp:568-586 | moving up past the previous sibling is moving that sibling down |
| TreeTables.UpdateMaps | include/metal/tree.hpp:790-799 | a bulk UPDATE changes the places of the rows in scope by their old values, and nothing else of them or of other rows |
| TreeTables.DeleteSpanDrops | include/metal/tree.hpp:697-703 | the interval DELETE takes exactly the rows in scope whose intervals lie in the span |
| TreeTables.InsertAdds | include/metal/tree.hpp:625-636 | the one new row in scope holds the values of the scope in its columns and what the caller gave in all others |
| TreeTables.IsolatedThenRestored | include/metal/tree.hpp:880-911 | isolating below zero, closing, opening and restoring puts any row where one relocation would, whatever the size of the table |
| TreeTables.MoveComposed | include/metal/tree.hpp:870-919 | the four bulk updates of a move on a whole table amount to that relocation of every row |
| TreeTables.RemoveComposed | include/metal/tree.hpp:642-693 | promoting, shifting and closing, on a table whose intervals do not cross, takes out exactly the shell of the removed row |
| TreeTables.ThreeRangesSwap | include/metal/tree.hpp:844-868 | the three range shifts exchange two touching intervals for a row exactly if the row does not stray |
| TreeRefinement.SubtreeSpan | include/metal/tree.hpp:695-706 | a row is in a subtree exactly if its interval lies in that of the root |
| TreeRefinement.GuardIsSubtree | include/metal/tree.hpp:598-601 | the interval test that rejects a move below itself is true exactly for targets in the moved subtree |
| TreeRefinement.NeverCross | include/metal/tree.hpp:200-206 | intervals of two rows are nested or apart |
| TreeRefinement.MaxIsLast | include/metal/tree.hpp:801-812 | the largest right boundary is twice the number of rows |
| TreeRefinement.TargetAfterCut | include/metal/tree.hpp:593-606 | the corrected target of a move is where the subtree goes once it has been taken out |
| TreeRefinement.SpotsAfterCut | include/metal/tree.hpp:695-706 | deleting a span and closing its gap gives the gapless numbering of the forest without that subtree |
| TreeRefinement.SpotsAfterLeaf | include/metal/tree.hpp:610-640 | opening a gap and inserting gives the gapless numbering of the forest with the row as last child |
| TreeRefinement.SpotsAfterMove | include/metal/tree.hpp:588-608 | the relocation gives the gapless numbering of the forest with the subtree appended under its new parent, depths shifted |
| TreeRefinement.SpotsAfterRetire | include/metal/tree.hpp:642-693 | a removal gives the gapless numbering of the forest with the children in the row's place and the row as the last root |
| TreeRefinement.ConsecutiveAreNeighbours | include/metal/tree.hpp:568-586 | two rows that are consecutive by left boundary under one parent are next siblings |
| TreeRefinement.ExchangeExact | include/metal/tree.hpp:844-868 | the exchange yields the numbering with the two subtrees exchanged and no other row changed exactly if no row strays |
| TreeRefinement.SmallTablesAreSafe | include/metal/tree.hpp:848-852 | no row strays while all right boundaries are at most 10000000 beyond the right subtree's left boundary |
| TreeRefinement.LargeTablesAreNot | include/metal/tree.hpp:848-852 | with 5000002 roots or more the exchange of the first two takes other rows along |
| Intervals.TwicePerRow | include/metal/tree.hpp:208-220 | boundaries without gaps and crossings number exactly two for each row |
| Intervals.ChildCountIsDescendants | include/metal/tree.hpp:188-190 | (rght - lft - 1) / 2 is the number of rows strictly below |
| Intervals.LeavesAreChildless | include/metal/tree.hpp:192-194 | rght - lft = 1 holds exactly for rows that are nobody's parent |
| Intervals.AncestorsAreAround | include/metal/tree.hpp:346-356 | the strict interval test selects exactly the transitive closure of the parent column, both ways |
| Intervals.ParentIsSmallest | include/metal/tree.hpp:588-706 | in a numbered forest the parent is the smallest enclosing interval and depth counts the enclosing ones |
| Intervals.SpotsAreGapless | include/metal/tree.hpp:186-220 | the numbering of a forest uses 1 to 2n once each, without crossings, with parents and depths as the intervals say |
| Intervals.GaplessIsForest | include/metal/tree.hpp:186-220 | conversely every table that meets those conditions is the numbering of a forest |
| Intervals.ForestIsUnique | include/metal/tree.hpp:186-220 | and of one forest only |
| TreeRecovery.GroupByParent | include/metal/tree.hpp:225-228 | every node is in the group of its parent, in list order |
| TreeRecovery.SortGroups | include/metal/tree.hpp:230-240 | every group is sorted by the comparator and loses nothing |
| TreeRecovery.Traverse | include/metal/tree.hpp:242-257 | the walk ends even on lists with cycles and dangling parents, and numbers a forest whose siblings are the groups |
| TreeRecovery.FoundOnce | include/metal/tree.hpp:244-256 | the walk meets no node twice |
| TreeRecovery.ReachedIsFound | include/metal/tree.hpp:244-257 | it meets every node whose parent chain reaches null |
| TreeRecovery.NumberedAsListed | include/metal/tree.hpp:244-256 | a met node's parent is the listed one and its depth is the length of its chain |
| TreeRecovery.UpdatesPlace | include/metal/tree.hpp:248-254 | the updates are exactly the numbering of the forest, boundaries 1 to 2k |
| TreeRecovery.UpdatesOnce | include/metal/tree.hpp:248-254 | one update for each node that was met |
| TreeRecovery.WalkRecovers | include/metal/tree.hpp:222-259 | met are exactly the nodes whose chain reaches null, with listed parents, chain lengths as depths, and siblings by the comparator |
| TreeRecovery.Recover | include/metal/tree.hpp:222-259 | for any list with distinct keys and any strict weak comparator the result is the numbering of that forest |
| TreeValidation.ValidateTree | include/metal/tree.hpp:288-324 | an error is reported exactly if the rows have that fault: empty interval, boundary below 1, or partial overlap |
| TreeValidation.NumberingsPass | include/metal/tree.hpp:305-322 | rows placed by a numbered forest, all or some of them, have no fault |
| TreeValidation.PassesWithGaps | include/metal/tree.hpp:305-322 | two rows with gaps and one shared right boundary have no fault either |
| TreeThreading.ParseOne | include/metal/tree.hpp:271-281 | one call consumes a non-empty run of rows and its tree, read parents first, is that run |
| TreeThreading.ToThreaded | include/metal/tree.hpp:261-286 | the result read parents first is the whole list, whatever the boundaries, and for sorted non-crossing intervals below means inside |
| TreeThreading.BelowIsInside | include/metal/tree.hpp:271-281 | within one parsed tree a row is below another exactly if its interval is inside |
| TreeThreading.ThreadedIsNested | include/metal/tree.hpp:283-285 | the same across all parsed trees |
| TreeManagers.TreeManager.ShiftForInsert | include/metal/tree.hpp:814-827 | the two updates move each boundary at or beyond the point by the width; other scopes stay |
| TreeManagers.TreeManager.ShiftForDelete | include/metal/tree.hpp:829-842 | the two updates move each boundary beyond the deleted one back by the width; other scopes stay |
| TreeManagers.TreeManager.MoveRange | include/metal/tree.hpp:856-868 | exactly the rows whose intervals lie in the range move; other scopes stay |
| TreeManagers.TreeManager.MaxRght | include/metal/tree.hpp:801-812 | the largest right boundary in scope, 0 if there is none |
| TreeManagers.TreeManager.GetNode | include/metal/tree.hpp:515-519 | the row with the key if it is in scope, else nothing |
| TreeManagers.TreeManager.InsertAsChild | include/metal/tree.hpp:610-640 | the forest gets the row as last child of its parent, or as last root, with what the caller gave and the values of the scope over it; other rows keep what they hold; an unknown parent is an error that changes nothing |
| TreeManagers.TreeManager.DeleteSubtree | include/metal/tree.hpp:695-706 | the forest loses exactly the subtree, the result is its size, and the other rows keep what they hold |
| TreeManagers.TreeManager.MoveSubtree | include/metal/tree.hpp:870-919 | the statements of a move relocate every row and set the parent of the moved one |
| TreeManagers.TreeManager.MoveTo | include/metal/tree.hpp:588-608 | the forest gets the subtree as last child of the new parent; a missing parent and a parent in the subtree are errors that change nothing |
| TreeManagers.TreeManager.RemoveFromTree | include/metal/tree.hpp:642-693 | the forest has the children in the row's place and the row as its last root |
| TreeManagers.TreeManager.SwapAdjacent | include/metal/tree.hpp:844-854 | false, and nothing changes, unless the left row ends before the right one begins; else exactly the three shifts |
| TreeManagers.TreeManager.MoveDown | include/metal/tree.hpp:578-586 | exchanges with the next sibling, false exactly if there is none; the table then holds the new forest exactly if no row strayed |
| TreeManagers.TreeManager.MoveUp | include/metal/tree.hpp:568-576 | the same with the previous sibling |
| TreeManagers.TreeManager.Select | include/metal/tree.hpp:465-477 | all rows in scope that pass the condition, each once, by left boundary |
| TreeManagers.TreeManager.GetSiblings | include/metal/tree.hpp:537-543 | all rows with the parent, each once, by left boundary |
| TreeManagers.TreeManager.GetDescendants | include/metal/tree.hpp:529-531 | exactly the rows below in the transitive closure of the parent column, as many as the child count says |
| TreeManagers.TreeManager.GetPath | include/metal/tree.hpp:533-535 | exactly the rows above in that closure, from the root down, as many as the depth says |
| TreeManagers.TreeManager.GetDescendantsThreaded | include/metal/tree.hpp:550-553 | the rows below the node, linked as their parent columns say |
| TreeManagers.TreeManager.RecoverBoundaries | include/metal/tree.hpp:708-727 | rows whose chain reaches null get the numbers of the recovered forest and others keep theirs; if all do, the table is gapless again |
| TreeManagers.TreeManager.Validate | include/metal/tree.hpp:733-740 | reports exactly the faults in scope, and none on a gapless table |
| TreeRuns.Perform | include/metal/tree.hpp:568-706 | any one call on a node as it was read keeps the table gapless, does its forest operation, leaves what the rows hold, a new one what it was given, and leaves other scopes |
| TreeRuns.Replay | include/metal/tree.hpp:568-706 | so does any sequence of calls whose exchanges fit |
| TreeRuns.SmallRunsFit | include/metal/tree.hpp:848-852 | all exchanges of a run fit while rows and inserts together stay within 5000000 |
| TreeRuns.ReplayFromEmpty | include/metal/tree.hpp:568-706 | from an empty scope every run whose exchanges fit ends in a gapless nested set that represents the forest of the run, each row with what its insert gave, with other scopes untouched |
| Checkpoints.RollbackRestores | include/metal/unit_of_work.hpp:92-113 | a checkpoint that kept its moment brings back tracked map, order and all values; entities first tracked later are as they were then, and untracked |
| Checkpoints.RollbackIsBack | include/metal/unit_of_work.hpp:92-113 | so memory afterwards is determined by the moment, the first sights since, and the entities that were never tracked |
| Checkpoints.TrackKeeps | include/metal/unit_of_work.hpp:34-44 | tracking an entity keeps every open checkpoint able to do so |
| Checkpoints.QuietKeeps | include/metal/unit_of_work.hpp:46-70 | so does every change that tracks nothing new: field changes, erase, refresh, status |
| Checkpoints.BeginKeeps | include/metal/unit_of_work.hpp:72-83 | so does taking another checkpoint |
| Checkpoints.RollbackKeeps | include/metal/unit_of_work.hpp:92-113 | so does rolling an inner one back |
| Checkpoints.WitnessSaw | include/metal/unit_of_work.hpp:34-39 | tracking tells every checkpoint of a key that it has not seen, and of no other |
| Checkpoints.FirstCounts | include/metal/unit_of_work.hpp:34-39 | of several times that an entity is tracked since a checkpoint the first one counts, rolled back or not |
| UnitsOfWork.UnitOfWork.Track | include/metal/unit_of_work.hpp:34-44 | map and order get the key, once; every checkpoint is told of a key it has not seen |
| UnitsOfWork.UnitOfWork.Erase | include/metal/unit_of_work.hpp:46-49 | map and order lose the key |
| UnitsOfWork.UnitOfWork.RefreshSnapshot | include/metal/unit_of_work.hpp:66-70 | the remembered values become the current ones, for a tracked key only |
| UnitsOfWork.UnitOfWork.BeginCheckpoint | include/metal/unit_of_work.hpp:72-83 | one more checkpoint, of this moment |
| UnitsOfWork.UnitOfWork.CommitCheckpoint | include/metal/unit_of_work.hpp:85-90 | forgets the last checkpoint; without one it is an error |
| UnitsOfWork.UnitOfWork.RollbackCheckpoint | include/metal/unit_of_work.hpp:92-113 | memory is back at the moment of the last checkpoint, exactly; entities first tracked since are as they were then, and no other entity changes |
| UnitsOfWork.UnitOfWork.RebuildIdentities | include/metal/unit_of_work.hpp:122-127 | the identity map is the one of the tracked entities, later ones last |
| UnitsOfWork.Perform | include/metal/unit_of_work.hpp:34-117 | any action, a properly nested checkpoint with its body among them, keeps map and order in step and every open checkpoint sound |
| UnitsOfWork.Undo | include/metal/unit_of_work.hpp:72-113 | after any history of actions a rollback restores tracked map, tracking order and every tracked entity; entities first tracked in that history are untracked, with the values that they had when they were first tracked |
| UnitsOfWork.UnitOfWork.FlushInsert | include/metal/unit_of_work.hpp:180-230 | one new row, not there before, with the entity's columns and its own key or a new one that is not empty, and the entity is found under that key from then on; an error leaves memory, though a row whose key was not returned is there |
| UnitsOfWork.UnitOfWork.FlushUpdateIfDirty | include/metal/unit_of_work.hpp:232-257 | the changed columns reach the row; an unchanged entity sends no statement |
| UnitsOfWork.UnitOfWork.FlushDelete | include/metal/unit_of_work.hpp:259-275 | row, tracking entry and identity go together, and nothing else |
| UnitsOfWork.UnitOfWork.Flush | include/metal/unit_of_work.hpp:136-154 | one statement for each entity in tracking order, whatever is tracked, each with its effect on memory, identities and rows; an error stops after a beginning of them; afterwards none is new or removed, removed entities are found no more under their key and inserted ones are; entities that remember their rows are written back correctly exactly under the condition on those statements; where nothing is left to write nothing is sent and nothing changes |
| UnitsOfWork.UnitOfWork.FlushOne | include/metal/unit_of_work.hpp:138-152 | what a status calls for, in memory and database, and nothing for any other entity |
| Flushing.InsertWrites | include/metal/unit_of_work.hpp:180-230 | an insert makes row, remembered and current values equal and touches no other entity or row |
| Flushing.UpdateWrites | include/metal/unit_of_work.hpp:232-257 | an update sends only the changed columns and touches no other entity or row |
| Flushing.DeleteWrites | include/metal/unit_of_work.hpp:259-275 | a delete leaves neither row nor tracking entry and touches no other, whether there was a row or not |
| Flushing.StepProgress | include/metal/unit_of_work.hpp:137-153 | each step of a flush does one more statement in memory and database and keeps what the earlier ones have done |
| Flushing.FitsAreTried | include/metal/unit_of_work.hpp:136-154 | statements that fit the tracked entities, with inserts to rows that are not there, are those of a flush |
| Flushing.FlushedIsUnchanged | include/metal/unit_of_work.hpp:136-154 | after a flush, whatever was tracked, none of it is new or removed and another flush has nothing to send |
| Flushing.IdentityAfter | include/metal/unit_of_work.hpp:227-269 | the last insert or delete for a row says which entity is found there afterwards, and none after a delete |
| Flushing.FlushFindsRightly | include/metal/unit_of_work.hpp:227-269 | a removed entity is found afterwards only under another key than its own under which it was found before; an inserted one is found under its key unless a later statement is for that key |
| WriteBacks.FlushedIsClean | include/metal/unit_of_work.hpp:136-154 | after a write-back every entity is settled and remembers its row, so the next flush may rely on the same again |
| WriteBacks.GoneUntilGiven | include/metal/unit_of_work.hpp:259-275 | a deleted row is gone until an insert gives it again |
| WriteBacks.HeldSinceGiven | include/metal/unit_of_work.hpp:180-257 | an inserted row stays as it is if only parts of the same values are written over it |
| WriteBacks.HeldFromStart | include/metal/unit_of_work.hpp:232-257 | a row that updates take to one value each ends up with that value |
| WriteBacks.SurvivorHasRow | include/metal/unit_of_work.hpp:136-154 | under the condition the row of a surviving entity ends up as the entity is |
| WriteBacks.OutsideIsSame | include/metal/unit_of_work.hpp:136-154 | rows that no entity stands for, before or after, are as they were, on every flush |
| WriteBacks.FlushWritesBack | include/metal/unit_of_work.hpp:136-275 | a flush of entities that remember their rows leaves each survivor managed with row = remembered = current values, removed ones without row and tracking entry, and other rows untouched, exactly under the condition on its statements |
| WriteBacks.ApartWritesBack | include/metal/unit_of_work.hpp:136-275 | what can be checked beforehand suffices: managed entities of one row agree, none shares its row with a removed one, no insert may be given a row that a later delete takes |
| FlushChoices.ApartIsNeeded | include/metal/unit_of_work.hpp:136-275 | where it does not hold, and new entities bring along only keys that nothing else goes by, some choice of generated keys gives a flush that is no write-back |
| FlushChoices.ApartIsExact | include/metal/unit_of_work.hpp:136-275 | so there the condition holds exactly if every flush that succeeds is a write-back, whatever keys are generated |
| FlushChoices.OwnKeyGivesBack | include/metal/unit_of_work.hpp:180-230 | a new entity with the key and the values of a managed one, after a removed one of that key, makes every flush a write-back though the condition fails |
| FlushChoices.FlushOf | include/metal/unit_of_work.hpp:136-154 | statements that fit the tracked entities, with inserts to rows that are not there, are those of some flush |
| WriteBacks.EmptyKeyIsNeverGiven | include/metal/unit_of_work.hpp:184-193 | no insert with a generated key is given an empty one |
| WriteBacks.NeverInserted | include/metal/orm.hpp:99-115 | persist and then remove, without a key, meets those conditions |
| WriteBacks.ManagedIsNeverInserted | include/metal/unit_of_work.hpp:136-257 | no flush inserts a managed entity; if nothing is remembered of it every column but the key goes into an update, which does nothing without a row, and the entity does not remember its row |
| WriteBacks.RevivedHasNoRow | include/metal/unit_of_work.hpp:232-257 | alone, a managed entity without a row is flushed without an error and still has no row |
| WriteBacks.TwoForOneRow | include/metal/unit_of_work.hpp:232-257 | two managed entities for one row with a change each: both updates arrive, and it is no write-back |
| WriteBacks.RemovedTakesRow | include/metal/unit_of_work.hpp:259-275 | a removed entity that never had a row takes the one that was just inserted under its key |
| WriteBacks.FlushedIsSettled | include/metal/unit_of_work.hpp:234-240 | after any flush of entities that remember their rows nothing is left to write |
| Flushing.SettledIsUnchanged | include/metal/unit_of_work.hpp:234-240 | such an entity has nothing to write, so a second flush is silent |
| Sessions.Session.PersistEntity | include/metal/orm.hpp:99-108 | an entity not tracked before is tracked last: with a key as managed, its values remembered and registered under the key, without one as new with nothing remembered; a removed one is managed again with what was remembered of it; any other tracked one stays; every open checkpoint is kept |
| Sessions.PersistAgain | include/metal/orm.hpp:99-115 | persist, remove and persist leave an entity as one persist does exactly if it has a key; without one it is managed with nothing remembered |
| Sessions.Session.FlushPipeline | include/metal/orm.hpp:338-351 | two flushes in a row do what one does, for anything that is tracked, and are a write-back under the same condition |
| Sessions.Session.OpenScope | include/metal/orm.hpp:194-206 | begin or savepoint under a name not used before, and a checkpoint of this moment; a refusal leaves scope and memory |
| Sessions.Session.CompleteScope | include/metal/orm.hpp:211-217 | a scope completes only if no inner scope failed and everything that is tracked was written before; the outermost makes the working rows the committed ones; it fails only if the database refuses something or an inner scope failed |
| Sessions.Session.RollbackScope | include/metal/orm.hpp:377-390 | memory goes back to the scope's beginning, the database to its savepoint, and the failure is remembered; that the database refused is recorded, and its rows are then as they were |
| Sessions.Session.FinishScope | include/metal/orm.hpp:392-398 | the flag and the counter are reset exactly at the outermost end |
| Sessions.Session.RunSteps | include/metal/orm.hpp:176-246 | memory, identities and rows after a callback are those that its steps make with what the database answered, up to the first step that does not go on; committed rows, earlier savepoints and names stay, and a failure is remembered exactly if a scope in it failed |
| Sessions.Session.Transaction | include/metal/orm.hpp:176-246 | memory, identities and rows are those of the steps and the flush at the end, or as they were: a scope is done only if its callback came through, no scope failed, and all that is tracked was written; it fails only for a reason, and is then taken back unless the database refuses; a committed outermost one makes those rows the committed ones; names never repeat |
| Sessions.Session.EndScope | include/metal/orm.hpp:208-225 | the end of a scope, one way or the other: written and committed, or memory as at its beginning and the rows taken back |
| Scopes.DoneIsWritten | include/metal/orm.hpp:208-217 | a scope that is done has come through without a failed scope and has written all that was tracked, so that none of it is new or removed |
| Scopes.PersistedIsWritten | include/metal/orm.hpp:99-231 | an entity without a key that a callback persists has a row with its values once the scope is done |
| Sessions.Session.RunScope | include/metal/orm.hpp:208-225 | a scope that was opened ends in exactly one outcome, committed or taken back |
| Sessions.Session.Commit | include/metal/orm.hpp:143-174 | rows and memory move together: both written, one statement for each entity, a write-back under the same condition as a flush, or both exactly as before; it fails only if the database refuses something |
| Sessions.Session.WriteAll | include/metal/orm.hpp:157-161 | begin, flushes and commit: the working rows become the committed ones, or the committed ones stay |
| Sessions.Session.TakeBack | include/metal/orm.hpp:163-168 | after an error memory is back at the checkpoint and the identity map is rebuilt |
| Base64Url.Encode | include/metal/query/pagination.hpp:78-92 | the wrapping buffer yields the three-bytes-to-four-letters encoding of every byte string |
| Base64Url.Decode | include/metal/query/pagination.hpp:103-118 | an error exactly on letters outside the alphabet, else the four-letters-to-three-bytes decoding |
| Base64Url.DecodedEncoded | include/metal/query/pagination.hpp:78-118 | decoding gives back every encoded byte string, of any length |
| Base64Url.NextLetters | include/metal/query/pagination.hpp:82-89 | the low bits left in the buffer suffice although its high bits wrap around |
| Decimals.UnsignedRoundTrip | include/metal/query/pagination.hpp:216-223 | decimal lengths and counts read back |
| Decimals.SignedRoundTrip | include/metal/query/pagination.hpp:125-127 | every 64-bit integer reads back |
| Cursors.ValueRoundTrip | include/metal/query/pagination.hpp:120-170 | a value's tag and text give back the value |
| Cursors.OrderSignature | include/metal/query/pagination.hpp:172-179 | the loop writes the terms with commas between them |
| Cursors.EncodeCursor | include/metal/query/pagination.hpp:181-195 | an error exactly if a value is null, else the encoded text |
| Cursors.DecodeCursor | include/metal/query/pagination.hpp:210-232 | any text is an error or what its bytes say, never read beyond their end |
| Cursors.ItemReadsBack | include/metal/query/pagination.hpp:218-230 | a length-prefixed item reads back wherever it stands, whatever its text holds |
| Cursors.NewlineBreaks | include/metal/query/pagination.hpp:202-215 | with a newline in a name the decoded cursor never has that order |
| Cursors.CursorRoundTrip | include/metal/query/pagination.hpp:181-232 | decoding gives back values and order exactly if no name has a newline |
| Cursors.SignatureTells | include/metal/query/pagination.hpp:172-179 | orders of one signature agree in length, names and directions, if no name holds a dot, a colon or a comma |
| Cursors.SignaturesCollide | include/metal/query/pagination.hpp:172-179 | with a dot in a name two orders may have one signature |
| KeysetOrder.AppendCursorPredicate | include/metal/query/pagination.hpp:253-280 | an error exactly if the numbers of values and terms differ, else the clause and its parameters with placeholders counting on |
| KeysetOrder.CursorWhereIsLexicographic | include/metal/query/pagination.hpp:261-279 | the OR of ANDs holds of a row exactly if it comes after (before) the cursor in lexicographic order with mixed directions |
| KeysetOrder.BeforeTransitive | include/metal/query/pagination.hpp:336-342 | that order is transitive |
| KeysetOrder.BeforeTotal | include/metal/query/pagination.hpp:336-342 | and decides between any two different keys |
| KeysetOrder.FlipReverses | include/metal/query/pagination.hpp:336-342 | the order of a backward query is its reverse |
| Pages.DistinctRootRows | include/metal/runtime_pagination.hpp:73-90 | the first row of each root in order; a row without the key is an error |
| Pages.DistinctCovers | include/metal/runtime_pagination.hpp:73-90 | no root is lost and no row is new |
| Pages.AnswerRises | include/metal/query/pagination.hpp:323-362 | a sorted answer has its keys strictly rising, each once, also after duplicate roots are removed |
| Pages.RisingOnce | include/metal/query/pagination.hpp:336-342 | two strictly rising lists of the same keys are equal, so the answer is determined |
| Pages.ForwardKeys | include/metal/query/pagination.hpp:326-346 | the rows after a cursor have exactly the keys behind it in the full result |
| Pages.CursorClause | include/metal/query/pagination.hpp:326-334 | without a cursor no clause; a cursor that is no text of the alphabet, says nothing, or was made for another order or number of values is that error; any other one gives the clause and its parameters |
| Pages.ForeignIsRejected | include/metal/query/pagination.hpp:328-331 | a cursor made for an order of another signature is the signature error |
| Pages.OtherOrderIsRejected | include/metal/query/pagination.hpp:328-331 | for orders whose names hold no separator that is every other order |
| Pages.BackwardKeys | include/metal/query/pagination.hpp:326-346 | the reversed query has exactly the keys before the cursor, backwards |
| Pages.ExecuteCursor | include/metal/query/pagination.hpp:306-379 | options that make no sense and cursors that cannot be used are their errors; for a cursor with any key, whether a row still has it or not, first/after and last/before show the next and the last `limit` keys after and before it, in forward order, with cursors of the page's ends, has-next of first/after and has-previous of last/before saying whether there is more, the other one whether a cursor was given and the page has rows: exactly if `limit` + 1 does not wrap around or nothing remains to show |
| Pages.HugePage | include/metal/query/pagination.hpp:346 | a first page of 2^64-1 rows has no rows, no cursors and no next page, and is the page asked for exactly if there are no rows |
| Pages.NoRowsShow | include/metal/query/pagination.hpp:346-379 | a page without rows is the page asked for exactly if nothing comes after, or before, the cursor |
| Pages.KeyBegins | include/metal/query/pagination.hpp:261-279 | the keys after any key are a tail of the full result |
| Pages.KeyEnds | include/metal/query/pagination.hpp:261-279 | the keys before any key are a head of it |
| Pages.BeginsBehind | include/metal/query/pagination.hpp:368-376 | those after the key of a row begin behind that row |
| Pages.PageThrough | include/metal/query/pagination.hpp:306-379 | following the end cursor until there is no next page gives the full result, in order, each key once, exactly if `limit` + 1 does not wrap around or there are no rows |
| Pages.KeysInOrder | include/metal/query/pagination.hpp:336-342 | every base result with distinct keys has such a full result |
| OffsetPages.ExecutePaged | include/metal/runtime_pagination.hpp:108-138 | the rows at the wrapped 64-bit offset, which are the page asked for exactly if that offset is not within the rows by accident; the error cases |
| OffsetPages.ThirdHugePage | include/metal/runtime_pagination.hpp:129-131 | page 3 of size 2^63 shows the first page |
| OffsetPages.PagesPartition | include/metal/runtime_pagination.hpp:129-136 | pages one after the other make up the rows, each on one page |
| Tokens.HolesCount | include/metal/query/core_types.hpp:55-79 | numbered placeholders read left to right count on by one from the offset, one for each value |
| SqlWords.TextTells | include/metal/query/core_types.hpp:155-206 | no two words of a statement are spelled alike |
| Tokens.SubstituteNumbered | include/metal/query/core_types.hpp:55-79 | putting the values back for the placeholders gives the text with values in place |
| Tokens.NumberAppend | include/metal/query/core_types.hpp:55-85 | numbering one text after another is numbering them together, the second with the first's values as offset |
| QueryCompiler.CompileContext.Bind | include/metal/query/sqlite_compiler.hpp:290-292 | one value, one placeholder with its number |
| QueryCompiler.CompileContext.CompileScalar | include/metal/query/sqlite_compiler.hpp:285-305 | every scalar is emitted as its inline text with values taken out in order |
| QueryCompiler.CompileContext.CompileCase | include/metal/query/sqlite_compiler.hpp:266-277 | so is CASE; without branches it is an error |
| QueryCompiler.CompileContext.CompileWindow | include/metal/query/sqlite_compiler.hpp:238-264 | so is a window function; a name that is no identifier is an error |
| QueryCompiler.CompileContext.CompileExpr | include/metal/query/sqlite_compiler.hpp:307-353 | so is every condition, IN and EXISTS subqueries among them |
| QueryCompiler.CompileContext.CompileNested | include/metal/query/sqlite_compiler.hpp:334-344 | a nested query's placeholders count on from those used so far and its values are appended |
| QueryCompiler.CompileContext.CompileProjections | include/metal/query/select.hpp:435-458 | so is the projection list |
| QueryCompiler.CompileContext.CompileCtes | include/metal/query/select.hpp:483-505 | so are the common table expressions |
| QueryCompiler.CompileContext.CompileJoins | include/metal/query/select.hpp:519-561 | joins give each table and pivot table its alias and bind no value; an unknown owner is an error |
| QueryCompiler.CompileContext.CompileSource | include/metal/query/select.hpp:460-474 | so is a derived table |
| QueryCompiler.CompileContext.CompileFilters | include/metal/query/relation_queries.hpp:182-188 | so are relation filters, each under the offset of those before it |
| QueryCompiler.CompileContext.CompileCondition | include/metal/query/select.hpp:578-603 | own condition first, then what filters add, joined only if both are there |
| QueryCompiler.CompileContext.CompileSetOperations | include/metal/query/select.hpp:614-619 | so are set operations |
| QueryCompiler.CompileOwn | include/metal/query/relation_queries.hpp:63-114 | a correlation binds the type value of a morph relation as first parameter and nothing otherwise |
| QueryCompiler.CompileExtra | include/metal/query/relation_queries.hpp:169-196 | filters and correlation, each in parentheses, with one list of values |
| QueryCompiler.CompileSelect | include/metal/query/select.hpp:476-633 | a whole query under any offset is its inline text with values taken out in order |
| QueryCompiler.CompiledIsFaithful | include/metal/query/core_types.hpp:55-85 | so its placeholders are offset+1 to offset+n and substituting the values gives the inline text |
| QuerySoundness.SelectExists | include/metal/query/select.hpp:476-633 | there is a text exactly if every column's entity is known where it is used, functions have names, CASE has a branch and a query in IN has one column |
| QueryValues.SelectBinds | include/metal/query/select.hpp:476-633 | the values in the text are those of common table expressions, projections, source, condition, relation filters, correlation, HAVING and set operations, in this order |
| QueryReading.ReadsScalar | include/metal/query/sqlite_compiler.hpp:285-305 | an expression is read back: its columns by their aliases, operators, calls, windows with directions, and values |
| QueryReading.ReadsExpr | include/metal/query/sqlite_compiler.hpp:307-353 | so is every condition, with its operators, negations, connectives and subqueries |
| ReadingParts.ReadsOrder | include/metal/query/select.hpp:623-629 | so is an order: the columns and their directions |
| ReadingParts.ReadsJoins | include/metal/query/select.hpp:519-561 | so are joins: kind, table, alias and the columns that are compared, two for a pivot table |
| QueryReading.ReadsFilters | include/metal/query/relation_queries.hpp:169-196 | so are relation filters and what correlates them |
| QueryReading.ReadsSelect | include/metal/query/select.hpp:476-633 | so is a query with all its clauses, where operands of set operations are plain SELECTs |
| QueryReading.ReadsExactly | include/metal/query/select.hpp:614-619 | and only there |
| QueryReading.OrderOfOperand | include/metal/query/select.hpp:614-626 | an order of the last operand and one of the whole are written down alike |
| QueryCompiler.Compile | include/metal/query/select.hpp:476-633 | a finished statement exists exactly if the query is sound; its placeholders count on, its parameters are the values of the query from left to right, and with them in place it is read as what the query means exactly if all operands of set operations are plain SELECTs |
| ResourcePools.CountChange | include/metal/pool.hpp:282-284 | what one thread's step does to the number of validations and of creations under way |
| ResourcePools.ThreadToGone | include/metal/pool.hpp:286-296 | a resource handed to destruction was in no other place and was never handed there before |
| ResourcePools.IdleToThread | include/metal/pool.hpp:145-149 | a resource taken from the idle ones is with one thread and nowhere else |
| ResourcePools.Pool.Acquire | include/metal/pool.hpp:141-168 | takes the most recently used idle resource, else reserves a place if there is one, else nothing; refused once destroyed |
| ResourcePools.Pool.FinishValidation | include/metal/pool.hpp:170-206 | a lease exactly if valid and not destroyed meanwhile, else the resource leaves the counts and goes to destruction |
| ResourcePools.Pool.Create | include/metal/pool.hpp:209-213 | a resource nobody has had before, still counted as being created |
| ResourcePools.Pool.FailCreation | include/metal/pool.hpp:214-221 | the place becomes free again |
| ResourcePools.Pool.FinishCreation | include/metal/pool.hpp:223-236 | a lease, or destruction if the pool was destroyed meanwhile |
| ResourcePools.Pool.Release | include/metal/pool.hpp:298-310 | back as the most recently used, or to destruction once destroyed |
| ResourcePools.Pool.DestroyLeased | include/metal/pool.hpp:312-319 | out of the pool and to destruction |
| ResourcePools.Pool.Dispose | include/metal/pool.hpp:286-296 | hands on one resource that was not handed on before |
| ResourcePools.Pool.Destroy | include/metal/pool.hpp:242-270 | all idle resources go to destruction, once; nothing is idle from then on |
| ResourcePools.Pool.Sweep | include/metal/pool.hpp:394-411 | the loop takes a prefix of the timed-out, least recently used resources, as many as it may, and keeps the rest in order |
| ResourcePools.Pool.Reap | include/metal/pool.hpp:386-418 | a reaper pass never leaves fewer than `min` where it takes any, and does nothing once destroyed |
| ResourcePools.Pool.ReserveWarm | include/metal/pool.hpp:344-351 | reserves exactly while fewer than `min` are idle and there is room |
| ResourcePools.WarmMinimum | include/metal/pool.hpp:341-367 | warming up ends with `min` idle resources, or with as many as could be created |
| ResourcePools.Take | include/metal/pool.hpp:112-431 | any step makes of the pool what `Stepped` says of it: idle list, counters, threads, leases and what went to destruction; bound, counters, order of last use and exactly one place for each resource that was made are kept; only a finished acquisition leases a resource, one that was neither leased nor lost, and only the step that gives a resource back ends its lease |
| ResourcePools.SteppedMoves | include/metal/pool.hpp:141-319 | a step, as users see it: what is lost stays lost, a lease goes to a resource that was neither leased nor lost, and none is taken away but by the step that gives it back |
| ResourcePools.Interleave | include/metal/pool.hpp:112-431 | every step of any schedule is taken in turn, beginning with as many idle resources as warming up could make; afterwards idle + leased + creating is at most max, no resource is lost or was handed to destruction twice, and a destroyed pool keeps nothing |
| ResourcePools.NoneLost | include/metal/pool.hpp:112-431 | a resource that was ever made is idle, leased, with one thread, or handed to destruction |
| PooledExecutors.PooledExecutor.Execute | src/pooled_executor.cpp:32-46 | the statement goes to the lease, to a new lease that a sticky executor keeps, or to a connection borrowed for it and given back; nothing else is asked |
| PooledExecutors.PooledExecutor.BeginTransaction | src/pooled_executor.cpp:48-66 | an error, with nothing asked, while a transaction runs; otherwise BEGIN goes to the lease or a new one, and where it fails the connection is destroyed |
| PooledExecutors.PooledExecutor.CommitTransaction | src/pooled_executor.cpp:68-92 | an error, with nothing asked, without a transaction; otherwise COMMIT goes to the lease, which is then given back, or destroyed where that failed |
| PooledExecutors.PooledExecutor.RollbackTransaction | src/pooled_executor.cpp:94-116 | nothing to do without a transaction; otherwise ROLLBACK goes to the lease, which is then given back, or destroyed |
| PooledExecutors.PooledExecutor.SavepointStatement | src/pooled_executor.cpp:118-149 | an error, with nothing asked, without a transaction; otherwise the statement for that savepoint goes to the lease |
| PooledExecutors.PooledExecutor.Start | src/pooled_executor.cpp:32-116 | what a call finds out before it touches the pool: where it will run, or that it is an error or has nothing to do |
| PooledExecutors.PooledExecutor.Step | src/pooled_executor.cpp:24-158 | one action on the pool: which one it is, as the log of the pool has it, its outcome, and that it leaves the connections that others have out alone |
| PooledExecutors.PooledExecutor.Dispose | src/pooled_executor.cpp:168-185 | rolls back first, and destroys the connection if that fails; without a transaction gives it back |
| PooledExecutors.RanWhereItBegan | src/pooled_executor.cpp:32-149 | in a sound history whatever is sent between begin and end, and the end itself, goes to the connection of the begin, which is not given away meanwhile |
| PooledExecutors.CallFollows | src/pooled_executor.cpp:32-185 | a whole call, answered as it should be, carries a sound history on: it begins where nothing runs, and ends or saves only where something does |
| PooledExecutors.OneAfterAnother | src/pooled_executor.cpp:32-185 | a history is sound exactly if its first part is and the rest follows on the transaction that this leaves running |
| PooledExecutors.Use | src/pooled_executor.cpp:16-185 | every call of any list is answered as it should be, with other executors at work in between; what the pool was asked is what the calls asked, in order, is a sound history, and ends with nothing kept |
| PooledExecutors.TakeTurn | src/pooled_executor.cpp:16-185 | one action of one of several executors, which is the next of its call, keeps them all sound and changes no connection of another |
| PooledExecutors.Share | src/pooled_executor.cpp:16-185 | whatever several executors do on one pool, in whatever order their actions come: every turn is the next action of its executor and of no other, no idle connection has a transaction open, no connection is out with two of them, and each has a sound history |
| PoolRefinements.SeenIsSound | include/metal/pool.hpp:112-431 | what executors see of the pool has no resource in two places, and is sound exactly if transactions are open only on leased or lost ones |
| PoolRefinements.TakeSeen | include/metal/pool.hpp:141-319 | every step of the pool is to the executor that takes it a lease, a return or a removal as that executor counts on, and to one whose connections it does not give away the others at work; what is seen stays sound |
| PoolRefinements.RunSeen | include/metal/pool.hpp:112-431 | so is any schedule of steps that does not give those connections away |
| CacheCodec.Writer.WriteU64 | include/metal/cache_codec.hpp:34-38 | eight bytes, lowest first |
| CacheCodec.Writer.WriteValue | include/metal/cache_codec.hpp:61-83 | tag and payload of every kind of value |
| CacheCodec.Writer.WriteRow | include/metal/cache_codec.hpp:208-221 | the fields in order of their names, whatever order the map yields them in |
| CacheCodec.EncodeQueryResult | include/metal/cache_codec.hpp:201-225 | magic, counts, rows and totals |
| CacheCodec.FormIsUnique | include/metal/cache_codec.hpp:208-221 | the bytes depend on the contents of the rows alone |
| CacheCodec.LittleEndianBack | include/metal/cache_codec.hpp:34-38 | eight little-endian bytes give back every 64-bit number |
| CacheReader.Reader.NextValue | include/metal/cache_codec.hpp:155-172 | the value that stands at the position, an error on an unknown tag, a bad boolean or too few bytes |
| CacheReader.Reader.NextRow | include/metal/cache_codec.hpp:239-249 | the row that stands there, an error on a name that occurs twice |
| CacheReader.Reader.NextCount | include/metal/cache_codec.hpp:127-134 | a count above 1000000 is an error |
| CacheReader.DecodeQueryResult | include/metal/cache_codec.hpp:227-257 | any bytes are an error or are read to their very end, every read within bounds |
| CacheRoundTrip.ValueReadsBack | include/metal/cache_codec.hpp:61-172 | a value reads back wherever it stands |
| CacheRoundTrip.RowReadsBack | include/metal/cache_codec.hpp:208-249 | a row reads back exactly if it has at most 1000000 fields |
| CacheRoundTrip.CacheReadsBack | include/metal/cache_codec.hpp:201-257 | decoding the encoded result gives it back exactly if it is within the limit |
| CacheRoundTrip.OneRowTooMany | include/metal/cache_codec.hpp:127-134 | a result of 1000001 rows is written and cannot be read |
| DdlScanner.FindMatchingParen | include/metal/sqlite_ddl_parser.hpp:82-149 | the flags and the depth of the loop follow the lexical modes; only parentheses outside of quotes, brackets and comments count |
| DdlScanner.FindKeywordTopLevel | include/metal/sqlite_ddl_parser.hpp:151-219 | the first keyword outside of everything |
| DdlScanner.ReadSqlIdentifier | include/metal/sqlite_ddl_parser.hpp:48-80 | quoted, bracketed and bare names |
| DdlScanner.QuoteAnsiIdentifier | include/metal/query/core_types.hpp:45-53 | every quote doubled |
| DdlScanner.QuotedReadsBack | include/metal/sqlite_ddl_parser.hpp:48-70 | reading inverts quoting for every name, wherever it stands |
| DdlScanner.TrimSqlView | include/metal/sqlite_ddl_parser.hpp:14-22 | white space off both ends |
| DdlCalm.CalmInContext | include/metal/sqlite_ddl_parser.hpp:151-219 | a piece in which a scan finds nothing is passed in any text that goes on neutrally |
| DdlCalm.ClosesAt | include/metal/sqlite_ddl_parser.hpp:82-149 | a balanced text is closed by the parenthesis right behind it |
| DdlCalm.QuotedIsCalm | include/metal/sqlite_ddl_parser.hpp:106-115 | no scan sees anything in a quoted name |
| DdlColumns.RenderReferenceDefinition | include/metal/schema_diff.hpp:149-162 | the appends make the reference clause, part by part |
| DdlColumns.RenderColumnDefinition | include/metal/schema_diff.hpp:164-177 | the appends make the definition as ALTER TABLE ADD sends it, part by part |
| DdlColumns.SplitTableBody | include/metal/sqlite_ddl_parser.hpp:232-331 | the trimmed texts between the commas outside of everything; none without a body |
| DdlColumns.ExtractCheckExpression | include/metal/sqlite_ddl_parser.hpp:221-230 | the trimmed text in the parentheses behind CHECK |
| DdlColumns.ConstraintNameForUnique | include/metal/sqlite_ddl_parser.hpp:436-452 | the name right before the keyword, or none |
| DdlColumns.DatabaseTable.ParseUniqueConstraints | include/metal/sqlite_ddl_parser.hpp:466-502 | columns marked unique by column and single-column table constraints; composite ones are passed over |
| DdlColumns.DatabaseTable.ParseCheckConstraints | include/metal/sqlite_ddl_parser.hpp:504-551 | conditions of columns and of the table |
| DdlTables.UniqueFound | include/metal/sqlite_ddl_parser.hpp:494-500 | in a rendered column UNIQUE is found exactly if the column has it, and where it was written |
| DdlTables.ConstraintOf | include/metal/sqlite_ddl_parser.hpp:436-452 | the constraint name found is the one that was rendered |
| DdlTables.CheckFound | include/metal/sqlite_ddl_parser.hpp:537-549 | CHECK is found exactly if the column has one, with its trimmed condition |
| DdlTrims.WordsCut | include/metal/sqlite_ddl_parser.hpp:151-219 | white space at the end of a text hides no keyword and brings none in |
| DdlTrims.ConstraintCut | include/metal/sqlite_ddl_parser.hpp:436-452 | nor does it change the name of a constraint |
| DdlTrims.CheckCut | include/metal/sqlite_ddl_parser.hpp:221-230 | nor the condition of a CHECK |
| DdlConstraints.UniqueReads | include/metal/sqlite_ddl_parser.hpp:466-491 | a rendered UNIQUE of the table over one column sets flag and name of that column, one over several columns none |
| DdlConstraints.CheckConstraintReads | include/metal/sqlite_ddl_parser.hpp:504-535 | a rendered CHECK of the table is found with its name and its trimmed condition |
| DdlWhole.SegmentUnique | include/metal/sqlite_ddl_parser.hpp:466-502 | parsing a rendered column for UNIQUE sets flag and name of that column as rendered |
| DdlWhole.SegmentCheck | include/metal/sqlite_ddl_parser.hpp:504-551 | parsing it for CHECK sets the condition of that column |
| DdlWhole.SplitsAtCommas | include/metal/sqlite_ddl_parser.hpp:267-330 | the splitter cuts at exactly the commas between segments and takes white space off their ends |
| DdlWhole.HeadOpens | include/metal/sqlite_ddl_parser.hpp:232-264 | the body begins behind the table name, whatever that name is |
| DdlWhole.BodyIsColumns | include/metal/sqlite_ddl_parser.hpp:232-331 | the segments of a rendered table are its rendered columns, without white space at their ends |
| DdlWhole.TableReadsBack | include/metal/sqlite_ddl_parser.hpp:436-551 | parsing a rendered table gives back every column's name, unique flag, constraint name and trimmed condition |
| DdlWhole.Introspect | include/metal/sqlite_ddl_parser.hpp:436-551 | rendering columns one by one, joining them with commas as a table body, and parsing that text gives each column back |

## Left out

- SQL engines, drivers, threads and reflection: the database is a map with savepoints whose answers may be errors; a stretch of code under a lock is one step.
- Lifecycle hooks, interceptors, domain events and relation changes: callbacks that run application code between the modelled steps.
- Relation loaders, graph persistence, OpenAPI, tag index, memory cache, duration parsing, generators, bulk chunking, schema plans: wide but shallow.
- TreeManagers.TreeManager.InsertAsChild: the new key is given by the caller and is no row's key; an INSERT that the database rejects after the gap was opened is not modelled.
- TreeManagers.TreeManager.MoveTo: like the other mutators it needs a node as the table has it now; stale nodes are not modelled.
- TreeManagers.TreeManager.Validate: rows with equal left boundaries are excluded, since the answer then depends on how the sort breaks ties.
- TreeManagers.TreeManager.RecoverBoundaries: errors of the executor, which the source turns into a failed result, are not modelled.
- TreeRuns.ReplayFromEmpty: boundaries are mathematical integers; only the distance 10000000 is taken as it is. The depth column is always there.
- UnitsOfWork.UnitOfWork.FlushInsert: the generated key is the database's choice; how a driver reports it (RETURNING or last insert id) is not told apart.
- UnitsOfWork.UnitOfWork.RestoreEntries: entities live as long as the unit of work; expired weak references are not modelled.
- Sessions.Session.Transaction: executors without transactions, and `clear()` or `rollback()` inside a callback, are excluded; a COMMIT that fails has not committed, and one that succeeds is taken to have committed even after a failed statement whose error the callback caught, though PostgreSQL answers such a COMMIT (src/postgres_executor.cpp:190) with a rollback and no error.
- Cursors.CursorRoundTrip: the text of a double is a parameter, and doubles are carried if that text reads back.
- KeysetOrder.CursorWhereIsLexicographic: the database compares values by one strict total order in which equal means identical.
- FlushChoices.ApartIsExact: new entities whose own keys are those of rows that are there, of removed entities or of one another are outside.
- PoolRefinements.TakeSeen: which transactions are open is not the pool's to know, so they are a parameter that its steps leave alone.
- Pages.ExecuteCursor: the pairs first/before and last/after are not stated; rows with equal order values appear in any order; a LIMIT above 2^63-1 is taken by its value, which a database may refuse.
- Pages.DistinctRootRows: the text key of a value stands for the value itself.
- OffsetPages.ExecutePaged: a result has fewer than 2^63 rows; the row variant with a COUNT query is left to the database.
- QueryCompiler.Compile: functions whose renderers reorder, repeat or drop arguments, PostgreSQL functions and the `every` filter are outside; a statement is a list of words, names and placeholders, whose spelling is a table.
- ResourcePools.Pool.Acquire: one attempt of the loop; waiting, timeouts and wake-ups are not modelled, so nothing is said about liveness.
- ResourcePools.Pool.Dispose: destroying a resource does not throw.
- PooledExecutors.PooledExecutor.Execute: a transaction opened by sending BEGIN as text is not modelled, nor are values beside the text; one executor is used by one thread at a time.
- PooledExecutors.Use: what other executors ask of the pool is not in its log.
- CacheRoundTrip.CacheReadsBack: the 64 bits of a double are a parameter that is inverted by its own inverse.
- DdlWhole.Introspect: the columns are rendered as for ALTER TABLE ADD (include/metal/schema_diff.hpp:270); the CREATE TABLE statement of include/metal/ddl.hpp:148 has a renderer of its own, which is not modelled.
- DdlWhole.TableReadsBack: the foreign-key modifiers parser is not modelled; type and default texts come back from the pragma queries, not from the statement.
- DdlScanner.ReadSqlIdentifier: characters are classed as in the C locale.
