# Verified model of an Arweave gateway and indexer

This project models, in Dafny, the parts of the gateway whose correctness rests on
arithmetic, ordering and interleaving, and proves what they promise. Run

    dafny verify dfyconfig.toml

from this directory.

Tables are maps and sets, a SQL statement or transaction is one step, hashes are
functions nothing is known about, and tasks that run at the same time are state
machines whose steps may interleave in any order. Code that changes state is modelled
by classes and loops, each proved against a specification. Where memory or the network
may cut, delay or fail something, the model lets it happen in every way.

| files | component |
|---|---|
| `ChainIndex`, `ChainStore`, `ImportRange` | the canonical block index, its tables, and the import that follows a node through reorganisations |
| `CachedRange` | the test that cached chunks cover a range |
| `BundleScan`, `Admission`, `ScanRestart` | paging through pending bundle roots in two lanes, the ledger of admitted work, and the saved scan position |
| `Paths`, `BundleTraversal`, `BundlePersistence`, `BundleRows`, `BundleGeometry` | walking nested bundles, storing them in batches that survive crashes, and the checks at write and read time |
| `Placements` | where every transaction and item first occurs on the chain |
| `TransactionWindow`, `TransactionWriter` | selecting, fetching and writing pending transactions at the same time |
| `DiskAdmission` | the lock-free admission of writes to the disk cache |
| `Base64Text`, `JsonBase64`, `Content`, `ContentIo` | base64 payloads behind JSON escapes, seekable and restorable views, and reading and writing content |
| `TorrentPieces`, `Merkle`, `Bencode`, `Torrent` | hybrid torrents |
| `LaneMixing` | the far mix of the packing replica |
| `JiffyNumber` | printing numbers the way the legacy block hash expects |
| `Wrappers`, `Octets`, `Decimals`, `Arithmetic`, `Sequences` | option, result and byte types, numbers in base ten, and the arithmetic and sequence facts used throughout |

Three results say that a property does not hold in general, with an input that breaks it
and the exact condition under which it holds. The fourth shows what a comment in the code
warns of:

- `ChainIndex.AdvanceCanContradict`: moving the checkpoint can contradict a stored block;
  `AdvanceKeepsIff` says exactly when it does. `ImportRange.ImportBlocks` never calls it so.
- `ScanRestart.RewindCanSkip`: after a rewind of the live lane the saved position can lie
  behind a root that is being worked on, and after a crash the cycle restarted passes it
  by; the next cycle finds it. `SaveIff` says exactly when a saved position is early
  enough, `RestartFindsIff` exactly which roots a restart finds.
- `Placements.StartBlockMisleads`: a commit looks its bundle up before it waits for the
  lock, and a bundle at or below the checkpoint is not looked up again. If the first block
  of the index is written in between, an item can be moved to a place that does not count.
  `CommitLocked` says exactly when; `Replay` and `Interleave` say when it cannot happen.
- `DiskAdmission.SwappedOrderOverfills`: the order in which admission reads its two numbers
  matters; read the other way round, the disk floor can be broken.

## Model

| member | source | states |
|---|---|---|
| `ChainIndex.CommitKeeps` | src/database.rs:1576-1677 | an accepted batch leaves the stored chain contiguous from the start height, hash linked, with nondecreasing weave, agreeing with the pin, at most 50 blocks past it, and every row of the shape its columns allow |
| `ChainIndex.RewindKeeps` | src/database.rs:1456-1494 | dropping the blocks above an ancestor at or above the pin keeps all of that |
| `ChainIndex.InitializeKeeps` | src/database.rs:1524-1575 | the index starts out sound, and initialising again does not change a sound index |
| `ChainIndex.AdvanceKeepsIff` | src/database.rs:1495-1523 | moving the pin keeps the index sound exactly if the new pin agrees with the block stored at its height, if there is one |
| `ChainIndex.AdvanceCanContradict` | src/database.rs:1495-1523 | a concrete accepted move of the pin that contradicts a stored block |
| `ChainIndex.EveryReachableIndexIsSound` | src/database.rs:1456-1677 | every run of the four operations in which new pins agree with stored blocks reaches only sound indexes |
| `ChainIndex.HitIsUnique` | src/database.rs:3402-3429 | at most one stored block has its predecessor's weave below an offset and its own weave at or above it |
| `ChainIndex.HitExists` | src/database.rs:3402-3429 | an offset between the first and the last stored weave has such a block |
| `ChainIndex.OffsetLookupIsExact` | src/database.rs:3402-3429 | the lookup answers with that block and its predecessor, and with nothing exactly if no block holds the offset |
| `ChainStore.ValidateBatch` | src/database.rs:3495-3559 | the loop with the moving predecessor accepts exactly the batches whose blocks continue the index one after the other |
| `ChainStore.BlockStore.InitializeIndex` | src/database.rs:1524-1575 | creates the state or returns the stored one if it is for the same start and source; refuses anything else and changes nothing then |
| `ChainStore.BlockStore.CommitBatch` | src/database.rs:1576-1677 | accepts exactly the batches that continue the index block by block, of rows not stored otherwise, for the pin and source it was given, and then stores them; a refused batch changes nothing |
| `ChainStore.BlockStore.RewindTo` | src/database.rs:1456-1494 | removes exactly the heights above the ancestor, or changes nothing |
| `ChainStore.BlockStore.AdvanceCheckpoint` | src/database.rs:1495-1523 | replaces exactly the pin, or changes nothing; the index stays sound exactly if the new pin agrees with the block stored at its height |
| `ImportRange.AgreementDescends` | src/indexer.rs:162-180 | if store and node agree on one block they agree on every stored block below it |
| `ImportRange.PinAgreementDescends` | src/indexer.rs:161-189 | if the node still has the pinned block, store and node agree on everything stored up to the pin |
| `ImportRange.FetchBatch` | src/indexer.rs:219-259 | succeeds exactly if the node's entries of those heights are well formed, their weave does not shrink and the pinned one is the pin; they are then linked blocks |
| `ImportRange.FindAncestor` | src/indexer.rs:162-181 | the walk down ends at the highest stored height on which store and node agree, never below the pin; it fails exactly if it meets a malformed hash first |
| `ImportRange.Reconcile` | src/indexer.rs:155-201 | succeeds exactly if the pin is still the node's, is not above the height 50 below the tip, and the hashes met on the way are well formed; the index is then cut back to exactly the stored heights on which it agreed with the node, and the pin is the node's block 50 below its tip. A failure adds no height and loses none on which they agree |
| `ImportRange.PinIndex` | src/indexer.rs:144-203 | the pin of a new index is the node's block 50 below its tip; a stored one is reconciled; exactly when this fails |
| `ImportRange.ImportBatch` | src/indexer.rs:213-270 | one turn of the loop extends the index by exactly the fetched heights and keeps it in agreement with the node; exactly when it fails |
| `ImportRange.ImportHeights` | src/indexer.rs:205-270 | batch by batch the index grows to the end of the range, in agreement with the node, exactly if the rest of the node's chain can be stored; the number returned is that of the heights added |
| `ImportRange.ImportBlocks` | src/indexer.rs:123-277 | succeeds exactly if the node's chain and the state of the index allow it (`Importable`); every height of the range is then stored and equal to the node's block, the pin is the node's block 50 below its tip, and the number reported is exactly that of the heights on which store and node did not agree before. Success or failure, no block on which they agree is lost and the pin never moves back |
| `CachedRange.RangeCompleteIsCoverage` | src/database.rs:1394-1427 | the running-maximum test holds exactly if every position of the half-open range lies in some cached chunk |
| `BundleScan.PageOfPages` | src/database.rs:2070-2151 | the first 64 of the per-block first 64 are the first 64 of all pending roots |
| `BundleScan.LaneMembers` | src/database.rs:2048-2178 | a lane is sorted and holds exactly the pending roots of its heights behind the cursor |
| `BundleScan.AfterPage` | src/database.rs:2070-2151 | continuing behind the last root of a page yields exactly the rest of the lane |
| `BundleScan.LiveStep` | src/database.rs:2180-2243 | a live page is a prefix of what is left, an empty page still moves the cursor forward, and the invented cursor at the end of a span skips nothing |
| `BundleScan.LivePageSpan` | src/database.rs:2185-2213 | a live page has at most 64 roots, reaches 999 heights beyond the one it starts at and, unless it is full, holds all pending roots up to there; where the cursor stands after a page without roots |
| `BundleScan.BackfillStep` | src/database.rs:2180-2243 | the same for the descending lane |
| `BundleScan.BackfillPageSpan` | src/database.rs:2214-2241 | the same downwards |
| `BundleScan.ScanStep` | src/database.rs:2180-2243 | each page takes the next stretch of what both lanes still have to yield, and there is less room for another page afterwards |
| `BundleScan.NextPage` | src/background.rs:984-1009 | one turn of the scheduler returns the next page, of at most 64 roots, and moves the cursor of its lane |
| `BundleScan.Discover` | src/background.rs:984-1009 | paging until nothing comes back terminates and yields exactly what the two lanes hold |
| `BundleScan.CycleFindsAll` | src/database.rs:2180-2243 | from empty cursors a cycle finds every pending root of the range exactly once, the live lane upwards, then the backfill lane downwards |
| `BundleScan.BundleScan.RewindLive` | src/database.rs:323-334 | over any store, the live lane then holds exactly what it held and all pending roots above the stable height |
| `BundleScan.RewindRevisits` | src/database.rs:323-334 | after a rewind the live lane yields all it would have yielded and every pending root above the stable height |
| `Admission.Admission.Reserve` | src/background.rs:112-147 | a reservation is granted exactly if the sums over the live reservations leave room and the job is not running already; the counters stay those sums |
| `Admission.Admission.Shrink` | src/background.rs:219-233 | lowering a reservation lowers the counters by the difference, and raising one is refused |
| `Admission.Admission.Release` | src/background.rs:235-247 | dropping a reservation returns exactly what it held and forgets its scan position |
| `Admission.Admission.TrackScan` | src/background.rs:154-167 | a live job is tracked at a sequence at most the one given, no tracked sequence ever rises, and other jobs stay as they are |
| `Admission.Admission.ScanCheckpoint` | src/background.rs:169-186 | the position to save is that of the earliest tracked page, or the boundary if nothing is tracked, with the live cursor never above the boundary's |
| `Admission.RequestsHaveRoom` | src/background.rs:70-147 | scheduled work alone can never use up the jobs or half of the bytes kept for requests |
| `ScanRestart.PageMovesForward` | src/background.rs:984-1009 | a page moves the cursor of its lane strictly forward, and its roots lie ahead of the position it was asked from |
| `ScanRestart.StepKeeps` | src/background.rs:775-1009 | every step of the worker keeps pages of one cycle in order, in the backfill lane throughout and in the live lane between rewinds, and the saved position not later in the backfill lane than the outstanding pages of its own cycle |
| `ScanRestart.SaveIff` | src/background.rs:154-186 | whatever rewinds and new cycles there were, the position to save is not later than any page with outstanding work, nor than what comes next, exactly if it is not later than the first such pages since each rewind and cycle, and its backfill cursor not later than the present one |
| `ScanRestart.SaveWithinCycleIff` | src/background.rs:154-186 | within a cycle the live cursors of those pages decide, however many rewinds there were |
| `ScanRestart.OneRewind` | src/background.rs:154-186 | after one rewind within a cycle that is one comparison, and none if no page with outstanding work was fetched since |
| `ScanRestart.CheckpointIsEarly` | src/background.rs:154-186 | without a rewind since the earliest page with outstanding work the position to save is not later than any of them, nor than what comes next |
| `ScanRestart.StaysSettled` | src/background.rs:743-1009 | such a position, and every position saved later, stays not later than what is then outstanding, up to the next rewind or cycle |
| `ScanRestart.RewindKeepsIff` | src/database.rs:323-334 | a rewind keeps a saved position not later than what is outstanding or comes next exactly if its live cursor is not behind the end of the height rewound to |
| `ScanRestart.RestartFindsIff` | src/background.rs:894-1009 | after any run from a loaded position, with any rewinds and new cycles, a waiting root that is still pending is found again in the cycle restarted exactly if: in the live lane it lies above the checkpoint of the restart or ahead of the saved live cursor; in the backfill lane its page is of the cycle of the saved position, or it lies ahead of the saved backfill cursor. The next cycle finds it in any case |
| `ScanRestart.FirstCycleFindsIff` | src/background.rs:894-1009 | until a new cycle begins every waiting root of the backfill lane is found, and one of the live lane exactly as above |
| `ScanRestart.WaitingRootsSurviveRestart` | src/background.rs:154-186 | a crash at any point after a position was saved in a run from a loaded position, with no rewind since the earliest outstanding page, and up to the next rewind or cycle: every root being worked on or still to be admitted is found again from the position saved by then |
| `ScanRestart.RewindCanSkip` | src/background.rs:154-186 | a run with one rewind within the unstable window, a crash and a restart whose cycle does not come to a root that was being worked on |
| `BundleTraversal.BundleTraversal.constructor` | src/indexer.rs:1812-1827 | a fresh walk has the whole bundle before it |
| `BundleTraversal.BundleTraversal.NextMatching` | src/indexer.rs:1833-1907 | the explicit stack reports the items of the recursive preorder one by one, then its end or its failure; it terminates |
| `BundleTraversal.WalkIsExact` | src/indexer.rs:1833-1907 | a walk succeeds exactly if no chain of wanted bundles from the root leads to an entry with an id that is broken, is a binary item that is wanted but does not verify, or is a payload that cannot be opened; it then reports exactly the ends of such chains that have an id, verify, and are bundles or match the filter, at their place. Nothing else is ever reported |
| `BundleTraversal.WalkInOrder` | src/indexer.rs:1833-1907 | paths strictly increase, so no two are equal, and never exceed the nesting limit |
| `BundleTraversal.WalkParents` | src/indexer.rs:1833-1907 | the parent of an item is the root or an item reported before it |
| `BundleTraversal.FilterCommutes` | src/indexer.rs:1779-1790 | if all items verify, walking with a filter equals walking without one and dropping the rejected items |
| `BundlePersistence.WalkApart` | src/indexer.rs:1833-1907 | siblings reported by a walk over well framed payloads do not overlap |
| `BundlePersistence.WalkIsPlan` | src/indexer.rs:1676-1907 | what a walk reports satisfies everything the tables check |
| `BundlePersistence.BatchAccepted` | src/database.rs:2288-2569 | a stretch of the walk is accepted if everything before it is stored, however much of the stretch is stored already |
| `BundlePersistence.BatchKeepsReady` | src/database.rs:2478-2569 | after a commit the tables hold the stretch too and are ready for the next one |
| `BundlePersistence.BundleTables.CommitBatch` | src/database.rs:2288-2569 | the checks and inserts one after the other accept exactly the valid batches; an accepted batch is stored as a whole beside all rows stored before, which stay as they were and readable, and a refused one changes nothing |
| `BundlePersistence.NextBatch` | src/indexer.rs:1755-1775 | batches are consecutive full stretches of the walk, only the last is shorter |
| `BundlePersistence.PersistBundle` | src/indexer.rs:1676-1754 | for every batch size, stopping after any commit and starting again ends with exactly the items of the walk stored; only the last batch marks the bundle complete. A walk that fails has stored all but its last two batches, and a process stopped after some batches has stored them |
| `BundlePersistence.CompleteIsExact` | src/database.rs:2416-2482 | a complete bundle holds exactly the items of its walk, then and after any further commits and other writes, each with its own id, parent, offsets, sizes and format |
| `BundleRows.OverlapTestIsExact` | src/database.rs:122-131 | comparing each row with the one directly before it finds an overlap exactly if any two siblings overlap |
| `BundleRows.CommitKeeps` | src/database.rs:2288-2569 | accepted rows have complete, unambiguous parents that contain them, fitting sizes and disjoint siblings, and so do all rows stored before |
| `BundleRows.RunKeeps` | src/database.rs:2288-2569 | this holds after every run of commits and metadata writes |
| `BundleRows.CompleteStays` | src/database.rs:2416-2482 | a complete bundle accepts no new occurrence: over every later run of commits and other writers its rows stay the same |
| `BundleRows.CheckLevels` | src/database.rs:2794-2841 | the reader's loop accepts exactly the levels that fit together: parents, paths, offsets, sizes and bounds |
| `BundleRows.BundleLocation` | src/database.rs:2742-2841 | looking up a stored occurrence never fails and returns its ancestors from the root down |
| `BundleRows.LookUp` | src/database.rs:2742-2855 | looking up an item finds its first occurrence in the root exactly if it has one, with all its ancestors, and never fails |
| `BundleRows.FindItem` | src/database.rs:2742-2855 | among the occurrences of an item in all roots on the chain the lookup finds the first by height, then position, then path, with all its ancestors, and nothing exactly if there is none |
| `BundleGeometry.NestedOrDisjoint` | src/database.rs:2404-2415 | in a bundle whose parents are all binary, any two occurrences are nested or do not share a byte of the root |
| `BundleGeometry.ChildInside` | src/database.rs:2520-2556 | a child lies inside the payload of its parent |
| `Placements.PlacementTables.FirstOccurrence` | src/database.rs:2681-2708 | the full recomputation finds the least of (height, position, path) over all occurrences of an item above the start |
| `Placements.PlacesInOrder` | src/database.rs:2681-2708 | places compare by height, then by position in the block, then by path |
| `Placements.PlacementTables.FirstViaRoot` | src/database.rs:2647-2654 | the incremental candidate is the least that the new locations give through the places of their bundles |
| `Placements.PlacementTables.WriteBlock` | src/database.rs:1764-1935 | writing the transactions of a block, paged over the items below them, leaves every transaction and every item at its first occurrence; only a conflicting block is refused |
| `Placements.PlacementTables.RefreshBundle` | src/database.rs:2580-2679 | after the incremental refresh a requested item is right exactly unless it was placed before and one of its new locations is in a bundle that stands at the start |
| `Placements.PlacementTables.LookUp` | src/database.rs:165-177 | the lookup before a commit finds exactly the bundles all of whose occurrences lie above the start of the index, and the first of their heights |
| `Placements.PlacementTables.CommitLocked` | src/database.rs:2352-2569 | from the lock on, whatever was written since the lookup: an accepted commit takes in its items, and every item stands at its first occurrence exactly unless the commit is accepted, the bundle has come to stand at the start, and an item placed before gains a location in it; only a bundle seen above the checkpoint is looked up again |
| `Placements.PlacementTables.CommitLocations` | src/database.rs:2288-2569 | a bundle commit is refused exactly if the bundle does not occur, or occurs at the start of the index; otherwise every incoming path has a location, a path that was free that of the first item that came for it, nothing else is new, no path has two locations, and every item stands at its first occurrence |
| `Placements.AddedTakenIn` | src/database.rs:2481-2503 | inserting unless the path is taken does all that |
| `Placements.MergeRight` | src/database.rs:2647-2679 | the earlier of the old place and the best new candidate is the first occurrence over old and new locations |
| `Placements.StandsKept` | src/database.rs:1764-1935 | a block moves a bundle to the start of the index exactly if it is the block there and lists the bundle |
| `Placements.IncrementalIsFull` | src/database.rs:2580-2708 | a place kept up to date is the place a full recomputation finds |
| `Placements.Replay` | src/database.rs:1764-2569 | however block writes from the start on and bundle commits alternate, every place stays the first |
| `Placements.Interleave` | src/database.rs:1764-2569 | so it does in every interleaving of block writes, lookups and locked commits of any number of tasks, as long as the block at the start lists no bundle looked up before |
| `Placements.StartBlockMisleads` | src/database.rs:2352-2376 | a concrete interleaving: the block at the start is written while the commit of a stable bundle waits for its lock |
| `TransactionWindow.StepKeeps` | src/indexer.rs:382-607 | every step of selection, fetching and writing keeps the invariant that each transaction and each active height is in exactly one place |
| `TransactionWindow.WindowBounded` | src/indexer.rs:391-401 | at most 32 heights are active, and no two jobs in flight share one |
| `TransactionWindow.LeavesRecorded` | src/indexer.rs:553-606 | a height leaves the active set only when every transaction of its job is recorded |
| `TransactionWindow.RecordedOnce` | src/indexer.rs:559-573 | no run writes a transaction twice, and what it has written is what is recorded |
| `TransactionWindow.GroupsAre` | src/indexer.rs:421-425 | grouping an answer makes one job per height, in order, with exactly the transactions answered |
| `TransactionWindow.EndsWhenDone` | src/indexer.rs:408-419 | the stream ends only when nothing is pending, queued or in flight and everything is recorded |
| `TransactionWindow.NeverStuck` | src/indexer.rs:382-427 | no wake-up is lost: before the end some step can always be taken |
| `TransactionWindow.StepDecreases` | src/indexer.rs:382-607 | every step, the repeated queries and wake-ups included, leaves less to do |
| `TransactionWindow.EveryRunRecordsAll` | src/indexer.rs:382-607 | however the steps interleave, a run has at most 50 steps per transaction and a run that cannot go on has recorded every transaction |
| `TransactionWriter.MetadataWriter.Persist` | src/indexer.rs:536-607 | for every cut of the jobs into batches, the writer's loop records all transactions once and in order, lets each height go only after its transactions, and wakes the selection after the last one; it takes its batches from the channel of the window and every effect is a step there |
| `TransactionWriter.MetadataWriter.PersistJob` | src/indexer.rs:553-590 | one job keeps what is recorded or buffered equal to what the jobs so far held |
| `TransactionWriter.MetadataWriter.WritesInWindow` | src/indexer.rs:536-607 | what the loop did is a run of the window made of the writer's steps only: its log is their effects, its recorded transactions and active heights are the window's, and the window's invariant still holds |
| `DiskAdmission.StepKeeps` | src/disk_cache.rs:543-583 | every step keeps: free space covers the floor and the unwritten bytes of all admitted writes |
| `DiskAdmission.CheckKeeps` | src/disk_cache.rs:558-583 | admitting against a snapshot of the reservations is safe even if others reserved, wrote or released since |
| `DiskAdmission.FloorHolds` | src/disk_cache.rs:543-583 | in every interleaving free space minus what admitted writes have still to write never falls below the floor |
| `DiskAdmission.SpaceConserved` | src/disk_cache.rs:265-340 | no step makes or loses space: what is free and what the writes have on disk change together |
| `DiskAdmission.AdmittedWriteFits` | src/disk_cache.rs:265-340 | an admitted write always finds the space for its next bytes |
| `DiskAdmission.SwappedOrderOverfills` | src/disk_cache.rs:558-583 | if the free space were read before the reservations, a run would break the floor |
| `DiskAdmission.CacheDirectory.ReserveBytes` | src/disk_cache.rs:543-556 | a reservation is one step of the protocol; it is refused exactly if it would exceed the limit or the word, and charges at least one byte |
| `DiskAdmission.CacheDirectory.LoadTotal` | src/disk_cache.rs:558-569 | reading the reservations is one step of the protocol |
| `DiskAdmission.CacheDirectory.Decide` | src/disk_cache.rs:558-583 | admits exactly if floor and snapshot together fit a word and the free space covers them; one step of the protocol |
| `DiskAdmission.CacheDirectory.ReleaseBytes` | src/disk_cache.rs:62-79 | dropping a reservation is one step of the protocol |
| `Base64Text.DecodeInvertsEncode` | src/json_bundle.rs:708-711 | decoding the unpadded URL-safe text of bytes gives the bytes (RFC 4648, section 5) |
| `Base64Text.EncodeInvertsDecode` | src/json_bundle.rs:708-711 | only that text decodes to them: unused bits must be zero |
| `Base64Text.SextetIsPlace` | src/json_bundle.rs:708-711 | a character has a value exactly if it is in the alphabet of RFC 4648, section 5, and then its place there |
| `Base64Text.DecodeIsNumber` | src/json_bundle.rs:708-711 | text decodes exactly if all characters are in the alphabet, no single one is left over and the unused bits are zero; its characters read as one number to base 64 are then the bytes read as one number to base 256, but for the unused bits |
| `Base64Text.DecodeSplits` | src/json_bundle.rs:658-713 | text of whole groups decodes on its own, three bytes for every four characters |
| `Base64Text.TakeSplits` | src/json_bundle.rs:663-704 | cutting escaped text between two characters splits its meaning |
| `Base64Text.HexIsPlace` | src/json_bundle.rs:688-695 | a hexadecimal digit is its place among the digits, in either case |
| `Base64Text.HexIsNumber` | src/json_bundle.rs:686-698 | four digits are their number to base 16 |
| `Base64Text.TokenIs` | src/json_bundle.rs:681-704 | the characters an escape stands for, by the table of RFC 8259, section 7; everything else is malformed |
| `JsonBase64.Decoder.Next` | src/json_bundle.rs:662-713 | however the buffer cuts the text, a block is the next 65536 unescaped characters, fewer only at the end, and it fails exactly on a malformed escape or malformed base64 |
| `JsonBase64.Decoder.Escape` | src/json_bundle.rs:681-704 | an escape is read as RFC 8259, section 7 writes it, or refused |
| `JsonBase64.Scan` | src/json_bundle.rs:555-589 | scanning succeeds exactly if the whole text decodes; its checkpoints start at (0, 0), strictly increase on both sides, lie in range, number at most 4097, and decoding can start at each; they are a stride apart, at most one block more, and the last is less than a stride before the end |
| `JsonBase64.BlockSplits` | src/json_bundle.rs:605-713 | decoding block by block is decoding everything |
| `JsonBase64.DecodedStream.Next` | src/json_bundle.rs:618-650 | each piece is the next part of what is left, never empty, and never missing before the range ends |
| `JsonBase64.Stream` | src/json_bundle.rs:605-650 | a range opened at the checkpoint before it has exactly that range of the decoded payload to deliver |
| `Content.SliceIsView` | src/content.rs:437-472 | a slice of a view stands for the slice of its bytes, and only a range outside the view fails |
| `Content.SliceOfSlice` | src/content.rs:437-472 | slicing twice is slicing once |
| `Content.RestoreRoundTrip` | src/content.rs:199-278 | every description of a well formed view, at any nesting of payloads and slices, is accepted and stands for the same bytes; beside a disk cache it is the same view |
| `Content.AcceptedIsDescribed` | src/content.rs:225-278 | whatever is accepted is described again word for word, and lies within its source |
| `Content.AcceptedIsOrdered` | src/content.rs:242-265 | accepted checkpoints start at (0, 0), number at most 4097, strictly increase on both sides and lie within the text and the payload |
| `Content.BackingSuffices` | src/content.rs:46-56 | a view depends on nothing but the bytes of its backing range |
| `Content.ReadAt` | src/content.rs:474-502 | reading part of a view, through any nesting of encoded payloads, gives that part of its bytes, and fails exactly outside the view |
| `ContentIo.ReadExactAt` | src/content.rs:122-146 | short reads are put together to exactly the bytes asked for; only a failing read or the end of the file ends it; reading nothing always succeeds |
| `ContentIo.ContentReader.PollRead` | src/content.rs:698-764 | through any sequence of polls of a stream, of memory or of a file, with pending reads and buffers of any size, the bytes come in order and without gaps; nothing is ready only if nothing was asked for or nothing is left; it is pending or fails only if a read behind it is or does |
| `ContentIo.ContentWriter.Write` | src/content.rs:827-854 | a piece is taken as a whole or, if the pieces would exceed the length agreed, not at all |
| `ContentIo.ContentWriter.Finish` | src/content.rs:856-875 | content is complete exactly when the pieces taken add up to the length agreed, and then it is those pieces in order |
| `ContentIo.CopyAll` | src/content.rs:509-552 | copying a view into a writer keeps it whole, and comes to its end unless a read fails or is pending |
| `TorrentPieces.V1Pieces.Update` | src/index_publication.rs:196-207 | however the stream is cut, the whole pieces hashed and the rest waiting are those of the stream |
| `TorrentPieces.V1Pieces.Finish` | src/index_publication.rs:208-219 | the hashes are those of the unsplit stream, the last piece possibly shorter |
| `TorrentPieces.SplitBlocks` | src/index_publication.rs:289-321 | the block hashes do not depend on how the reads were cut |
| `TorrentPieces.HashesAt` | src/index_publication.rs:196-219 | each hash is that of its own stretch of the stream |
| `Merkle.Merkle` | src/index_publication.rs:224-255 | the loop over the levels returns the root of the zero-padded perfect tree, and a piece layer exactly for files longer than a piece (BEP 52, "pieces root" and "piece layers") |
| `Merkle.LevelAt` | src/index_publication.rs:231-245 | an entry of a level is the root of the leaves below it |
| `Merkle.PieceLayerAt` | src/index_publication.rs:246-254 | each entry of the piece layer is the root of the blocks of that piece |
| `Merkle.LayerFolds` | src/index_publication.rs:224-255 | the piece layer has one entry per started piece and, filled up with roots of zero subtrees, folds back to the root of the file |
| `Bencode.ParseInvertsEncode` | src/index_publication.rs:141-164 | whatever follows, the text of a value reads back as that value (BEP 3) |
| `Bencode.EncodeIsPrefixFree` | src/index_publication.rs:141-164 | no text is the text of two values or the beginning of another's |
| `Bencode.KnownTexts` | src/index_publication.rs:141-164 | the sample texts of BEP 3 |
| `Bencode.LookupInsert` | src/index_publication.rs:132-139 | adding to a sorted dictionary changes what its key stands for and nothing else |
| `Torrent.HashFile` | src/index_publication.rs:285-321 | one pass over a file, in reads of any size, gives its block hashes and feeds the same bytes to the piece hashes |
| `Torrent.BuildTorrent` | src/index_publication.rs:267-383 | the spliced text is the encoding of the torrent of these files and, read back, says what `Torrent.TorrentSays` lists; building fails exactly if a file is not the size it was said to be |
| `Torrent.TorrentSays` | src/index_publication.rs:267-383 | read by its keys the torrent has meta version 2, its name and piece length, the SHA-1 hashes of the padded stream, in the list every file with its length and path and then its padding, in the tree every file with its own length and root, and a layer exactly for every file longer than a piece |
| `Torrent.FlattenAt` | src/index_publication.rs:344-347 | in a text of hashes of one length each stands at its own place |
| `Torrent.PiecesOfLast` | src/index_publication.rs:344-347 | the pieces of a further file follow those of the files before it |
| `Torrent.PieceOfFile` | src/index_publication.rs:344-347 | with padding every piece belongs to exactly one file, by the sums of what the files need, and its hash is that file's own |
| `Torrent.PieceCount` | src/index_publication.rs:344-347 | the number of pieces is the sum of what each file needs, rounded up |
| `Torrent.ListCoversStream` | src/index_publication.rs:328-356 | the lengths of the files and paddings listed add up to the hashed stream |
| `Torrent.TreeHasFiles` | src/index_publication.rs:332-343 | files of different names are all in the file tree, each with its own entry |
| `Torrent.LayerFoldsToRoot` | src/index_publication.rs:333-339 | the piece layer stored for a long file folds back to the root stored for it |
| `Torrent.TorrentCanonical` | src/index_publication.rs:358-393 | in the stored and in the served torrent the keys of every dictionary strictly increase |
| `Torrent.WithWebSeed` | src/index_publication.rs:386-393 | appending to the stored text gives the encoding of the torrent with a web seed added, which says all the stored one says and the address |
| `Torrent.InfoKept` | src/index_publication.rs:370-393 | stored and served torrent contain the same info dictionary at the same place, so the info hashes hold |
| `LaneMixing.CopyCrossLane` | native/replica.cpp:42-57 | the loop that cuts at lane borders on both sides is one flat copy |
| `LaneMixing.MixFar` | native/replica.cpp:59-76 | every destination byte is written, from its own source byte |
| `LaneMixing.OriginThenImage` | native/replica.cpp:59-76 | every destination byte has a source byte, from which it is found again |
| `LaneMixing.ImageThenOrigin` | native/replica.cpp:59-76 | every source byte has one destination byte: for any lane size the mix is a permutation |
| `JiffyNumber.WriteFloat` | src/historical.rs:528-595 | for every shortest rendering of a finite number the text printed denotes the same decimal value, with a sign exactly for negative numbers, in fixed notation exactly from 1e-6 up to, not including, 1e21, and spelled as the node spells floats; numbers that are not finite are refused |
| `JiffyNumber.LayoutReads` | src/historical.rs:563-594 | laying out digits around the point, with padding or an exponent, denotes their value |
| `JiffyNumber.FixedRange` | src/historical.rs:563-568 | fixed notation is used exactly for values from 1e-6 up to, not including, 1e21 |
| `JiffyNumber.LayoutWellSpelled` | src/historical.rs:563-594 | fixed: digits on both sides of a point, no needless zero in front, a last zero only as a single .0; otherwise one digit, further ones behind a point, no zero at their end, an e, a sign and an exponent without zeros in front |
| `JiffyNumber.SpellingUnique` | src/historical.rs:563-594 | two such texts of one value in one notation are the same |
| `JiffyNumber.RendersOnce` | src/historical.rs:528-595 | so for every float there is only one text that meets the contract of the formatter |
| `JiffyNumber.Trim` | src/historical.rs:546-562 | dropping zeros at both ends and moving the point keeps the value |
| `JiffyNumber.Collect` | src/historical.rs:529-553 | collecting the digits of the rendering loses none and finds the point |
| `JiffyNumber.WriteNumber` | src/historical.rs:508-526 | an integer of any size keeps its value and its text, except that -0 is printed as 0; anything else is printed with the value of the float it parses to, or refused |

## Left out

- HTTP, timeouts, cancellation of requests, profiling, logging and the PostgreSQL wire protocol; statements and transactions are single steps on tables.
- Hash functions, signatures, RandomX programs and `mix_near`: hashes are unknown functions.
- JSON tokenising: an encoded payload is given as the bytes between its quotes.
- Cascades of a rewind into bundle, placement and transaction tables; a rewind is modelled on the chain tables only, and placements assume none.
- File locks, publication guards and eviction in the disk cache.
- The evaluation of index filters: a filter is any predicate on items.
- RSS, dates, torrent file storage, and the torrent name computed when none is given.
- Reading a node's chain: the node is a fixed chain for the duration of one import.
- The store does not change during one scan cycle of `BundleScan`; work in between is the subject of `ScanRestart`.
- Failures of single fetches in `TransactionWindow`: an error ends the run, and every prefix of a run is covered.
- `BundlePersistence.BundleTables.CommitBatch` and `BundleRows`: tables are maps on values, the object metadata beyond kind, size and format is one number, and two records of one item in a batch are taken to be equal, as their id is a hash of their content.
- Addition of machine integers wraps or saturates nowhere in the modelled ranges except where a check is written out (`DiskAdmission`, `Content`, `BundleRows`); elsewhere numbers are unbounded.
- `JiffyNumber.WriteFloat`: the conversion of a binary float to its shortest decimal digits is a parameter.
- `ContentIo.CopyAll`: a pending read ends the copy instead of being polled again; what was written until then and what is left still make up the view.
- `BundleRows.LookUp`: chooses among the occurrences in one root; `BundleRows.FindItem` chooses among all roots.
- `ScanRestart.Next`: an end of the process is a run that stops there; a checkpoint that cannot be read delays the rewind and is a run without it.
- `TransactionWriter.MetadataWriter.WritesInWindow`: the steps of the selection and of fetching, which may come between the writer's, are those of `TransactionWindow`.
- `JsonBase64.Decoder.Next`: an escape cut short at the end of the text and a malformed one are the same failure.
- `Admission`: a lock that is taken at the moment counts as no room, as a flag.
- The spool budget of content writers, a counter like that of `DiskAdmission.CacheDirectory`.
- `src/diagnostics.rs`, `src/bundle_inspection.rs`, `src/main.rs`, `build.rs` and the command-line tools.
