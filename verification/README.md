# FerrumDB: a verified model of the storage engine

FerrumDB keeps one durable sorted map per table. Four parts cooperate: a write-ahead log whose COMMIT frames close
batches, immutable sorted tables (SSTables) with checksummed blocks, a sparse index and a Bloom filter, a store that
layers a memtable over a newest-first list of such tables, and a public handle with batches and prefix scans.
This project models that engine in Dafny and proves that the parts together are the map they claim to be.

Main results, from the top down:

- **Whole runs.** A run is any sequence of commits, flushes, compactions, budget changes, clean reopens and losses of
  power after any disk effect and at any surviving log byte; the reopening that follows may itself be interrupted any
  number of times. At any time the set of files whose removal silently fails may change, and sessions go on with what
  those leave behind. `Runs.RunKeeps` and `Runs.RunFromBlank`: over every run the store opens again, every value left
  visible by the acknowledged batches (and by a batch in flight whose COMMIT frame survived, or was already flushed) is
  visible and unchanged, and no value appears that none of them wrote. `Runs.RunLaw`: if no reopening finds files that
  uncover a deleted key, the visible map is exactly those batches applied in order. `Runs.EventCrash` and
  `Runs.ReopenExact` show, point by point and key by key, that this condition is necessary and sufficient.
  `Store.CrashedOpens` ties this to the method `Store.Store.Open`: it can be called on whatever a crash leaves, and then
  computes the recovery of which these theorems speak.
- **Compaction cleanup.** The source claims that a crash during cleanup is safe (`ferrumdb-core/src/store.rs:279-282`),
  and that it is safe to leave files whose removal fails (line 311). It removes files newest first (lines 298 and 312)
  and ignores failures (line 313), so a tombstone can go before the value it hides, while the merged table no longer
  holds it (line 296). The model follows the code. `Cleanup.CallAlwaysSafe` gives the exact condition on the state before
  a call: it is safe at every crash point if and only if the leftover files are harmless, and it does not compact or
  buries no deleted value where it can come to show. `Resurrection.DeletedKeyReturns` is a run from a new table on which
  power lost in a compaction brings a deleted key back, `Resurrection.LeftoverReturns` one on which a failed removal does
  so without any loss of power. `Cleanup.SurvivorsExact` states which keys keep their view for any set of surviving
  files, and `Cleanup.OldestFirstCrash` proves that the reverse order would be safe at every point.
- **The log.** `Wal.TornLog`, `Wal.RecoveryIdempotent` and `Wal.NoAdoption`: any cut of a log recovers to the batches
  whose COMMIT lies before the cut; recovery of arbitrary bytes is idempotent and never lets a later COMMIT adopt a
  dropped tail.
- **The tables.** `TableReader.OpenRoundTrip`, `SsTable.SsTable.Get` and `SsTable.SsTable.ReadAllEntries`: a table
  re-read from its file answers every lookup as the map it was written from, through key range, Bloom filter, binary
  search, checksum, early-exit scan and cache. `SsTable.DataDamageOpens` with `SsTable.SsTable.Open`: if index region
  and footer are as written and each data block is as written or damaged within four consecutive record bytes or in its
  stored checksum alone, the file opens as written and each lookup is right or reports an error. `Store.CutFilesDetected`
  says the same of an open store whose table files are deleted or cut short. `FormatLaws.OpensIff` is exact about opening:
  a file opens to a table if and only if its bytes are laid out as that table's, with magic and version in place.
- **What the checksum does not guard.** Only data blocks carry one. `SsTable.ZeroedFilterHidesAll` and
  `IndexDamage.MisdirectedHides` are failing inputs for any wider claim: zeroed filter bytes, or a first index entry that
  points to another block, leave a file that opens with every block intact and yet does not find keys it holds.
  `SsTable.SsTable.Get` is exact about key range and filter: on intact blocks and the index as written, the answer is
  right if and only if they do not skip a key of the table; `SsTable.FilterDamageExact` says which filters those are.
  For the index, `SsTable.SsTable.Get` is the lookup `SsTable.Lookup` in whatever the file holds, and
  `IndexDamage.IndexDamageExact` and `IndexDamage.RedirectedExact` say for which offsets and lengths that is right or an
  error for every key.
- **The checksum.** `Crc.BurstDetected`: equal-length strings differing only within four consecutive bytes have
  different CRC-32 values (the polynomial is the one of section 3.2.9 of IEEE 802.3, reflected).
  `CrcResidue.Residue`: any string followed by its own checksum, low byte first, has the checksum 0x2144DF1C.
- **Ranges.** `Store.Store.ScanRange` agrees with point reads; `TableHandle.Table.Scan` lists the whole table, and
  `Scan.SplitBelow` and `Scan.SplitAbove` cut a scan at any key into two that make it up. `PrefixRange.UpperIsLeast` and
  `TableHandle.Table.ScanPrefix` give prefix scans their exact meaning.
- **The memtable budget.** `Budget.MapBytes`: the byte count that triggers a flush is the size of the records the flush
  would write, less nine or ten bytes an entry; `Budget.BudgetInBytes` states the automatic flush in those bytes.

How the pieces are arranged: a class method is tied by its `ensures` to a function on values (`StoreSpec`, `Wal.Parse`,
`TableFormat.FileOf`, `Cache.Queue`), and the laws are proved of those functions. `Store.Store.Abs` is the value a store
object stands for; every state-changing method gives its new value and the exact list of disk effects it adds to the
device's history, so the crash theorems over prefixes of that list are about the methods.

The disk is a log, the length of it that is synced, and a map from table id to file bytes. A crash keeps every table
file and any prefix of the log no shorter than what was synced. Removing a file may silently fail. Keys are byte strings in lexicographic order.

Where code and comment disagree the code is followed: the cleanup comment above; and `docs/sstable.md:96`, which
describes block splitting otherwise than `ferrumdb-core/src/sstable.rs:221`, where a block closes once it has reached
4096 bytes.

## Model

| member | source | states |
|---|---|---|
| Runs.RunKeeps | ferrumdb-core/src/store.rs:102-404 | over every run, crashes inside cleanups and failed removals included, the invariant holds, every value the kept batches leave visible is visible and the same, and no level on disk holds a value that was neither stored at first nor written by a kept batch |
| Runs.RunLaw | ferrumdb-core/src/store.rs:102-404 | over every run whose reopenings find no file that uncovers a deleted key the visible map is exactly the kept batches applied in order to the first one |
| Runs.RunFromBlank | ferrumdb-core/src/store.rs:133-180 | a new table opens empty with the invariant; over every run from it the kept batches stay visible and whatever else shows was written by one of them; over a safe run the view is exactly the kept batches |
| Runs.StepLaw | ferrumdb-core/src/store.rs:176-260 | every completed call, crash with any number of interrupted reopenings, clean reopen, budget change or change in which files refuse to go keeps the invariant and the values of its batches; a safe one changes the view by exactly its batches |
| Runs.InterruptedRecovers | ferrumdb-core/src/store.rs:208-237 | however often power is lost around the truncation that recovery makes, the store finally found is the same |
| Runs.EventLaw | ferrumdb-core/src/store.rs:243-326 | a completed commit, flush or compaction keeps the invariant and every value; only a commit changes the visible map, by its batch |
| Runs.EventCrash | ferrumdb-core/src/store.rs:243-326 | after losing power at any effect of any call and any log byte, reopening succeeds with the invariant, and shows every acknowledged batch with the one in flight whole or absent, if and only if the files left by this or an earlier cleanup uncover no deleted key; at every point no value is lost, changed or made up |
| Runs.CommitCrash | ferrumdb-core/src/store.rs:318-326 | losing power anywhere inside a commit: the reopened view has the whole batch if its COMMIT survived, otherwise none of it, exactly when the leftover files are harmless |
| Runs.TornCommit | ferrumdb-core/src/store.rs:208-237 | a batch whose COMMIT frame is not wholly on disk leaves the recovered store as it was before the batch |
| Runs.FlushCrash | ferrumdb-core/src/store.rs:243-260 | losing power before the new table, between it and clearing the log, or in the compaction that follows: the view survives exactly at the safe points |
| Runs.MoveCrash | ferrumdb-core/src/store.rs:248-257 | around the new table file and the cleared log no crash point loses or doubles an entry; the view is unchanged if and only if the leftover files are harmless |
| Runs.CompactCrash | ferrumdb-core/src/store.rs:283-316 | after any number of a compaction's effects reopening succeeds, and the view is unchanged if and only if no deleted key shows through the old files that are left |
| Runs.ReopenLaw | ferrumdb-core/src/store.rs:133-237 | reopening at rest finds the same memtable and, newest first, the tables with any leftover files below them; the view is unchanged if and only if those are harmless |
| Runs.ReopenExact | ferrumdb-core/src/store.rs:184-237 | key by key: reopening changes an answer if and only if no layer of the session mentions the key and a leftover file holds a value for it |
| Runs.RecoverTwice | ferrumdb-core/src/store.rs:208-237 | recovery of any image it accepts, with any damage to the log, is idempotent, also across a crash around its own truncation |
| Runs.WritesFresh | ferrumdb-core/src/store.rs:248-253 | every table file a call writes has an id above all existing ones, and ids written by one call increase, so no file is overwritten |
| Cleanup.CallAlwaysSafe | ferrumdb-core/src/store.rs:243-316 | a commit, flush or compaction is safe at every crash point if and only if the leftover files are harmless before it, and it does not compact, or every key that can come to show on the stack it compacts is live or covered by the memtable |
| Cleanup.CompactAlwaysSafe | ferrumdb-core/src/store.rs:279-315 | every point of a compaction is safe if and only if no deleted value is buried where it can come to show |
| Cleanup.ShownCanShow | ferrumdb-core/src/store.rs:312-314 | whatever shows at some point of the removals, stuck files and leftovers included, is reached from the newest level past tombstones whose file is removed |
| Cleanup.CanShowIsShown | ferrumdb-core/src/store.rs:312-314 | conversely each such key shows after some number of removals |
| Cleanup.CanShowWhenClean | ferrumdb-core/src/store.rs:312-314 | with nothing stuck and nothing left over, every key with a value in any table can come to show |
| Cleanup.FlushAlwaysSafe | ferrumdb-core/src/store.rs:243-260 | every point of a flush is safe if and only if the leftover files are harmless and it does not compact, or no deleted value is buried in the stack it compacts |
| Cleanup.SurvivorsExact | ferrumdb-core/src/store.rs:295-315 | for any set of old files removed in any order, reopening succeeds, and a key keeps its view if and only if the memtable mentions it, its answer was a value, or the newest survivor mentioning it (if any) holds a tombstone; leftovers and the empty merge included |
| Cleanup.OldestFirstCrash | ferrumdb-core/src/store.rs:298-314 | with nothing left over from before, removing oldest first would preserve the view at every stopping point |
| Resurrection.DeletedKeyReturns | ferrumdb-core/src/store.rs:279-315 | put, flush, delete, flush from a new table, then power lost after the first removal of a compaction: the reopened store shows the deleted key with its value |
| Resurrection.HiddenAfterRun | ferrumdb-core/src/store.rs:243-260 | that run is legal and ends with the tombstone in the newer table and the value in the older one |
| Resurrection.LeftoverReturns | ferrumdb-core/src/store.rs:311-314 | put and flush twice, compact with one removal failing, delete, flush, compact, and reopen: the deleted key is back without any loss of power |
| StoreLaws.CommitLaw | ferrumdb-core/src/store.rs:318-326 | logging a batch and inserting it keeps the invariant and writes exactly the batch to the visible map |
| StoreLaws.WriteLaw | ferrumdb-core/src/store.rs:263-268 | with the automatic flush the batch is still exactly applied, and with a positive budget the memtable is below it afterwards |
| StoreLaws.FlushLaw | ferrumdb-core/src/store.rs:243-260 | a flush, with the compaction it may trigger, keeps the visible map; after a non-empty one the memtable is empty and there are at most 8 tables |
| StoreLaws.MoveLaw | ferrumdb-core/src/store.rs:248-257 | writing the memtable as newest table and clearing the log keeps invariant and view |
| StoreLaws.CompactLaw | ferrumdb-core/src/store.rs:283-316 | a full merge that drops every tombstone keeps invariant and view, whatever the memtable holds |
| StoreLaws.CompactLeaves | ferrumdb-core/src/store.rs:295-309 | a compaction of at least two tables leaves none if they showed nothing, and else exactly one, under the next id, whose keys are just those the tables showed, with their values |
| StoreLaws.TablesAfterFlush | ferrumdb-core/src/store.rs:243-276 | below eight tables a flush of a non-empty memtable puts one in front of the others; at eight or more it leaves at most one |
| StoreLaws.BatchLogged | ferrumdb-core/src/wal.rs:203-223 | the log gets opcode 0 with the value for each put and 1 for each delete, numbered on from the last sequence number, then a COMMIT, opcode 2, with the number of the last write |
| StoreLaws.ReplayBatch | ferrumdb-core/src/store.rs:208-237 | replaying a logged batch reinserts exactly its writes and restores the sequence counter |
| StoreLaws.SequencesAppend | ferrumdb-core/src/store.rs:489-502 | a commit extends the strictly increasing data-entry sequences, and nothing exceeds the counter |
| StoreLaws.ReplayBounds | ferrumdb-core/src/store.rs:208-237 | after replay the counter is at least every sequence number in the log |
| StoreLaws.BatchHolds | ferrumdb-core/src/store.rs:318-326 | the image after a commit holds exactly the old memtable with the batch inserted, and the log grows by the batch's entries |
| StoreLaws.LeftHolds | ferrumdb-core/src/store.rs:312-314 | after any number of a compaction's removals, stuck files skipped, the image holds exactly the merged table over the levels left |
| StoreLaws.SurvivorsHold | ferrumdb-core/src/store.rs:312-314 | after removing any files the image holds exactly the levels of the others |
| StoreSpec.FootprintWithout | ferrumdb-core/src/store.rs:452-462 | the sum of footprints does not depend on the order in which entries are taken |
| StoreSpec.FootprintInsert | ferrumdb-core/src/store.rs:117-123 | an insertion changes the sum by the new footprint less the replaced one, which the sum always covers |
| Budget.EntryBytes | ferrumdb-core/src/store.rs:452-462 | an entry counts as many bytes as its record in a table file, less the nine of the header and the one that tells a value's kind |
| Budget.MapBytes | ferrumdb-core/src/store.rs:452-462 | the byte count of a memtable is the size of the records a flush would write, less nine bytes an entry and one more a value |
| Budget.BudgetInBytes | ferrumdb-core/src/store.rs:263-268 | after every write with a positive budget, those records stay below the budget plus these fixed parts, and every byte value left in the memtable is with its key shorter than the budget |
| Budget.DefaultBudget | ferrumdb-core/src/store.rs:19 | every store opens with a budget of 4194304 bytes |
| StoreSpec.ReplayConcat | ferrumdb-core/src/store.rs:208-237 | replay of a concatenation is replay of the parts, or the first error |
| StoreSpec.ReplayOkIff | ferrumdb-core/src/store.rs:208-237 | replay fails if and only if some entry that is neither DELETE nor COMMIT carries a value message that holds no value |
| StoreSpec.ReplayEffect | ferrumdb-core/src/store.rs:208-237 | by opcode number: 1 deletes, 2 changes no data, any other puts its value or, without one, changes no data; the counter becomes the larger of the two sequence numbers |
| StoreSpec.FileForRoundTrip | ferrumdb-core/src/store.rs:184-203 | a map written as a table file is read back as the same map |
| StoreSpec.LevelsOfFiles | ferrumdb-core/src/store.rs:184-203 | listing the files of a table list, greatest id first, rebuilds that list |
| StoreSpec.RecoverHolds | ferrumdb-core/src/store.rs:133-180 | opening an image finds exactly the memtable and the tables it holds, and leaves it alone |
| Layers.FlushKeepsView | ferrumdb-core/src/store.rs:248-257 | moving the memtable to the front of the tables does not change the view, before or after it is cleared |
| Layers.CompactKeepsView | ferrumdb-core/src/store.rs:283-309 | replacing all tables by their merge without tombstones does not change the view |
| Layers.CleanupExact | ferrumdb-core/src/store.rs:298-314 | key by key: the view over merged table and survivors is the old one if and only if memtable or a live answer covers the key or the survivors are quiet on it |
| Layers.StaleExact | ferrumdb-core/src/store.rs:184-203 | leftover layers below the tables change an answer if and only if nothing above mentions the key and they hold a value for it |
| Layers.OldestFirstSafe | ferrumdb-core/src/store.rs:298-314 | every front of the table list is a safe set of survivors |
| Layers.StaleCovers | ferrumdb-core/src/store.rs:184-203 | leftover layers below the tables hide and change no visible value |
| Layers.CleanupCovers | ferrumdb-core/src/store.rs:298-314 | over merged table and any survivors every visible value stays visible and the same |
| Keeping.KeepsTransitive | ferrumdb-core/src/store.rs:176-326 | steps that keep the values of their batches compose, batch list after batch list |
| Keeping.WriteAllCovers | ferrumdb-core/src/store.rs:318-326 | writing the same batches over a view with extra keys leaves it agreeing wherever the other has a value |
| Keeping.VisibleIsStored | ferrumdb-core/src/store.rs:331-347 | every visible value is stored in some layer under its key |
| Layers.InsertWrites | ferrumdb-core/src/store.rs:318-347 | writing a batch into the memtable is writing it to the visible map |
| Layers.WriteByMap | ferrumdb-core/src/store.rs:489-512 | batches that denote the same map have the same effect: the last duplicate counts, order is free otherwise |
| Store.Store.Open | ferrumdb-core/src/store.rs:133-180 | opening computes exactly the recovery of the image, or its error; table files may not parse, or be damaged in data blocks as the checksum detects, and then reads are right or errors; its only disk effect is the truncation, and none when a table file does not parse |
| Store.CrashedOpens | ferrumdb-core/src/store.rs:133-237 | whatever a crash in any call leaves, through any number of interrupted reopenings, can be opened: its table files are whole, and opening is the recovery of the crash theorems, which succeeds with the invariant |
| Store.HeldFilesKnown | ferrumdb-core/src/store.rs:184-203 | every file of a disk that holds tables is whole and written for one of them |
| Store.WholeLevels | ferrumdb-core/src/store.rs:184-203 | whole files are listed as the maps they were written for |
| Store.AllFilesFound | ferrumdb-core/src/store.rs:184-203 | when the tables are loaded every file has parsed, and all are listed by descending id; none is skipped |
| Store.CutFilesDetected | ferrumdb-core/src/sstable.rs:419-427 | if table files under an open store are deleted or cut short, each block still reads right or is an error |
| Store.Store.CutFilesReadable | ferrumdb-core/src/sstable.rs:419-427 | from a valid store, every disk with table files deleted or cut short meets what point reads, scans and compaction require, so they are right or an error |
| Store.Store.LoadSstables | ferrumdb-core/src/store.rs:184-203 | opens every listed table file, newest first, or returns the error of one that does not parse; every table is then as written and every block of it right or rejected; the next id is one above the newest |
| Store.Store.ReplayWal | ferrumdb-core/src/store.rs:208-237 | the memtable becomes the replay of the committed entries, batch by batch, or the first decoding error is returned |
| Store.Store.ApplyPending | ferrumdb-core/src/store.rs:208-237 | entries held back until their COMMIT are applied in order; a PUT without value only moves the counter |
| Store.Store.MemtableInsert | ferrumdb-core/src/store.rs:117-123 | the entry replaces the old one and the byte count stays the exact sum of footprints, whose meaning in record bytes is `Budget.MapBytes` |
| Store.Store.LogWrites | ferrumdb-core/src/store.rs:489-502 | one frame a write with consecutive sequence numbers, one COMMIT, one fsync |
| Store.Store.CommitAll | ferrumdb-core/src/store.rs:489-512 | all writes land under one COMMIT, then in the memtable, then the automatic flush; the visible map changes by exactly the batch |
| Store.Store.SetValue | ferrumdb-core/src/store.rs:318-326 | the visible map gains exactly this key and value; the disk effects are those of a one-write commit |
| Store.Store.DeleteValue | ferrumdb-core/src/store.rs:393-401 | the visible map loses exactly this key |
| Store.Store.Flush | ferrumdb-core/src/store.rs:243-260 | state and disk effects are those of the specified flush; nothing happens when the memtable is empty |
| Store.Store.MaybeFlush | ferrumdb-core/src/store.rs:263-268 | flushes exactly when the byte count has reached the budget; `Budget.BudgetInBytes` states the bound this keeps |
| Store.Store.MaybeCompact | ferrumdb-core/src/store.rs:271-276 | compacts exactly when there are more than 8 tables |
| Store.Store.MergeTables | ferrumdb-core/src/store.rs:289-294 | the oldest-to-newest loop over all tables yields the merge in which newer entries win, or the error of a damaged table |
| Store.Store.Compact | ferrumdb-core/src/store.rs:283-316 | state and disk effects are those of the specified compaction, merged table first, then removals newest first as far as they succeed; a damaged table stops it before it has changed anything |
| Store.Store.RemoveFiles | ferrumdb-core/src/store.rs:311-314 | removes exactly the files that are not stuck, in order, and reports nothing |
| Store.Store.GetValue | ferrumdb-core/src/store.rs:331-347 | returns exactly what the visible map holds for the key, and changes nothing but the block caches; with damaged blocks or missing files under the open store it does so or returns an error |
| Store.Store.ScanRange | ferrumdb-core/src/store.rs:356-388 | returns, strictly ascending, exactly the visible pairs within the bounds; with damaged blocks or missing files it does so or returns an error |
| Store.Store.SetMemtableBudget | ferrumdb-core/src/store.rs:111-113 | changes the budget and nothing else |
| Scan.OverlapSound | ferrumdb-core/src/store.rs:436-448 | a key of the table within the bounds makes the overlap test succeed |
| Scan.SkipLosesNothing | ferrumdb-core/src/store.rs:365-376 | a table skipped by the overlap test has no key within the bounds |
| Scan.ScanAgreesWithReads | ferrumdb-core/src/store.rs:356-388 | listing the values of the restricted merge contains (k, v) if and only if k is in bounds and a point read of k gives v |
| Scan.FullScan | ferrumdb-core/src/store.rs:356-388 | without bounds a pair is listed if and only if it is visible |
| Scan.SplitBelow | ferrumdb-core/src/store.rs:421-433 | at any key, the scan of what is below it followed by the scan from it on is the whole scan; every key of the first is below it and none of the second |
| Scan.SplitAbove | ferrumdb-core/src/store.rs:421-433 | the same with the key itself in the first part |
| Scan.SameListing | ferrumdb-core/src/store.rs:356-388 | two ascending listings of the same pairs are the same list |
| Scan.OverlapExact | ferrumdb-core/src/store.rs:436-448 | the overlap test succeeds only if some key, in the table or not, lies in the table's range and the bounds, provided the bounds admit any key |
| Transaction.TransactionPredictsCommit | ferrumdb-core/src/store.rs:464-512 | for every key the read inside the transaction equals the read after its commit, through any flush and compaction the commit triggers |
| Transaction.CommitAsRead | ferrumdb-core/src/store.rs:479-512 | writing the buffered batch makes every key read as the buffer over the store did |
| Transaction.BatchInKeyOrder | ferrumdb-core/src/store.rs:489-502 | the batch a commit writes has each buffered key once, in ascending order |
| Transaction.Transaction.GetValue | ferrumdb-core/src/store.rs:479-485 | own buffered writes first, a buffered delete reading as absent, then the store, whose error on a damaged table is passed on |
| Transaction.Transaction.Commit | ferrumdb-core/src/store.rs:489-512 | after commit every key reads as it did inside the transaction: buffered values are visible, buffered deletes are gone, other keys are as before; an empty buffer touches nothing |
| Transaction.Transaction.SetValue | ferrumdb-core/src/store.rs:466-470 | a later write to a key replaces an earlier buffered one |
| Transaction.Transaction.DeleteValue | ferrumdb-core/src/store.rs:472-475 | buffers a deletion |
| Wal.TornLog | ferrumdb-core/src/wal.rs:163-198 | any cut of any list of batches parses to exactly the leading batches whose COMMIT lies within the cut, and the committed end is the end of the last of them |
| Wal.WholeIsLongest | ferrumdb-core/src/wal.rs:163-198 | that number of batches is the greatest whose bytes lie within the cut |
| Wal.BatchParses | ferrumdb-core/src/wal.rs:152-198 | a framed batch parses back to itself, wholly committed |
| Wal.TornBatch | ferrumdb-core/src/wal.rs:163-198 | a batch cut anywhere before its last byte commits nothing |
| Wal.CommittedPrefix | ferrumdb-core/src/wal.rs:163-198 | for arbitrary bytes, parsing the committed prefix gives the committed entries and nothing else |
| Wal.RecoveryIdempotent | ferrumdb-core/src/wal.rs:100-122 | recovering what recovery left gives the same entries with no tail, for arbitrary bytes |
| Wal.NoAdoption | ferrumdb-core/src/wal.rs:100-122 | after recovery of arbitrary bytes a new batch is committed alone; no dropped entry is adopted |
| Wal.UndecodableSkipped | ferrumdb-core/src/wal.rs:185-192 | a whole frame whose payload does not decode, between two batches, adds nothing and leaves both committed |
| Wal.ParseConcat | ferrumdb-core/src/wal.rs:163-198 | parsing after a prefix of whole frames is joining the two parses |
| Wal.ParseBuffer | ferrumdb-core/src/wal.rs:163-198 | the cursor loop computes the recursive parse, stopping at a short or cut frame and skipping an undecodable one |
| Wal.Wal.Append | ferrumdb-core/src/wal.rs:59-64 | the log grows by one frame, not yet synced |
| Wal.Wal.WriteCommit | ferrumdb-core/src/wal.rs:70-84 | the log grows by a COMMIT frame and everything is synced |
| Wal.Wal.ReadForRecovery | ferrumdb-core/src/wal.rs:100-122 | returns the committed entries; the file is cut to the committed end exactly when something follows it |
| Wal.Wal.Clear | ferrumdb-core/src/wal.rs:137-142 | the log becomes empty, durably |
| Disk.Device.Do | ferrumdb-core/src/wal.rs:59-84 | each disk effect changes the image as specified and is recorded in order |
| Disk.Device.Remove | ferrumdb-core/src/store.rs:311-314 | a removal takes effect and is recorded, or silently does neither |
| SsTable.SsTable.Open | ferrumdb-core/src/sstable.rs:290-358 | returns the table the file parses to, or the error; no file opens unless its last eight bytes are "FSST" and version 3; a file whose damage is confined to data blocks, one burst each, opens as written and every block reads right or is rejected; the cache starts empty with room for 32 blocks |
| SsTable.DataDamageOpens | ferrumdb-core/src/sstable.rs:290-500 | with index region and footer as written and at most one burst a block, the parse is the table as written and no block reads wrong bytes |
| SsTable.ZeroedFilterHidesAll | ferrumdb-core/src/sstable.rs:335-380 | zeroed filter bytes go unnoticed: the file has the same length, its blocks are intact and it opens, yet every key, present ones included, is skipped |
| SsTable.FilterDamageExact | ferrumdb-core/src/sstable.rs:368-380 | with another filter in the table no key of it is skipped if and only if that filter admits each of them |
| TableReader.FilterUnchecked | ferrumdb-core/src/sstable.rs:333-350 | any filter of the same size in the file is accepted on opening |
| TableReader.OpenIgnoresData | ferrumdb-core/src/sstable.rs:290-358 | opening depends on index region and footer alone, not on the bytes of the data region |
| SsTable.SsTable.Get | ferrumdb-core/src/sstable.rs:363-393 | with the sparse index as written: on intact blocks the answer is the map's entry, tombstones included, or None, if and only if key range and filter do not skip a key of the table; on blocks that are right or rejected an unskipped key gets that answer or an error. With any index of ascending keys: the lookup in what the file holds, whatever was read before |
| SsTable.SsTable.Locate | ferrumdb-core/src/sstable.rs:382-387 | the binary search finds how many first keys are not above the key |
| IndexDamage.IndexDamageExact | ferrumdb-core/src/sstable.rs:382-392 | with first keys as written and arbitrary offsets and lengths of at least 4, every lookup is right or an error if and only if each block pointed to is rejected or answers the keys of its slot as the block written there |
| IndexDamage.RedirectedExact | ferrumdb-core/src/sstable.rs:382-392 | if every entry points to some written block of an intact file, every lookup is right or an error if and only if each points to its own |
| IndexDamage.MisdirectedHides | ferrumdb-core/src/sstable.rs:323-331 | a first index entry pointing to another block goes unnoticed: the file opens, its blocks are intact, and the first key of the table is not found |
| IndexDamage.IndexUnchecked | ferrumdb-core/src/sstable.rs:323-331 | any index with the same first keys in the file is accepted on opening |
| SsTable.SsTable.ReadAllEntries | ferrumdb-core/src/sstable.rs:398-415 | the scan of all indexed blocks, whatever the index; with the index as written exactly the entries written, in order, or an error when a block is rejected; the cache is untouched |
| SsTable.SsTable.CachedBlock | ferrumdb-core/src/sstable.rs:419-427 | a cached block, else a verified read that is then cached; a failed read changes nothing |
| SsTable.SsTable.Fetch | ferrumdb-core/src/sstable.rs:419-427 | with the index as written a hit and a fresh read agree with the block as written; with any index they agree with the file as long as the cache does |
| SsTable.FiltersSound | ferrumdb-core/src/sstable.rs:364-380 | in the table as written an empty index, a key out of range and a Bloom miss each prove the key absent |
| SsTable.BloomMiss | ferrumdb-core/src/sstable.rs:165-167 | a negative filter answer proves the key absent from the run |
| SsTable.BloomHit | ferrumdb-core/src/sstable.rs:247-258 | every key of the run, deleted ones included, tests positive in the filter of the table parsed back from the file |
| SsTable.BinarySearch | ferrumdb-core/src/sstable.rs:383-387 | finds the exact entry, or the insertion point between smaller and greater first keys |
| SsTable.BlockDecides | ferrumdb-core/src/sstable.rs:382-392 | the block with the greatest first key not above the key holds the table's answer for it |
| SsTable.ScanDecides | ferrumdb-core/src/sstable.rs:389-392 | scanning that block yields exactly the map's entry |
| SsTable.FirstKeysAscend | ferrumdb-core/src/sstable.rs:208-228 | first keys of the blocks strictly ascend |
| SsTable.ReadBlockFromDisk | ferrumdb-core/src/sstable.rs:484-500 | returns the record bytes if and only if the block is whole and its checksum matches |
| SsTable.CutDetected | ferrumdb-core/src/sstable.rs:484-500 | cutting a file short, down to nothing, never makes a block read wrong bytes |
| SsTable.ShortFilesDetected | ferrumdb-core/src/sstable.rs:484-500 | in a missing or shortened file of a run each block of the table is right or an error |
| SsTable.NothingToRead | ferrumdb-core/src/sstable.rs:484-500 | where there is no file reading any block of a table is an I/O error |
| SsTable.OutsideSkipped | ferrumdb-core/src/sstable.rs:368-373 | keys below the first or above the last of a table are skipped |
| SsTable.UnsealSealed | ferrumdb-core/src/sstable.rs:484-567 | a stored block reads back as its record bytes |
| SsTable.BurstRejected | ferrumdb-core/src/sstable.rs:484-500 | any change within four consecutive record bytes, or of the stored checksum alone, is rejected |
| SsTable.BurstsAreDetected | ferrumdb-core/src/sstable.rs:484-500 | if every block is as written or has one such change, no block read returns wrong bytes |
| SsTable.WrittenIsIntact | ferrumdb-core/src/sstable.rs:184-286 | every block of a freshly written file reads as written |
| SsTable.ScanAgrees | ferrumdb-core/src/sstable.rs:398-415 | scanning the indexed blocks returns the run, or an error on damage |
| SsTable.ContentsRoundTrip | ferrumdb-core/src/sstable.rs:184-358 | re-reading the file of any storable run yields its table and its map |
| SsTable.DecodeAll | ferrumdb-core/src/sstable.rs:408-412 | the record loop appends every decoded record of a block, or stops at the first error |
| Cache.QueueIsLastDistinct | ferrumdb-core/src/sstable.rs:97-129 | over every trace the queue is exactly the last cap distinct offsets in order of last use |
| Cache.RecencyIsOrderOfLastUse | ferrumdb-core/src/sstable.rs:123-128 | that order lists each used offset once, by last use |
| Cache.Inclusion | ferrumdb-core/src/sstable.rs:97-129 | a larger cache holds every block a smaller one holds after the same trace |
| Cache.BlockCache.HoldsLastUsed | ferrumdb-core/src/sstable.rs:91-129 | in every valid state the cached offsets are the last cap distinct ones looked up |
| Cache.BlockCache.Get | ferrumdb-core/src/sstable.rs:102-106 | a hit returns the block and makes it most recently used; a miss changes nothing |
| Cache.BlockCache.Put | ferrumdb-core/src/sstable.rs:108-120 | inserts the block, evicting the least recently used only when a new one meets a full cache; capacity 0 stores nothing |
| Cache.BlockCache.TouchInPlace | ferrumdb-core/src/sstable.rs:123-128 | moves the offset to the most recently used end, once |
| Bloom.NoFalseNegatives | ferrumdb-core/src/sstable.rs:151-167 | a key among those added tests positive, whatever is added before or after it |
| Bloom.AddKeysHas | ferrumdb-core/src/sstable.rs:159-163 | a bit is on after adding keys if and only if it was on before or some key probes it |
| Bloom.ProbeNeverWraps | ferrumdb-core/src/sstable.rs:151-157 | the seven probe sums stay below 2^64 |
| Bloom.ProbesDistinct | ferrumdb-core/src/sstable.rs:151-157 | for a modulus that is a multiple of 8 the seven probes are pairwise distinct |
| Bloom.SevenBitsPerKey | ferrumdb-core/src/sstable.rs:151-157 | each key probes exactly seven distinct bits |
| Bloom.LoadBound | ferrumdb-core/src/sstable.rs:143-163 | n keys turn on at most 7n of at least 10n bits, so at least 30% stay off |
| Bloom.Hash64 | ferrumdb-core/src/sstable.rs:171-178 | the accumulator loop computes the specified 64-bit wrapping hash |
| Hashing.OneByteDiffers | ferrumdb-core/src/sstable.rs:171-178 | equal-length keys that differ in one byte never have the same hash |
| Hashing.FnvConstants | ferrumdb-core/src/sstable.rs:171-178 | the hash of nothing is the 64-bit FNV offset basis, and appending a zero byte multiplies the hash by the FNV prime modulo 2^64 |
| Hashing.ProbesAre | ferrumdb-core/src/sstable.rs:151-157 | the seven probes are the lower half of the hash plus 0 to 6 times its upper half made odd, modulo the number of bits |
| Hashing.ProbeBit | ferrumdb-core/src/sstable.rs:159-167 | a probe asks for one bit of one byte, counted from the low end |
| Hashing.SizeIsLeast | ferrumdb-core/src/sstable.rs:143-148 | the field is the least whole number of bytes with ten bits a key and at least 64 |
| Bloom.Add | ferrumdb-core/src/sstable.rs:159-163 | the array ends with exactly the key's probes marked in addition |
| Bloom.Build | ferrumdb-core/src/sstable.rs:247-258 | the filter built for the keys is the specified one |
| Crc.BurstDetected | ferrumdb-core/src/sstable.rs:614-627 | equal-length strings differing only within four consecutive bytes have different checksums |
| Crc.Crc32 | ferrumdb-core/src/sstable.rs:614-627 | the bitwise register loop computes the specified checksum |
| Crc.ShiftLinear | ferrumdb-core/src/sstable.rs:614-627 | the shift step is linear over exclusive or |
| Crc.ShiftInjective | ferrumdb-core/src/sstable.rs:614-627 | the shift step is injective because the polynomial's top bit is set |
| Crc.RegisterWindow | ferrumdb-core/src/sstable.rs:614-627 | up to four bytes fed one at a time equal their window fed at once |
| CrcResidue.Residue | ferrumdb-core/src/sstable.rs:614-627 | a string followed by its own checksum, low byte first, has the checksum 0x2144DF1C, whatever the string |
| CrcResidue.ChecksumOfNothing | ferrumdb-core/src/sstable.rs:614-627 | the checksum of the empty string is 0 |
| TableFormat.BlockLayout | ferrumdb-core/src/sstable.rs:208-228 | cutting keeps every record in order; every block but the last has at least 4096 record bytes; every block without its last record has fewer |
| TableFormat.BlocksTile | ferrumdb-core/src/sstable.rs:208-228 | the index's blocks tile the data region without gap or overlap |
| TableFormat.WriteBlocks | ferrumdb-core/src/sstable.rs:193-229 | the buffer loop writes exactly the sealed blocks and their sparse index |
| TableFormat.FinalizeBlock | ferrumdb-core/src/sstable.rs:549-567 | appends record bytes, then their checksum, and one index entry for both |
| TableFormat.WriteIndexRegion | ferrumdb-core/src/sstable.rs:231-259 | writes index, key range and filter as the format prescribes |
| FormatLaws.SealedLayout | ferrumdb-core/src/sstable.rs:549-567 | a stored block is its records and then their checksum as four bytes, highest first |
| FormatLaws.IndexEntryLayout | ferrumdb-core/src/sstable.rs:231-237 | an index entry is key length, first key, block offset and block length |
| FormatLaws.SummaryLayout | ferrumdb-core/src/sstable.rs:238-259 | after the index come first key, last key and filter, each length before its bytes |
| FormatLaws.FooterLayout | ferrumdb-core/src/sstable.rs:261-268 | the last 28 bytes are offset and length of the index region, number of blocks, "FSST", and 0, 0, 0, 3 |
| FormatLaws.OpensIff | ferrumdb-core/src/sstable.rs:290-358 | a file opens to a table if and only if its footer says so and points to bytes that start with that table's index and, if anything follows, its key range and filter |
| TableFormat.Flush | ferrumdb-core/src/sstable.rs:184-286 | the file and the in-memory table are those of the entries given |
| TableReader.OpenRoundTrip | ferrumdb-core/src/sstable.rs:290-358 | opening the file written for a run gives exactly the table that writing it returned |
| TableReader.OpenTable | ferrumdb-core/src/sstable.rs:290-358 | the reader computes the specified parse, or its error, on any bytes; a file without magic and version 3 is an error |
| TableReader.OnlyMarkedOpen | ferrumdb-core/src/sstable.rs:305-317 | nothing opens that is shorter than 28 bytes or whose last eight are not "FSST" and version 3 |
| TableReader.FooterRoundTrip | ferrumdb-core/src/sstable.rs:261-317 | the footer fields read back as written |
| TableReader.IndexRoundTrip | ferrumdb-core/src/sstable.rs:231-332 | a sparse index reads back as written |
| TableReader.SummaryRoundTrip | ferrumdb-core/src/sstable.rs:238-350 | key range and filter read back as written |
| Capacity.FitsWhen | ferrumdb-core/src/sstable.rs:465-480 | fewer than 2^31 records, each below 2 GiB, and below 2^62 bytes in all never overflow a length field of the file |
| Records.FindInSortedBlock | ferrumdb-core/src/sstable.rs:505-530 | the early-exit scan of an ascending block returns exactly its map's entry |
| Records.FindInBlock | ferrumdb-core/src/sstable.rs:505-530 | the cursor loop computes the recursive scan on any bytes |
| Records.DecodeBlock | ferrumdb-core/src/sstable.rs:533-547 | decoding a block appends exactly the records encoded, in order |
| RecordLaws.RecordLayout | ferrumdb-core/src/sstable.rs:465-480 | a record is key length, key, a 0 for a value or a 1 for a tombstone, value length and value bytes; a tombstone's value is empty |
| RecordLaws.FoundIsStored | ferrumdb-core/src/sstable.rs:505-530 | whatever a block scan finds in arbitrary bytes is a whole record stored there under that key |
| RecordLaws.CutBlock | ferrumdb-core/src/sstable.rs:533-547 | a block cut at the end of a record decodes to the records before the cut; cut anywhere else it is an error |
| RecordLaws.CutScan | ferrumdb-core/src/sstable.rs:505-530 | scanning a block cut inside a record gives the answer of the whole block or an error |
| Records.ReadHeaderAt | ferrumdb-core/src/sstable.rs:465-480 | the fields of an encoded record read back as written |
| Records.SortedEnumerates | ferrumdb-core/src/store.rs:243-253 | listing a map by key is strictly ascending and denotes the map |
| Codec.ValueRoundTrip | ferrumdb-core/src/store.rs:49-76 | every value message decodes to itself |
| Codec.EntryRoundTrip | ferrumdb-core/src/wal.rs:152-158 | every log entry decodes to itself |
| Bytes.BERoundTrip | ferrumdb-core/src/sstable.rs:571-609 | big-endian integers read back as written |
| FormatLaws.BigEndianOrder | ferrumdb-core/src/sstable.rs:571-609 | byte strings of one length are ordered as the integers they encode, so the highest byte is first |
| PrefixRange.PrefixRangeExact | ferrumdb/src/table.rs:80-113 | the keys from the prefix up to its bound, or to the end without one, are exactly those that start with it |
| PrefixRange.UpperIsLeast | ferrumdb/src/table.rs:103-113 | a key is above every key with the prefix if and only if a bound exists and is not above it |
| PrefixRange.NoUpper | ferrumdb/src/table.rs:103-113 | there is no bound if and only if the prefix consists of 0xFF bytes alone |
| PrefixRange.PrefixUpperBound | ferrumdb/src/table.rs:103-113 | the increment-or-pop loop computes the specified bound |
| TableHandle.LastDuplicateWins | ferrumdb/src/table.rs:49-56 | a batch of puts writes what putting the pairs one after the other would |
| TableHandle.PutsStand | ferrumdb/src/table.rs:49-56 | after the puts the last pair with a key is what the key holds, and keys of no pair are as before |
| TableHandle.Table.Get | ferrumdb/src/table.rs:28-34 | returns the stored bytes, None, or an error for a value of another kind, or the error of a damaged table |
| TableHandle.Table.PutBatch | ferrumdb/src/table.rs:49-56 | all pairs land under one COMMIT; the last pair with a key is what it holds afterwards, and keys of no pair are as before |
| TableHandle.Table.RangeBounds | ferrumdb/src/table.rs:89-98 | the selected visible pairs in ascending order, or an error exactly when one of them is not bytes; a damaged table may turn it into that table's error |
| TableHandle.Table.Scan | ferrumdb/src/table.rs:70-72 | every visible pair in ascending order, or an error as for bounds |
| TableHandle.Table.Range | ferrumdb/src/table.rs:75-77 | exactly the pairs from start up to but not including end, or an error as for its bounds |
| TableHandle.Table.ScanPrefix | ferrumdb/src/table.rs:80-87 | exactly the pairs whose key begins with the prefix, or an error as for its bounds |

## Left out

- The Protocol Buffers wire format and UTF-8 validity: `Codec` is a concrete encoding with a proved round trip; floats are bit patterns and texts are bytes.
- File handles, directories, the lock, path strings, error texts and a missing log file as distinct from an empty one: the disk is a value, and one open store at a time is assumed.
- Torn table files, lost directory entries, reordered log writes and an fsync that lies: the code has no mechanism for them. A table file appears whole or not at all, and what survives a crash is durable afterwards.
- Continuing a session after an I/O error: an error ends the session and counts as a crash. Failed removals in a cleanup, which the code ignores, are part of the model.
- Wal.ParseBuffer: does not model 64-bit overflow of `offset + 8 + length` for a corrupt length prefix, on which the code panics; lengths are unbounded here, and such a frame reads as cut off.
- Store.Store.Open: requires every table file either not to parse or to be one written for a map, whole or with damage in its data blocks; with several files that do not parse, the error returned is that of the newest, where the code returns the first in directory order.
- SsTable.SsTable.Get: requires first keys of the index in ascending order, since a binary search over keys out of order has no specified result.
- Store.Store.ScanRange: requires bounds that are not inverted, since `BTreeMap::range` panics on inverted ones.
- TableHandle.Table.Range: requires `start <= end` for the same reason.
- TableFormat.Flush: writes lengths modulo 2^32 as the casts do only where they fit; the round trips require `TableFormat.Fits`, for which `Capacity.FitsWhen` gives bounds a caller can check.
- Store.Store.CommitAll: requires the 64-bit sequence counter not to overflow, and any table file the write may trigger to stay within the format's field widths.
- TableReader.OpenTable: does not model the allocation or seek failure that an absurd length or offset in a damaged footer causes before the read fails.
- SsTable.ReadBlockFromDisk: requires a block length of at least 4, without which the code underflows; every written index meets this.
- Sequence numbers restart after a flush followed by a reopen, because only the log stores them; monotonicity is stated for one log content.
- `BTreeMap`, `HashMap`, directory listing with sorting, and the slice binary search are library behaviour: modelled by maps, `Records.Sorted`, `StoreSpec.DescendingIds` and `SsTable.BinarySearch`.
- CRC bursts that straddle record bytes and the stored checksum: the big-endian stored order breaks the classical bound, and none is claimed.
- The Bloom false-positive rate, which is probabilistic: the load bound is proved instead.
- `Database`, `Txn`, `put`, `delete`, `contains` and `get_batch` of the public handle, table-name checks, and performance figures: thin wrappers or measurement.
