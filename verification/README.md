# FlashStore: a verified model

FlashStore is an embedded key-value store: a log-structured merge engine with a manifest, a write-ahead log, levelled
tables and a block cache, on top of which sit an agent workflow driver and text chunkers. This project models its
stateful core in Dafny 4.11 and proves what the code is for. `dafny verify dfyconfig.toml` checks all of it.

**The storage engine.** The promise is simple: the store is a map from keys to values that survives crashes. The code is
not. A lookup stops at the first hit, tier by tier; a scan resolves by largest sequence number over all tiers; compaction
moves versions between levels and drops tombstones on the last one; recovery filters the log by the manifest's last
sequence number. The model gives one order-free meaning to a set of stored versions (`Means` in `Meaning.dfy`: for each
key, the newest version decides) and shows that all of these agree with it.

- `System.dfy` is the state machine. A write is one atomic step. A flush is five steps (rotate, finish the table, log the
  edit, apply it, retire the memtable and truncate the log) and a sixth when records remain to be written back. A
  compaction is five (pick, finish the merge, log, apply, remove a file). `Restart` is a crash followed by `open`. Writes,
  one flush, one compaction and crashes interleave in any order. The invariant `Inv(s, m)` ties a state to the map `m` it
  stands for, in three ways: what reads see, what a restart would see now, and what reads will see once the frozen
  memtable is gone. A write acts on the map by its operations; a crash between truncating and rewriting the log leaves of
  it exactly what the logged tables stand for; every other step, every other crash included, leaves it alone.
- `WriteLaws.dfy`, `FlushLaws.dfy` and `CompactLaws.dfy` prove that each step keeps `Inv`; `Levels.dfy`, `Compaction.dfy`
  and `CompactionLaws.dfy` hold the level invariant and what one compaction does to it; `Runs.dfy` draws the conclusions
  over whole runs, with no crash point excluded.
- `Reader.dfy` splits `get` into its reads, the files of its version one by one, and lets them interleave with everything
  else; `Snapshots.dfy` says exactly when losing table files changes an answer, and `Races.dfy` builds two runs in which
  it does.
- `Scanner.dfy` does the same for `scan` and keeps account of what falls out of its reach; `ScanLaws.dfy` says what each
  step puts out of reach and exactly when the listing is right; `ScanRaces.dfy` builds four runs in which it is not.
- `Writers.dfy` takes writes apart into their three locked actions, for any number of writers beside flushes and crashes;
  `WriterLaws.dfy` says exactly which writes recovery finds, and `WriterRaces.dfy` builds four runs in which it does not
  find what it should.
- `TableFiles.dfy` and `Bloom.dfy` are a table file from its builder to its lookup.
- `FlashStore.dfy`, `MemTables.dfy` and the class in `Versions.dfy` are the imperative engine for one caller: every
  method is proved to take the machine from one `Inv` state to the next and to act on the map as its name says.
  `Uninterrupted.dfy` holds the runs of steps its flush and its compaction amount to.
- `Framing.dfy` is the theory of append-only logs of frames, torn and reopened; `ManifestLog.dfy` and `WalLog.dfy` are the
  two logs, over any serializer that decodes what it encodes and any checksum.

**The block cache** (`LruCache.dfy`) is the slab with its free list, its hash map and the doubly linked list threaded
through it. The class is proved equal, operation by operation, to a plain most-recent-first list; about that list the
same file proves the hit rule of least-recently-used caching. `BlockReads.dfy` reads table blocks through it.

**The task scheduler** (`TaskGraph.dfy`, `Workflow.dfy`) is the layered topological sort over two mutually inverse
adjacency maps, and the workflow driver that relies on its order.

**Sequence algorithms.** `MergingIterator.dfy` is the heap-based merge of sorted iterators. `Texts.dfy`, `Windows.dfy`,
`Chunkers.dfy` and `Sentences.dfy` are the character, token and sentence chunkers, with UTF-8 byte offsets.

Assumptions that hold throughout: I/O succeeds, so a crash is a stop between two durable actions; a table file holds
exactly the entries added to it, in order; a batch append to the log is one durable action; the number of levels is
positive and the same at every open; counters do not overflow. What the standard library is trusted for: `BTreeMap`
iterates in key order, `BinaryHeap` pops a greatest element, `sort_by_key` and `sort_by` are stable sorts,
`binary_search` of a sorted list stops at the key or where it would be inserted.

## Findings

- For writes that are one atomic step: a crash after `flush` has truncated the log (`src/engine.rs:367`) and before it
  has written the remaining records back (`src/engine.rs:370`) loses every acknowledged write that is not yet in a
  table. `Runs.UnflushedSurviveIff` shows that recovery keeps all such writes exactly when the crash does not fall
  there; `Runs.RewriteIsReachable` gives the run that gets there: one write, a rotation, a second write during the
  flush. What remains is exact: keys the active memtable does not know keep their values, and the others fall back to
  the logged tables (`Runs.CrashInRewriteLeaves`), so the crash is harmless if and only if those already answer the same
  (`Runs.CrashIsHarmlessIff`). With one caller at a time there is never anything to write back, and recovery is
  unconditional (`Runs.SequentialRunsRecover`).
- A lookup skips table files that no longer exist (`src/engine.rs:176`), while compaction removes replaced files as soon
  as its edit is applied (`src/engine.rs:403-408`). A lookup beside a compaction answers correctly as long as the one file
  of its version snapshot that holds its first hit is not removed before it is read (`Reader.LookupWasCurrent`), and
  losing files changes what a snapshot yields if and only if that file is among them: then an older version is found, or
  none (`Snapshots.SnapshotLossIff`). Both happen. From an empty store, a key written and flushed four times is
  reported absent (`Races.StoredKeyMissed`), and a deleted key reads back its old value (`Races.DeletedValueReadBack`),
  with no write going on during either lookup.
- A write takes its number, appends to the log and inserts into the memtable under three locks (`src/engine.rs:136-145`).
  Recovery finds an acknowledged write if and only if its entry is in a table, or none of three things has happened
  (`WriterLaws.AcknowledgedKeptIff`): a flush truncated the log with its record and did not write it back, which it does
  only for entries then in the memtable; a memtable was flushed that lacks it and holds a larger number; another write of
  its key is logged behind it under a number above every flushed one. Each happens with two writers
  (`WriterRaces.CutWriteIsLost`, `WriterRaces.OvertakenWriteIsLost`, and with no flush at all
  `WriterRaces.ReorderedWriteIsLost`, `WriterRaces.OlderRecordIsFound`). A crash keeps what is found under a key if and
  only if every write of the key that is safe from these in the log is the one found, and the one found is in a table or
  safe (`WriterLaws.CrashKeepsFoundIff`).
- `scan` takes the version first, skips files of it that no longer exist (`src/engine.rs:435`) and reads the active
  memtable last, the opposite order to `get`. It lists the map as of its last read unless one of three things passes it
  (`ScanLaws.UnpassedScanIsRight`): the flush edit is applied after the version is taken and the memtable retired before
  the immutable ones are read; a rotation falls between the last two reads; a compaction removes a file of the version
  before it is read. `ScanLaws.DropsExactly` says which entries each of them takes away, and the listing is right if and
  only if every newest version taken away has the answer of the newest version of its key that was seen
  (`ScanLaws.ScanIsRightIff`). In each of the three ways a scan of a store with one acknowledged key comes back empty
  (`ScanRaces.ScanPassedByFlush`, `ScanRaces.ScanPassedByRotation`, `ScanRaces.ScanPassedByCompaction`), and it can list
  a deleted key with its old value (`ScanRaces.ScanListsDeleted`).
- `compact` stops after a hundred passes. That cap is no loss on levels of weight at most a hundred: the loop then always
  ends with nothing due, and whatever the weight, it leaves a compaction due only after a hundred strict drops of it
  (`FlashStores.FlashStore.Compact`).
- `run_workflow` leaves the workflow status at `Running` when the graph has a cycle (`src/agent/engine.rs:438-440`). A
  rejected `add_dependency` leaves its edge in the graph (`src/agent/engine.rs:66-77`), and no later call takes an edge
  out: after one rejected dependency between two tasks every later one is rejected too, and `run_workflow` can only
  report the cycle (`TaskGraphs.RejectionIsPermanent`; `TaskGraphs.TwoTaskCycle` is the shortest history).
- The manifest writes each length as a 32-bit number; the frame of an edit reads back exactly when its encoding is
  shorter than 2^32 bytes, and a longer one hides every edit logged after it (`ManifestLogs.FrameReadsBackIff`).
- Neither log is trimmed when it is reopened (`src/wal/mod.rs:17-28`, `src/manifest/mod.rs:17-24`), and reading stops at
  the first frame that does not pass. After a reopen behind a torn write, nothing more than the whole frames before the
  tear is read at the next one if and only if the bytes from the tear on do not pass for a frame
  (`WalLogs.ReopenedLogReads`, `ManifestLogs.ReopenedManifestReads`). Behind a record or edit torn after its header that
  means: unless the new bytes complete it to one that passes; as long as they are fewer than the bytes torn off, all new
  records are lost (`WalLogs.ShortTailIsLost`). A flush truncates the write-ahead log and so ends its tear; nothing ends
  that of the manifest.

## Model

| member | source | states |
|---|---|---|
| `Runs.StepKeeps` | src/engine.rs:69-412 | Each of the thirteen steps, from a state that stands for map `m`, leads to one that stands for `m` with the step's writes applied. No crash point is excluded: one during the log rewrite leads to the map of the logged tables, any other to `m`. |
| `Runs.RunKeeps` | src/engine.rs:69-412 | The same over every run: writes, flush steps, compaction steps and crashes in any interleaving. |
| `Runs.FirstHitNewest` | src/engine.rs:151-210 | Stopping at the first hit over active memtable, immutable memtables, level 0 and the deeper levels finds the newest version stored anywhere. |
| `Runs.GetAgrees` | src/engine.rs:151-210 | In every state satisfying the invariant, `get` answers what the map of completed writes holds, for every key. |
| `Runs.RunRefinesMap` | src/engine.rs:133-275 | Refinement from an empty store: after every run, `get(k)` is the answer of the map the run leads to; when no crash fell into a log rewrite that is the map of all writes, batches that repeat a key included. |
| `Runs.ExpectedIsAllWrites` | src/engine.rs:133-275 | The map a run leads to is its writes applied in order, crashes or not, unless one fell into a log rewrite. |
| `Runs.RecoveryAgrees` | src/engine.rs:69-131 | Whatever a flush and a compaction were doing, the log rewrite included, opening on the durable state gives a store whose `get` agrees with the map the crash leaves. |
| `Runs.UnflushedSurviveIff` | src/engine.rs:337-372 | Recovery keeps every write that is in no logged table, frozen or active, if and only if the crash is not between truncating the log and writing the remaining records back; there it loses all of them. |
| `Runs.CrashInRewriteLeaves` | src/engine.rs:367-372 | After a crash there, a key the active memtable does not know keeps its answer and any other gets the answer of the logged tables. |
| `Runs.CrashIsHarmlessIff` | src/engine.rs:337-372 | A crash now changes no answer if and only if it falls outside the rewrite, or every key of the active memtable already has its answer in the logged tables. |
| `Runs.RewriteIsReachable` | src/engine.rs:277-375 | That point is reachable from an empty store, for every key, with an acknowledged write at stake. |
| `Runs.SequentialKeeps` | src/engine.rs:69-412 | With writes only between flushes, the invariant survives every run without excluding any crash point. |
| `Runs.SequentialRunsRecover` | src/engine.rs:69-412 | Sequential use: after every run cut by any number of crashes at any points, `get` answers the map of logged writes, and would after one more crash. |
| `Runs.RecoveredNumbersAreFresh` | src/engine.rs:80-111 | At every crash point: no flushed record is replayed over a newer one, as every replayed entry is newer than every stored one, and the recovered counter bounds every sequence number in memory, in tables and in the log, so the next one exceeds them all. |
| `Runs.ReplayEqualsLive` | src/engine.rs:80-87 | In every reachable state with no edit between log and memory, replaying the manifest gives exactly the levels in memory, and so does reopening. |
| `Runs.FileNumbersFresh` | src/manifest/mod.rs:105-170 | In every reachable state file numbers are pairwise distinct and below the next one to be handed out, among the live files and among the files of the reopened version. |
| `Runs.LevelsOverRuns` | src/manifest/mod.rs:130-170 | In every reachable state levels 1 and below are sorted with disjoint ranges, every shallower version of a key (and every later level-0 one) is newer, and the last of several levels has no tombstone. |
| `LevelStore.FirstHitIsNewest` | src/engine.rs:172-207 | Over the files alone: level 0 newest first, then level by level, the first hit is the newest stored version. |
| `LevelStore.OneFilePerLevel` | src/engine.rs:190-207 | Below level 0 at most one file of a level has a range that admits the key, so a lookup opens at most one. |
| `LevelStore.TwoVersions` | src/engine.rs:172-207 | For two stored versions of one key, which one is newer follows from where they lie. |
| `LevelStore.LiveUnique` | src/manifest/mod.rs:115-118 | Two stored versions of a key with the same sequence number are the same entry. |
| `LevelStore.PushKeeps` | src/engine.rs:316-333 | A flushed table whose entries are newer than every stored version of their keys may join level 0. |
| `Keys.LtFirstDifference` | src/types.rs:137 | Keys are ordered as byte strings: by the smaller byte at the first difference, a prefix first. |
| `Reader.LookupWasCurrent` | src/engine.rs:151-210 | A `get` split into its reads, one for each file it opens, beside atomic writes, flush steps and compaction steps, returns an answer that was current at some moment during the call, if the one file of its snapshot that holds the first hit is not removed before it is read. |
| `Reader.InterleavedLookup` | src/engine.rs:151-210 | The same for a lookup begun in any state a run has reached, crashes at any point included. |
| `Reader.CompactionKeepsAnswer` | src/engine.rs:392-400 | Applying a compaction changes no answer the levels give. |
| `Snapshots.SearchIsLevelsGet` | src/engine.rs:172-207 | Opening files one by one, level 0 newest first and then those whose range admits the key, finds what the tiered search finds. |
| `Snapshots.HitKeptKeepsAnswer` | src/engine.rs:172-207 | Losing table files other than the one the search stops in changes no answer, whatever the files. |
| `Snapshots.SnapshotLossIff` | src/engine.rs:172-207 | With files gone a snapshot answers as before if and only if the key was not in it or the file of its first hit is left; otherwise it answers with a strictly older version, or none. |
| `Races.OvertakenAnswer` | src/engine.rs:377-412 | In every quiet state with four level-0 files the code picks the compaction of them all, and a lookup it overtakes answers from the levels below, whatever level 0 held. |
| `Races.StoredKeyMissed` | src/engine.rs:172-207 | From an empty store, for every key and value: four writes and flushes, and a lookup overtaken by the compaction they make due reports the key absent though its value was the only answer current during the call. |
| `Races.DeletedValueReadBack` | src/engine.rs:172-207 | From an empty store: the key is written, compacted to level 1 and deleted; a lookup overtaken by the next compaction returns the deleted value though absent was the only answer current during the call. |
| `ScanLaws.ScanSeesAllButMissed` | src/engine.rs:430-473 | A `scan` split into its reads, one for each file, beside writes, flush steps and compaction steps: what it has seen and what fell out of its reach have no version in common and stand together for the map at its last read; what it has seen stands for the map it lists. |
| `ScanLaws.DropsExactly` | src/engine.rs:430-473 | Comparing what the remaining reads could see before a step and after it: a rotation before the last read drops the whole memtable; a retirement before the immutable memtables are read drops what the tables of the scan do not hold, which is all of it when the flush was applied after the version was taken; a file removed before its read drops what the frozen memtable does not hold; nothing else drops anything. |
| `ScanLaws.MissesNothingIff` | src/engine.rs:430-473 | Over a whole scan nothing falls out of reach if and only if none of those losses occurs at any step. |
| `ScanLaws.UnpassedScanIsRight` | src/engine.rs:430-473 | A scan that no late retirement, no rotation before its last read and no removal of an unread file of its version passes lists the map as it stood at its last read. |
| `ScanLaws.ScanIsRightIff` | src/engine.rs:430-473 | Every finished scan lists the map as of its last read if and only if each version it missed that is the newest of its key has the answer of the newest version of that key that it saw. |
| `ScanRaces.ScanPassedByRotation` | src/engine.rs:430-473 | From an empty store: one write, and a scan with a rotation before its last read sees nothing at all. |
| `ScanRaces.ScanPassedByFlush` | src/engine.rs:430-473 | From an empty store: one write, and a scan with a whole flush between its first two reads sees nothing at all. |
| `ScanRaces.ScanPassedByCompaction` | src/engine.rs:430-473 | From an empty store: four writes and flushes of a key, and a scan overtaken by the compaction they make due sees nothing at all, with no flush under way. |
| `ScanRaces.ScanListsDeleted` | src/engine.rs:430-473 | From an empty store: the key is written, compacted to level 1 and deleted; a scan overtaken by the next compaction lists it with its old value. |
| `WriterLaws.AcknowledgedKeptIff` | src/engine.rs:92-149 | After every run of any number of writers, flushes and crashes, recovery finds an acknowledged write, in the replay of the log or in a table, if and only if it is in a table, or its record was not truncated away, no memtable without it was flushed under a larger number, and no record of its key is logged behind it above every flushed number. |
| `WriterLaws.CrashKeepsFoundIff` | src/engine.rs:92-210 | Per-key recency: after every such run a crash keeps what is found under a key if and only if every write of the key that replay would yield is the one found now, and the one found now is in a table or would be yielded. |
| `Writers.ReplayedIff` | src/engine.rs:92-111 | Replay yields an entry if and only if its record is above the floor and no other record of its key above the floor lies behind it. |
| `WriterRaces.CutWriteIsLost` | src/engine.rs:337-372 | From an empty store: another key is flushed, and the log rewritten between the append and the insertion of a write; the write is acknowledged and found, and gone after a crash. |
| `WriterRaces.OvertakenWriteIsLost` | src/engine.rs:133-149 | From an empty store: a later write is flushed while an earlier one has only its number; the earlier one is acknowledged under the flushed maximum and found, and gone after a crash. |
| `WriterRaces.ReorderedWriteIsLost` | src/engine.rs:97-149 | From an empty store, with no flush: two writes of one key reach the log in one order and the memtable in the other; both are acknowledged, one is found now and the other after a crash. |
| `WriterRaces.OlderRecordIsFound` | src/engine.rs:97-149 | From an empty store, with no flush: the newest and only acknowledged write of a key has an older, unacknowledged one logged behind it, which is found after a crash. |
| `Meaning.MeansUnique` | src/engine.rs:414-494 | A set of versions stands for at most one map. |
| `Meaning.MapOfMeans` | src/engine.rs:414-494 | Versions told apart by their sequence numbers stand for a map: that of their newest values. |
| `Meaning.MeansWrite` | src/engine.rs:133-149 | Adding a version newer than all changes the map at its key and nowhere else. |
| `Meaning.MeansCondensed` | src/compaction/mod.rs:174-185 | Dropping superseded versions, and newest tombstones together with their whole key, leaves the map unchanged. |
| `WriteLaws.WriteAllKeeps` | src/engine.rs:229-275 | A batch, as one step, keeps the invariant and acts on the map as its operations in order. |
| `WriteLaws.RotateKeeps` | src/engine.rs:279-289 | Swapping in an empty memtable keeps the invariant for the same map. |
| `FlushLaws.FinishTableKeeps` | src/engine.rs:291-317 | Writing the frozen memtable to a table under a fresh number keeps it. |
| `FlushLaws.LogFlushKeeps` | src/engine.rs:326-332 | Appending the flush edit keeps it: from here on recovery takes the entries from the table and not from the log. |
| `FlushLaws.ApplyFlushKeeps` | src/engine.rs:333 | Applying the edit in memory keeps it. |
| `WriteLaws.RetireKeeps` | src/engine.rs:339-367 | Retiring the memtable and truncating the log keeps it. |
| `WriteLaws.RewriteKeeps` | src/engine.rs:368-371 | Writing the remaining records back keeps it. |
| `WriteLaws.RestartKeeps` | src/engine.rs:69-131 | Reopening keeps it at every point, for the map the crash leaves: the logged tables' map between truncation and rewrite, the same map anywhere else. |
| `CompactLaws.PickKeeps` | src/engine.rs:386-390 | Picking a valid compaction keeps it. |
| `CompactLaws.FinishMergeKeeps` | src/compaction/mod.rs:135-222 | Writing the merged table under a fresh number keeps it, beside a flush in any phase. |
| `CompactLaws.LogCompactionKeeps` | src/engine.rs:399 | Appending the compaction edit keeps it: the durable state already stands for the same map. |
| `CompactLaws.ApplyCompactedKeeps` | src/engine.rs:400 | Applying the edit keeps it. |
| `CompactLaws.RemoveFileKeeps` | src/engine.rs:402-408 | Removing a replaced file keeps it: neither the live nor the logged version refers to the file. |
| `FlushLaws.FlushCompactCommute` | src/engine.rs:392-400 | A flush and a compaction commute: a compaction never deletes a table flushed after it was picked. |
| `WalLaws.ReplayCovered` | src/engine.rs:97-106 | Once a memtable replayed from the log is flushed, its largest sequence number covers the whole log: recovery replays nothing of it. |
| `WalLaws.RewriteRecovers` | src/engine.rs:344-371 | The log rewritten from a memtable, sorted by sequence number, recovers exactly that memtable. |
| `Compaction.OverlapMeansSharedKey` | src/compaction/mod.rs:42-44 | Two closed key ranges overlap by the code's test if and only if some key lies in both. |
| `Compaction.OverlappingMembers` | src/compaction/mod.rs:47-57 | The files found are exactly those whose range overlaps. |
| `Compaction.OverlappingJoin` | src/compaction/mod.rs:47-57 | They keep their order, each as often as it stands in the level. |
| `Compaction.HullCovers` | src/compaction/mod.rs:70-82 | The key range computed for a compaction covers every input file, and each of its ends is an end of one. |
| `Compaction.PickCompaction` | src/compaction/mod.rs:60-131 | No pick if and only if level 0 is below its trigger and no level but the last holds more bytes than its limit; otherwise all of level 0, or the first file of the first level over its limit, with exactly the overlapping files of the next level. |
| `Compaction.LevelSizeCounts` | src/compaction/mod.rs:104 | The size of a level counts every file once, wherever it stands. |
| `Compaction.LimitGrowsTenfold` | src/compaction/mod.rs:105-106 | Level 1 may hold the base size, and each further level ten times what the one above may. |
| `Compaction.MergeInputs` | src/compaction/mod.rs:146-172 | The loop over files and entries computes the merge specification. |
| `Compaction.MergeKeeps` | src/compaction/mod.rs:146-172 | The merge keeps, for every input key, one of its newest versions, and nothing else. |
| `Compaction.LastNewestIsKept` | src/compaction/mod.rs:146-172 | Of several newest versions of a key in a list the last one is kept. |
| `Compaction.FilterEntries` | src/compaction/mod.rs:174-185 | The kept entries in key order, without tombstones on the last level. |
| `Compaction.SurvivorsAscend` | src/compaction/mod.rs:174-185 | Filtering the ordered entries equals ordering the filtered ones. |
| `Compaction.RunCompaction` | src/compaction/mod.rs:135-222 | One compaction: the output table, under a fresh number only when something survives, and the edit that replaces exactly the inputs and targets. |
| `CompactionLaws.OutputIsNewest` | src/compaction/mod.rs:146-185 | The output is strictly ascending and holds an entry if and only if it is the newest input version of its key, tombstones aside on the last level. |
| `CompactionLaws.StaysApart` | src/compaction/mod.rs:47-57 | A file left on the target level lies entirely on one side of the compacted range. |
| `CompactionLaws.NothingResurrected` | src/compaction/mod.rs:176-185 | When the last level drops a tombstone that was a key's newest version, no version of that key is left. |
| `CompactionLaws.CompactionKeepsInvariant` | src/compaction/mod.rs:135-222 | The level invariant survives every compaction. |
| `CompactionLaws.CompactionCondenses` | src/compaction/mod.rs:135-222 | A compaction drops only superseded versions, and tombstones with nothing left to hide. |
| `CompactionMeasure.CompactionLowersWeight` | src/engine.rs:385-409 | The sum over live files of (levels - level) strictly drops at every pass. |
| `CompactionMeasure.WeightlessIsSettled` | src/compaction/mod.rs:60-131 | At weight zero no compaction is due. |
| `Versions.VersionSet.LogAndApply` | src/manifest/mod.rs:130-170 | The new levels and counters are the edit applied to the old ones; both counters only grow. |
| `Versions.EditCounters` | src/manifest/mod.rs:130-170 | Both counters end at the least value that bounds the old one, the edit's own and the files it adds. |
| `Versions.VersionSet.NextFileNumber` | src/manifest/mod.rs:105-108 | Returns the counter and advances it. |
| `Versions.VersionSet.NextSequence` | src/manifest/mod.rs:115-118 | Advances the counter and returns it. |
| `Versions.InsertChain` | src/manifest/mod.rs:149-151 | Sorting a file into a level whose ranges all miss it leaves the level sorted and disjoint. |
| `Versions.SortMembers` | src/manifest/mod.rs:149-151 | Sorting a level is a permutation of its files. |
| `Versions.SortAscends` | src/manifest/mod.rs:149-151 | And puts it in the order of the smallest keys. |
| `MemTables.TotalInserted` | src/memtable/mod.rs:45-58 | Inserting exchanges the estimated size of the replaced entry for that of the new one in the total. |
| `MemTables.MemTable.UpdateSizeBytes` | src/memtable/mod.rs:34-42 | The counter moves by the difference and never goes below zero. |
| `MemTables.MemTable.Insert` | src/memtable/skiplist.rs:21-25 | Stores the entry and reports the size of the one it replaced: the lengths of its key and value and nine bytes more. |
| `MemTables.MemTable.Put` | src/memtable/mod.rs:45-50 | Stores the value; `size_bytes` grows by the lengths of key and value and nine for a new key, by the difference of the values' lengths for a known one, and stays the total over live entries. |
| `MemTables.MemTable.Delete` | src/memtable/mod.rs:53-58 | Stores a tombstone; `size_bytes` grows by the length of the key and nine for a new key and shrinks by the length of the stored value for a known one. |
| `MemTables.MemTable.Get` | src/memtable/mod.rs:75-84 | Distinguishes unknown, deleted and stored. |
| `Entries.IterateAscending` | src/memtable/skiplist.rs:46-82 | The iterator yields the entries in strict key order, each once. |
| `Entries.AscendingUnique` | src/memtable/skiplist.rs:46-82 | Key order fixes that list: there is only one. |
| `FlashStores.FlashStore.Open` | src/engine.rs:69-131 | Builds the recovered state from manifest, log and tables; valid for `m` when the durable state stands for `m`. |
| `FlashStores.ReplayInto` | src/engine.rs:92-111 | The replay loop: records above the flushed floor go to the memtable, and the largest number is returned. |
| `FlashStores.FlashStore.Put` | src/engine.rs:133-149 | The store stays valid and its map changes at the key only; exactly when the byte count grown by this entry, in lengths, reaches the limit, the memtable is flushed. |
| `FlashStores.FlashStore.Delete` | src/engine.rs:212-227 | The same, with the key removed from the map and no value bytes. |
| `FlashStores.FlashStore.WriteBatch` | src/engine.rs:229-275 | The map changes by the operations in order; the memtable is flushed exactly when the total with the batch reaches the limit; an empty batch changes nothing. |
| `System.LastOpDecides` | src/engine.rs:229-275 | Of several operations of a batch on one key the last one decides. |
| `FlashStores.BatchIsWriteAll` | src/engine.rs:229-275 | Taking all numbers, logging all records and then inserting all entries ends in the same state as writing one by one. |
| `FlashStores.FlashStore.MaybeScheduleFlush` | src/engine.rs:510-516 | Below the limit nothing changes; at the limit or above the active memtable is empty afterwards; the map is unchanged. |
| `FlashStores.FlashStore.Flush` | src/engine.rs:277-375 | Empty memtable: nothing happens. Otherwise the new state is exactly the one the flush steps of the machine lead to, for the same map. |
| `Uninterrupted.FlushSequence` | src/engine.rs:277-375 | The five steps of a flush that nothing interrupts are each possible, and lead to one new level-0 file, an empty memtable and an empty log, for the same map. |
| `FlashStores.FlashStore.CompactPass` | src/engine.rs:385-409 | One pass keeps validity and the map and strictly lowers the weight; the new state is exactly the one the compaction steps of the machine lead to. |
| `Uninterrupted.CompactSequence` | src/engine.rs:385-409 | The steps of a compaction that nothing interrupts, every file removal included, are each possible and lead to the compacted levels without the replaced files, for the same map and with a lower weight. |
| `FlashStores.FlashStore.Compact` | src/engine.rs:377-412 | Keeps the map; a store with nothing due is left as it is; at most a hundred compactions are logged, and something is left due only after exactly that many, never with a weight of at most a hundred on entry. |
| `FlashStores.FlashStore.Get` | src/engine.rs:151-210 | Answers what the store's map holds. |
| `FlashStores.FlashStore.Scan` | src/engine.rs:414-494 | Strictly ascending pairs, exactly those of the store's map with start <= key < end, the start listed and the end not: the answers `Get` gives, though it resolves by sequence number and not by tier. |
| `FlashStores.ScanDivides` | src/engine.rs:475-494 | The listing of a range is that of its lower part followed by that of its upper part, wherever it is divided. |
| `FlashStores.ScanOfAll` | src/engine.rs:475-494 | Without bounds every key of the map is listed, once. |
| `FlashStores.MergedMeans` | src/engine.rs:414-494 | Resolving every key by its largest sequence number gives the map the versions stand for. |
| `LruCaches.LruInner.Detach` | src/cache/mod.rs:50-78 | Taking a slot off the list leaves `next` and `prev` inverse along the rest, ends included. |
| `LruCaches.LruInner.AttachHead` | src/cache/mod.rs:80-95 | Puts the slot in front of the list. |
| `LruCaches.LruInner.Get` | src/cache/mod.rs:97-107 | The list's answer; a hit moves the item to the front. |
| `LruCaches.LruInner.Insert` | src/cache/mod.rs:109-151 | The item goes to the front, replacing the key's old one, or dropping the last item when the cache is full; a cache of capacity zero stays empty. |
| `LruCaches.InsertedFinds` | src/cache/mod.rs:109-151 | After an insertion the block is found, first, with its new bytes; of the others only the last of a full cache is lost, and only to a new block. |
| `LruCaches.WithoutFinds` | src/cache/mod.rs:97-162 | A removed block is not found, a touched one stands first, and all others are found as before. |
| `LruCaches.LruInner.Remove` | src/cache/mod.rs:153-162 | Returns and removes the key's item. |
| `LruCaches.LruInner.Clear` | src/cache/mod.rs:164-171 | Leaves an empty cache. |
| `LruCaches.CacheIsMostRecent` | src/cache/mod.rs:97-151 | After any block reads, a cache of any capacity holds exactly the most recently read distinct blocks, in order. |
| `LruCaches.RecencyPosition` | src/cache/mod.rs:97-151 | Before a block in recency order stand exactly the distinct blocks read since it was. |
| `LruCaches.HitIff` | src/sstable/reader.rs:118-144 | A block is cached if and only if fewer distinct blocks than the capacity were read since its last read. |
| `LruCaches.HitsAreTrue` | src/sstable/reader.rs:118-144 | A cached block is the block that was read. |
| `BlockReads.TableReader.ReadBlock` | src/sstable/reader.rs:118-144 | One block read through the cache: the cache becomes what the hit rule calls one access, and the bytes are the cached ones or those of the file. |
| `BlockReads.TableReader.ReadAllBlocks` | src/sstable/reader.rs:105-116 | Reading every block through a cache that any block reads have filled returns the blocks of the file, in order. |
| `TableFiles.TableBuilder.Add` | src/sstable/builder.rs:38-64 | The builder holds the entries added, in order, indexed by the first keys of their blocks; a block is closed by the first entry that brings it to the block size. |
| `TableFiles.TableBuilder.Finish` | src/sstable/builder.rs:66-75 | The file stores exactly the entries added, indexed, with a filter of their keys; every block but the last is full. |
| `TableFiles.ChosenBlockHolds` | src/sstable/reader.rs:83-87 | For strictly ordered entries the block chosen by binary search of the first keys is the one that holds the key, whenever one does. |
| `TableFiles.GetByKey` | src/sstable/block.rs:93-119 | The binary search of a block finds the entry of the key if there is one. |
| `TableFiles.Get` | src/sstable/reader.rs:74-103 | A lookup of one block behind the filter answers as a search of all the entries of the table would: unknown, deleted or a value. |
| `BloomFilters.BuildFromKeys` | src/sstable/bloom.rs:30-57 | Exactly the bits that some probe of some key falls on are set, with the 32-bit wrapping arithmetic of the source. |
| `BloomFilters.FilterBitsFit` | src/sstable/bloom.rs:35-43 | The filter has whole bytes, at least eight, and no more than its keys need; bits are counted modulo 2^32. |
| `BloomFilters.RotationMovesBits` | src/sstable/bloom.rs:48 | The rotation moves the low seventeen bits up and the high fifteen round. |
| `BloomFilters.ProbesRun` | src/sstable/bloom.rs:47-53 | The probes are the running 32-bit sums of the hash and its rotation. |
| `BloomFilters.BuiltAdmits` | src/sstable/bloom.rs:63-84 | No false negatives: a filter admits every key it was built from. |
| `TaskGraphs.TaskGraph.AddTask` | src/agent/engine.rs:49-52 | Adds an isolated task; the two maps stay inverse. |
| `TaskGraphs.TaskGraph.AddDependency` | src/agent/engine.rs:55-79 | A self-dependency changes nothing and fails; otherwise the task's own set gains the other task, no other set changes, and the call succeeds if and only if the graph is then acyclic. |
| `TaskGraphs.RejectionIsPermanent` | src/agent/engine.rs:66-77 | A graph with a cycle keeps it whatever tasks and edges are added: after one rejection every later dependency is rejected. |
| `TaskGraphs.TwoTaskCycle` | src/agent/engine.rs:66-77 | The concrete history: a on b is accepted, b on a is rejected, and then any edge whatever is. |
| `TaskGraphs.TaskGraph.TopologicalTiers` | src/agent/engine.rs:101-148 | Fails if and only if there is a cycle; otherwise returns the sorted tiers that take in every task. |
| `TaskGraphs.TaskGraph.ReleaseTask` | src/agent/engine.rs:119-132 | Every decrement finds a positive in-degree, in whatever order the dependents come, and frees exactly the tasks with nothing left to wait for. |
| `TaskGraphs.TierIsLongestChain` | src/agent/engine.rs:101-148 | A task's tier is the length of its longest chain of dependencies. |
| `TaskGraphs.TieredIsAcyclic` | src/agent/engine.rs:139-145 | When the tiers take in every task there is no cycle. |
| `TaskGraphs.StuckIsCyclic` | src/agent/engine.rs:139-145 | When they stop short of a task there is one. |
| `TaskGraphs.TieringPartitions` | src/agent/engine.rs:101-148 | The tiers partition the tasks, and every dependency lies in an earlier tier. |
| `TaskGraphs.TieringUnique` | src/agent/engine.rs:115-136 | There is only one such list of tiers, so hash order does not show. |
| `Workflows.AgentEngine.SubmitTask` | src/agent/engine.rs:259-269 | An accepted submission gives the task exactly its old dependencies and the new ones and changes no other task's, leaves an acyclic graph acyclic and records the task as pending; a rejected one records no task. |
| `Workflows.SubmittedDependencyIsEarlier` | src/agent/engine.rs:66-148 | In any tiering of the graph after a submission every submitted dependency lies in an earlier tier than the task. |
| `Workflows.DependencyRanBefore` | src/agent/engine.rs:446-470 | In the order tasks ran, every dependency of a task stands before it. |
| `Workflows.AgentEngine.ExecuteTask` | src/agent/engine.rs:272-300 | Refused if and only if some dependency is not completed; otherwise completes or fails. From any state it keeps the completed tasks closed under dependencies. |
| `Workflows.ReadyIff` | src/agent/engine.rs:272-300 | A task may be executed exactly when completing it keeps the completed ones closed under dependencies. |
| `Workflows.AgentEngine.RunNext` | src/agent/engine.rs:446-470 | Inside the driver's order the next task is never refused for unsatisfied dependencies. |
| `Workflows.AgentEngine.RunWorkflow` | src/agent/engine.rs:436-488 | Fails on exactly the cyclic graphs before anything starts; otherwise every task starts at most once and after its dependencies, a stop is a failed step or a task never submitted, and success means completed = total = all tasks of the graph. |
| `Workflows.ProgressCloses` | src/agent/engine.rs:446-470 | From a start without completed tasks, the completed set stays closed under dependencies, also when the workflow stops on an error. |
| `MergingIterators.SSTableIterator.Next` | src/iterator/mod.rs:74-79 | Advances, and stays put past the end. |
| `MergingIterators.WinnerIsLeast` | src/iterator/mod.rs:111-119 | The heap order's top shows the least remaining key, and no input before it shows that key. |
| `MergingIterators.MergingIterator.constructor` | src/iterator/mod.rs:128-142 | Pushes every iterator that has an entry and shows the first pair. |
| `MergingIterators.MergingIterator.Advance` | src/iterator/mod.rs:144-172 | Emits the least remaining key with the value of the first input that holds it and consumes the key everywhere; the remaining input strictly shrinks. |
| `MergingIterators.MergeExtends` | src/iterator/mod.rs:144-172 | Consuming a key everywhere and emitting its winner extends the merge of what was consumed by one pair. |
| `MergingIterators.Drain` | src/iterator/mod.rs:175-195 | Draining yields the merge: strictly ascending keys, exactly the keys of the inputs, each with the value of the lowest-index input holding it. |
| `MergingIterators.MergeUnique` | src/iterator/mod.rs:111-119 | The inputs have one merge only. |
| `MergingIterators.MergeShowsNewest` | src/iterator/mod.rs:111-119 | Fed newest source first, the merge shows each key with its newest version. |
| `ManifestLogs.Manifest.LogEdit` | src/manifest/mod.rs:31-40 | Appends exactly one frame, so the log stays the frames of the edits logged. |
| `ManifestLogs.ReadAllEdits` | src/manifest/mod.rs:42-75 | The offset loop computes the frame parser, for every byte string. |
| `Framings.HeaderExactIff` | src/manifest/mod.rs:34 | A length cast to 32 bits reads back if and only if it is below 2^32. |
| `Framings.LittleEndian` | src/manifest/mod.rs:34 | The least significant byte of a length comes first. |
| `ManifestLogs.FrameReadsBackIff` | src/manifest/mod.rs:31-75 | The frame of an edit, whatever follows it, reads back if and only if its encoding is shorter than 2^32 bytes; a longer one ends the reading. |
| `Framings.FramesReadFirst` | src/manifest/mod.rs:42-75 | Logged items are read first, in order, whatever bytes follow them. |
| `Framings.TornLogReadsWholeFrames` | src/manifest/mod.rs:31-75 | A log cut at any byte reads as exactly the items whose frames lie wholly in the kept prefix, of which there is one number only; uncut, as all of them. |
| `ManifestLogs.EditsFramed` | src/manifest/mod.rs:31-75 | The frames of edits shorter than 2^32 bytes read back whatever follows them and, cut anywhere, read as nothing: the manifest is such a log. |
| `ManifestLogs.ReopenedManifestReads` | src/manifest/mod.rs:17-75 | A manifest cut at any byte, reopened and logged to reads as its whole frames, with all new edits when the cut left nothing torn; behind an edit torn after its length nothing more is read if and only if the new bytes do not complete it to one that decodes. |
| `WalLogs.RecordsFramed` | src/wal/record.rs:38-82 | A checksummed record reads back whatever follows it and, cut anywhere, reads as nothing: the write-ahead log is such a log, and keeps all records before a torn one. |
| `WalLogs.RecordParts` | src/wal/record.rs:38-50 | A record lies in the log as its checksum, its length and its payload, in this order. |
| `WalLogs.WalWriter.AppendBatch` | src/wal/mod.rs:42-56 | Appends exactly the frames of the records, in order. |
| `WalLogs.ReadAll` | src/wal/mod.rs:89-130 | The offset loop computes the frame parser, for every byte string. |
| `WalLogs.ReopenedLogReads` | src/wal/mod.rs:17-130 | A log cut at any byte, reopened and appended to reads as its whole records, with all new ones when the cut left nothing torn; behind a record torn after its header nothing more is read if and only if the new bytes do not complete it to its checksum. |
| `WalLogs.ShortTailIsLost` | src/wal/mod.rs:17-130 | New records shorter than the part torn off are all unreadable, whatever the checksum. |
| `Texts.OffsetsAreBoundaries` | src/rag/chunker.rs:39-55 | Byte offsets of characters are slice boundaries, one per character. |
| `Texts.WidthIsLeast` | src/rag/chunker.rs:39-55 | A character counts the fewest bytes of UTF-8 that carry its number. |
| `Texts.TrimCuts` | src/rag/chunker.rs:57 | Trimming cuts off exactly the white space at both ends. |
| `Texts.BlankIsWhiteSpace` | src/rag/chunker.rs:88 | White space is the twenty-five characters of the Unicode property. |
| `Windows.LastWindowReachesEnd` | src/rag/chunker.rs:45-73 | Windows start inside the text and the last of the predicted number is the only one that reaches the end. |
| `Windows.NeighboursShare` | src/rag/chunker.rs:45-73 | Every window but the last is full, and its last min(overlap, size - 1) elements are the first of its successor. |
| `Windows.StitchRebuilds` | src/rag/chunker.rs:45-73 | Overlapping windows, joined without what neighbours share, are the sequence again. |
| `Chunkers.ChunkFixedChars` | src/rag/chunker.rs:29-74 | The windows that reach the minimum size, or the last window when none does. |
| `Chunkers.KeptWindows` | src/rag/chunker.rs:57-69 | For any minimum: the windows kept are those whose trimmed text reaches it, in their order; when none does, the last alone; so there is always one. |
| `Chunkers.FixedCharsRebuild` | src/rag/chunker.rs:29-74 | Without a minimum: the first chunk and each later one without its first min(overlap, size - 1) characters rebuild the text; there are 1 + ceil(max(0, total - size) / step) chunks; every chunk is the slice between character boundaries. |
| `Chunkers.FixedCharsOverlap` | src/rag/chunker.rs:45-73 | Without a minimum, with o the overlap, or size - 1 when that is less: chunk w is the text from character w * (size - o) to size characters on or the end; every chunk with a successor is full, and its last o characters are the first of that successor; only the last chunk reaches the end. |
| `Chunkers.TokenSpans` | src/rag/chunker.rs:87-101 | The byte spans of exactly the maximal runs without white space, in order. |
| `Chunkers.WordsUnique` | src/rag/chunker.rs:87-101 | A text has one such list. |
| `Chunkers.ChunkFixedTokens` | src/rag/chunker.rs:77-132 | The word windows that reach the minimum size, or the last one when none does. |
| `Chunkers.FixedTokensRebuild` | src/rag/chunker.rs:77-132 | Without a minimum every chunk's text has exactly the words of its window, the windows rebuild the list of words, and their number is as predicted. |
| `Chunkers.FixedTokensOverlap` | src/rag/chunker.rs:103-131 | The same for words: chunk w is the text from the start of word w * (size - o) to the end of the word size - 1 further, or the last. |
| `SentenceChunkers.ChunkSentences` | src/rag/chunker.rs:174-237 | Cuts at each first sentence end at which the trimmed text reaches the minimum; a short remainder joins the last chunk. |
| `SentenceChunkers.CutsUnique` | src/rag/chunker.rs:187-217 | A document has one list of cuts. |
| `SentenceChunkers.CutsAreFirstLongEnough` | src/rag/chunker.rs:187-217 | A document is cut behind a line break, or behind a full stop, exclamation or question mark before white space, a quote or the end, once the trimmed text reaches the minimum; where such a place is passed over, it does not. |
| `SentenceChunkers.SentenceTexts` | src/rag/chunker.rs:187-237 | A chunk's text is its trimmed span; a short remainder is joined to the last chunk behind one space. |
| `SentenceChunkers.SentencesLoseNothing` | src/rag/chunker.rs:174-237 | Without white space, the chunks joined are the document, in order. |
| `SentenceChunkers.SentencesTile` | src/rag/chunker.rs:174-237 | Spans start at 0 and follow one another without a gap; what lies after the last is blank. |
| `SentenceChunkers.SentencesReachMinimum` | src/rag/chunker.rs:174-237 | When there is more than one chunk, each has at least the minimum size. |

## Left out

- FlashStores.FlashStore.Put: does not model 64-bit wrap-around of sequence and file numbers, which needs more writes than a store can take.
- Runs.StepKeeps: takes each write as one atomic step; the code allocates the number, appends to the log and inserts under three separate locks (`src/engine.rs:136-145`), which `Writers` models beside flushes, without compactions and concurrent lookups.
- WriterLaws.AcknowledgedKeptIff: an entry that reached a table is not followed through compactions; a batch is so many writes, where the code appends its records together.
- FlushLaws.FinishTableKeeps: takes the file number and writes the table in one step; the code takes the number first (`src/engine.rs:291`), and a compaction may take and log a larger one in between.
- Reader.LookupWasCurrent: a file is found, opened and read in one step, so its removal between the first two, which is an I/O error, is not modelled.
- ScanLaws.ScanSeesAllButMissed: a file is found, opened and read in one step, as for lookups; a crash ends a scan.
- Compaction.PickCompaction: a level-0 trigger of zero, which the engine never sets, would make the source index an empty level; the limit of a level is an unbounded product, where the source multiplies machine integers.
- WalLogs.ReopenedLogReads: the state machine takes an append to either log as one durable action, so a torn tail is not one of its crash points.
- Chunkers.FixedCharsRebuild: with a positive minimum, windows below it are dropped, so nothing is rebuilt; `Chunkers.ChunkFixedChars` says which windows remain.
- Workflows.AgentEngine.ExecuteTask: routing, tool calls and reflection complete or fail by free choice; scores, messages and artifacts are not modelled.
- A store opened with zero levels: `flush` would then truncate the log without keeping the table.
- I/O errors inside flush and compaction, `fsync`, directories, and loss of data the operating system had accepted.
- TableFiles.Get: a block is its list of entries and a filter its list of bits; their bytes, the footer and the offsets are not modelled, nor the rounding that gives the number of probes.
- BloomFilters.BuildFromKeys: a filter whose bit count is a multiple of 2^32 makes the source divide by zero.
- The block cache inside `get` and `scan`: block reads through it are proved on their own, and return the bytes of the file.
- Two flushes or two compactions at once: each is serialized by its own lock in the code.
- Paragraph chunking, `chunk_document`, retrieval scoring, semantic cache, context assembly and agent memory.
- The command line, the MCP server, metrics, event broadcasting, configuration builders and JSON persistence.
