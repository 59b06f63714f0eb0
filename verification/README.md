# Verified core of mica-core

A Dafny model of the parts of mica-core whose correctness is not visible from one
function: the settings undo journal, the redundant boot environment, Debian version
order, content-defined chunking with delta transfer, the signal-fed caches of the web
API, the reconcile queue, and the boot-side checks and counters. Each module follows the
form of the code it models: pure code is functions and lemmas; code that changes state is
classes and methods proved against specification functions. `dafny verify dfyconfig.toml`
checks the whole project.

| module | models |
|---|---|
| `DurableFiles`, `UndoJournal`, `Documents`, `StoreWrites` | the multi-document settings commit and its recovery |
| `SettingsPath` | dot-paths, the settings tree, and the filter of access changes |
| `Signals`, `AccessCache` | apid's cache of the access settings, and what micad signals of them |
| `TaskRegistry`, `TaskProtocol`, `OrderlyPublishers`, `TaskAnomalies` | apid's mirror of micad's tasks, how micad publishes them, and what the mirror then shows |
| `ApplyQueue` | micad's reconcile queue |
| `DebianVersion`, `DebianOrder` | Debian version comparison, the rules of its order, and root requirements |
| `Crc32`, `CrcRemainder`, `BootRecords`, `FitEnvironment`, `Deployments` | boot records, their two copies, and DATA's account of them |
| `Chunker`, `TransferIndex`, `DeltaAssembly` | chunking, the transfer index, and assembling an object |
| `Composition`, `SetTrial` | composing core components at boot, and the trial of a new set |
| `LinkedRecords`, `DmTable` | device-mapper replies |
| `LoginGuard` | the login backoff |
| `Base`, `Strings`, `Integers`, `Runs` | shapes, sequence searches, number encodings and runs of state machines the others share |

## How the surroundings appear

- A disk has a visible and a durable side. A directory sync makes that directory's entries
  durable. A fault may stop any step, and a power cut leaves each name as its durable or its
  visible entry, one by one. Faults and cuts are unconstrained choices inside the methods.
- Clocks, directory listings, fetched chunks and the outcomes of flash writes are parameters.
- Concurrent protocols are state machines over their steps. A run is any sequence of steps
  that are enabled, so the theorems hold for every interleaving of those steps. micad changes
  a task, takes a snapshot, stores it and signals its copy in four steps; any number of
  publishers may be between them, signals may fail, and micad may restart. A settings change
  and its signal are two steps, and the signals of overlapping writers leave in any order.
- SHA-256 is an abstract function, and two texts may have the same digest. A theorem that rests on
  digests says which pair of texts would have to collide for it to fail.
- A machine's byte order is a pair of functions that read back what they write. Both
  are shown to be such pairs (`LittleEndianIsSound`, `BigEndianIsSound`).

## Where the code falls short of a promise

Each case has a lemma at an input or a run that shows it, and a lemma that says exactly when
the promise holds.

- A task served with no signal of it still to come need not be micad's last record of it.
  Publishers hold copies: an older copy may be signalled after a newer one
  (`LateCopyIsServed`), and an older task list may be stored over a newer one
  (`OlderListIsServed`). A task that finished and left the history unseen is served as
  interrupted (`AppliedIsServedInterrupted`). The record served is the last one if and only
  if what was heard last of the id was: the last copy signalled is the last record, or the
  read it was filled from returned it (`RegistryFollowsMicad`). With publishers that keep
  order only the interrupted case is left (`OrderlyRegistryConverges`). Of a changed task a
  signal is queued if and only if micad's signal of it is sent; until then, or for as long as
  the stream lives if it is lost, the old record is served (`TaskAnomalies.ChangeIsHeardExactly`).
  From there a new subscription and a read serve the last record again (`FallbackServesLast`).
- A changed access value is not always heard of: the signal of a change may fail, and a change
  written at `"access"`, in quotes, is passed over by the filter. A signal that drops the served
  value is on its way if and only if micad's signal is sent and the path does not quote `access`
  (`AccessCache.ChangeIsHeardExactly`); a run that serves the old value with nothing on its way is
  `LostSignalServesOld`. A served value that is not current has a change on its way or had one
  missed since the cache was last emptied (`CacheCoherence`), and a new subscription and a read
  serve the current value again (`ResubscribingHeals`).
- A recovery retried in the same process after a failed directory sync can leave a mix of old
  and new documents, because a document that already reads as its previous text is skipped
  without a sync (`UnsyncedRetryMixes`). One that finds no journal, after its unlink was seen
  and the sync failed, leaves documents that a power cut takes back (`UnsyncedUnlinkReverts`).
  What a completed recovery shows is durable exactly when every document of the journal is in
  a directory that is synced again or is already durably as before, and, without a journal,
  when none is durable either (`DurableRecovery`).
- Boot record ids are not validated when they are written. An id that carries separators is
  accepted and read back as other records (`InjectedRowIsAccepted`). What is written is read
  back exactly when no id holds a separator (`RenderReadsBack`).
- A change written at `"access"`, in quotes, is not seen as touching `access`
  (`QuotedAccessIsMissed`). The filter misses a path into `access` exactly when its first
  segment is quoted (`TouchesAccessExactly`).
- The chunk count of a transfer index is cut to 32 bits. Every content of 2^48 bytes or more
  is cut into too many chunks and its index is refused by its own reader
  (`HugeIndexIsRefused`). An index reads back exactly when it has fewer than 2^32 chunks
  (`IndexRoundTrip`), and every object of at most 2^44 - 4096 bytes has (`OwnIndexRoundTrip`).

## Model

| member | source | states |
|---|---|---|
| `DurableFiles.Disk.PowerCut` | crates/mica-fs/src/lib.rs:131-137 | after a cut nothing is left but, name by name, a durable or a visible entry, and what is visible is durable |
| `DurableFiles.Disk.SyncDir` | crates/mica-fs/src/lib.rs:131-137 | a sync that succeeds makes exactly one directory's entries durable; one that fails makes none |
| `DurableFiles.Disk.Stage` | crates/mica-fs/src/lib.rs:100-125 | bringing content under the temporary name changes no file under its own name, and the content is synced before it can be renamed |
| `DurableFiles.Disk.Replace` | crates/mica-fs/src/lib.rs:100-128 | a replace is all or nothing under the file's name, however it is stopped, and durable when it reports success |
| `DurableFiles.Disk.RemoveSynced` | crates/micad-settings/src/transaction.rs:46-56 | a removal is all or nothing and durable when it reports success, except that an absent file is reported removed without a sync |
| `UndoJournal.CutIsAtomic` | crates/micad-settings/src/transaction.rs:110-164 | a power cut at any moment of a save leaves a disk that stands for all documents as before or all as requested |
| `UndoJournal.RestoreEntry` | crates/micad-settings/src/transaction.rs:86-94 | one entry is taken back durably, or was already as before and is skipped without a sync |
| `UndoJournal.RollBack` | crates/micad-settings/src/transaction.rs:86-95 | following the journal restores every entry, and stopping anywhere keeps the save in doubt |
| `UndoJournal.Recover` | crates/micad-settings/src/transaction.rs:58-98 | a completed recovery leaves the disk quiet at what it stood for; file by file it leaves STATE's `settings.toml` and DATA's other documents as the journal's entries say and every other file alone; a stopped one can be run again; without a journal nothing changes; a journal that is refused changes nothing |
| `UndoJournal.RestoreReads` | crates/micad-settings/src/transaction.rs:26-32 | taking back a journal leaves `settings.toml` on STATE and each other document on DATA as its entry says, and touches no other file |
| `UndoJournal.Change` | crates/micad-settings/src/transaction.rs:142-147 | one change is durable on success and otherwise made or not made |
| `UndoJournal.Commit` | crates/micad-settings/src/transaction.rs:141-149 | the changes and the journal's removal end with all documents as requested, or stop in doubt with the state a rollback needs |
| `UndoJournal.Compare` | crates/micad-settings/src/transaction.rs:122-134 | the changes and undo entries are exactly the requests that differ from the disk, with the previous texts |
| `UndoJournal.AfterFailure` | crates/micad-settings/src/transaction.rs:150-162 | a completed rollback after a failed save leaves every document durably as before |
| `UndoJournal.Save` | crates/micad-settings/src/transaction.rs:100-164 | from any settled disk, in doubt or not, a save ends with every change to what the disk stood for durable, in the one STATE file for `settings.toml` and in the DATA file of its name for every other document, or reports a failure with all documents as they stood, or is in doubt |
| `UndoJournal.ApplyReads` | crates/micad-settings/src/transaction.rs:26-32 | the requested texts are read from the STATE file for `settings.toml` and from the DATA file of its name for every other document; no other file changes |
| `UndoJournal.SaveToTheEnd` | crates/micad-settings/src/transaction.rs:58-164 | whatever step a save and any number of recoveries are cut at, the first completed recovery leaves all documents as before or all as requested |
| `UndoJournal.SaveAll` | crates/micad-settings/src/transaction.rs:58-164 | over a whole history of cut saves and recoveries the documents are those of the saves that took effect, in order |
| `UndoJournal.SaveJournalAccepted` | crates/micad-settings/src/transaction.rs:71-85 | every journal a save writes is one recovery accepts, and it describes that save |
| `UndoJournal.ApplyChanged` | crates/micad-settings/src/transaction.rs:122-134 | leaving out the documents that do not change asks for the same result |
| `UndoJournal.PartwayInDoubt` | crates/micad-settings/src/transaction.rs:138-147 | after any number of changes the save is in doubt between exactly its two ends |
| `UndoJournal.DurableRollback` | crates/micad-settings/src/transaction.rs:86-98 | a rollback is durable if and only if each entry's directory is synced again or the entry is already durably as before |
| `UndoJournal.DurableRecovery` | crates/micad-settings/src/transaction.rs:58-98 | what any completed recovery shows is durable if and only if its rollback is, or no journal is left on the disk |
| `UndoJournal.UnsyncedUnlinkReverts` | crates/micad-settings/src/transaction.rs:141-162 | for every save, a journal whose unlink was not synced lets recovery report success on documents a power cut takes back |
| `UndoJournal.JournalAcceptedExactly` | crates/micad-settings/src/transaction.rs:71-85 | of distinct known documents, recovery accepts the journal exactly when at most 4096 change |
| `UndoJournal.UnsyncedRetryMixes` | crates/micad-settings/src/transaction.rs:89-93 | after a failed sync a retried recovery can end with a mix of documents |
| `StoreWrites.FixedDocumentsAreNoProjects` | crates/micad-settings/src/documents.rs:28-39 | the fixed documents are distinct and none of them is a project's |
| `StoreWrites.ProjectNames` | crates/micad-settings/src/model/containers.rs:42-53 | a project's name is 1 to 40 lower-case letters, digits, `_` and `-`, and starts with a letter or a digit |
| `StoreWrites.ProjectDocumentNames` | crates/micad-settings/src/documents.rs:256-271 | a document is a project's exactly when it is `container/`, the project's name and `.yaml` |
| `StoreWrites.AcceptedJournals` | crates/micad-settings/src/transaction.rs:71-85 | recovery follows exactly the journals of at most 4096 entries, of distinct documents it knows by name |
| `StoreWrites.FixedWrites` | crates/micad-settings/src/store.rs:405-437 | every fixed document is written unless it is preserved and present, and rendering fails only for a document that must be written |
| `StoreWrites.Removals` | crates/micad-settings/src/store.rs:458-476 | exactly the listed documents of projects that are gone are removed, each once |
| `StoreWrites.ProjectWrites` | crates/micad-settings/src/store.rs:443-489 | every project is written and every stale one removed, unless a project document is preserved; a missing directory is made exactly when a project needs it, and the save is refused exactly when the directory cannot be read or made |
| `StoreWrites.StoreWritesAreRequestable` | crates/micad-settings/src/store.rs:399-441 | what the store asks for is what a save may be asked for, exactly when at most 4096 documents change |
| `SettingsPath.Split` | crates/micad-settings/src/path.rs:54-83 | the splitting loop computes the segments of the path, or refuses it |
| `SettingsPath.SpelledPath` | crates/micad-settings/src/path.rs:36-83 | splitting a join of quoted segments returns them exactly when there are some and each is non-empty and without a double quote |
| `SettingsPath.SplitIsPlain` | crates/micad-settings/src/path.rs:54-83 | every segment a path splits into can be spelled again |
| `SettingsPath.SettingsTree.Set` | crates/micad-settings/src/path.rs:86-112 | a refused set changes nothing, and an accepted one changes the tree as specified |
| `SettingsPath.SetRefused` | crates/micad-settings/src/path.rs:86-112 | a set is refused exactly for no segments or when a leaf is on its way |
| `SettingsPath.GetAfterSet` | crates/micad-settings/src/path.rs:21-112 | a get after a set finds the value, and every node on neither side of the path is as before |
| `SettingsPath.TouchesAccessExactly` | crates/mica-apid/src/access_cache.rs:17-27 | the filter matches exactly the paths into `access` whose first segment is not quoted |
| `SettingsPath.UntouchedAccess` | crates/mica-apid/src/access_cache.rs:17-27 | a write the filter passes over does not change `access`, unless the path quotes it |
| `SettingsPath.QuotedAccessIsMissed` | crates/mica-apid/src/access_cache.rs:17-27 | a quoted `"access"` is passed over though it replaces the subtree |
| `AccessCache.Cache.Get` | crates/mica-apid/src/access_cache.rs:62-69 | nothing is served without a live subscription |
| `AccessCache.Cache.Fill` | crates/mica-apid/src/access_cache.rs:78-83 | a value is kept only if nothing moved since its generation was sampled |
| `AccessCache.Cache.Invalidate` | crates/mica-apid/src/access_cache.rs:88-92 | the value is dropped and reads in flight are outdated |
| `AccessCache.Cache.Subscribed` | crates/mica-apid/src/access_cache.rs:97-102 | a new subscription starts empty and outdates reads in flight |
| `AccessCache.Cache.Lapsed` | crates/mica-apid/src/access_cache.rs:106-111 | a lapse stops serving and outdates reads in flight |
| `AccessCache.StepKeepsInvariant` | crates/mica-apid/src/bus_client.rs:168-231 | every step of writes, signals, reads, fills, lapses and resubscriptions keeps the protocol's invariant |
| `AccessCache.RunKeepsInvariant` | crates/mica-apid/src/bus_client.rs:168-231 | so does every run |
| `AccessCache.CacheCoherence` | crates/mica-apid/src/routes/credential.rs:141-150 | in every run a served value that is not micad's current one has a signal of the open subscription still to arrive, or a change was lost or passed over since the cache was last emptied |
| `AccessCache.NothingOlderIsServed` | crates/mica-apid/src/access_cache.rs:62-111 | after an invalidation or lapse, nothing read before it is ever served |
| `AccessCache.LostSignalServesOld` | crates/micad/src/bus/provisioning.rs:34-43 | a run in which the signal of a change fails and the old value is served with nothing on its way |
| `AccessCache.ChangeIsHeardExactly` | crates/micad/src/bus/provisioning.rs:34-43 | from every world of a run that serves the current value, any change of `access` leaves the old value served, and something that drops it is on its way if and only if its signal is sent and its path does not quote `access` |
| `AccessCache.ResubscribingHeals` | crates/mica-apid/src/bus_client.rs:168-231 | from every world of a run, whatever was lost, a lapse, a new subscription and a read serve the current value with nothing missed |
| `TaskRegistry.Registry.Insert` | crates/mica-apid/src/task_registry.rs:68-79 | an insertion in place makes the specified registry |
| `TaskRegistry.InsertEvictsOldest` | crates/mica-apid/src/task_registry.rs:68-79 | an insertion replaces in place, or appends and drops at most the oldest record |
| `TaskRegistry.InsertKeepsMatched` | crates/mica-apid/src/task_registry.rs:68-79 | order and records stay matched, within 128, and the new record is there |
| `TaskRegistry.SnapshotMatched` | crates/mica-apid/src/task_registry.rs:133-149 | a snapshot leaves order and records matched exactly when the ids it keeps are distinct |
| `TaskRegistry.SnapshotKeepsNewest` | crates/mica-apid/src/task_registry.rs:133-149 | a snapshot leaves the newest 128 of its tasks in their order, and forgets what was remembered of them |
| `TaskRegistry.Registry.Fill` | crates/mica-apid/src/task_registry.rs:125-131 | a direct read is kept only if nothing moved since it began |
| `TaskRegistry.Registry.FillList` | crates/mica-apid/src/task_registry.rs:133-149 | a snapshot keeps its newest 128 records, if nothing moved since it began |
| `TaskRegistry.Registry.Update` | crates/mica-apid/src/task_registry.rs:153-160 | a signalled record replaces the mirrored one and outdates reads in flight |
| `TaskRegistry.Registry.Subscribed` | crates/mica-apid/src/task_registry.rs:162-169 | a new subscription starts with no records and no snapshot |
| `TaskRegistry.Registry.Lapsed` | crates/mica-apid/src/task_registry.rs:171-190 | a lapse moves every record to the stale ones and trims those |
| `TaskRegistry.LapseKeepsLastSeen` | crates/mica-apid/src/task_registry.rs:171-190 | a lapse serves nothing and remembers what was last seen of every task, of more than 128 only the newest |
| `TaskRegistry.SeenIsNotStale` | crates/mica-apid/src/task_registry.rs:125-169 | a task that is seen again is no longer only remembered, and a new subscription remembers what the old one did |
| `TaskRegistry.TrimOldest` | crates/mica-apid/src/task_registry.rs:171-190 | the trimming loop drops the oldest records until 128 are left |
| `TaskRegistry.Registry.Get` | crates/mica-apid/src/task_registry.rs:96-102 | a record is served only while synchronised |
| `TaskRegistry.Registry.List` | crates/mica-apid/src/task_registry.rs:104-113 | the list is served only after a snapshot, in order |
| `TaskProtocol.StepKeepsMicadSound` | crates/micad/src/bus/apply.rs:575-604 | through changes, snapshots, stores, signals and restarts, every list, copy and signal micad holds is made of records it once had |
| `TaskProtocol.StepKeepsSettling` | crates/micad/src/bus/apply.rs:575-604 | no step of micad makes a settled record of the registry silently wrong: a change of its id is on its way first |
| `TaskProtocol.DeliverKeepsInvariant` | crates/mica-apid/src/bus_client.rs:234-258 | a delivered signal leaves every mirrored record settled or with a signal still queued |
| `TaskProtocol.FillKeepsInvariant` | crates/mica-apid/src/routes/mod.rs:366-413 | so does a direct read that overtook signals, of one task, of the list, or presumed from a stale record |
| `TaskProtocol.StepKeepsInvariant` | crates/mica-apid/src/bus_client.rs:234-258 | every step of micad, the bus and the requests keeps the protocol's invariant |
| `OrderlyPublishers.StepKeepsOrder` | crates/micad/src/bus/apply.rs:575-604 | with stores and signals in order, the newest copy of every id is still to be signalled or was signalled last, and the stored list misses only records still to be stored |
| `OrderlyPublishers.OrderlyRegistryConverges` | crates/mica-apid/src/task_registry.rs:96-190 | in every run with publishers that keep order, a served record with no signal of its id on its way, or lost since the stream opened, is micad's last, or is presumed for an id micad dropped |
| `TaskAnomalies.LateCopyIsServed` | crates/micad/src/bus/apply.rs:258-276 | a run in which an older copy is signalled last and served for good |
| `TaskAnomalies.ChangeIsHeardExactly` | crates/micad/src/bus/apply.rs:575-604 | from every world of a run that serves a task's last record, a change of it, published to the end, leaves the old record served, and a signal of it is queued if and only if it is sent |
| `TaskAnomalies.OlderListIsServed` | crates/micad/src/bus/apply.rs:583-591 | a run in which an older list is stored last and served for good |
| `TaskAnomalies.AppliedIsServedInterrupted` | crates/mica-apid/src/routes/mod.rs:378-398 | a run in which an applied task is served as interrupted |
| `TaskProtocol.RegistryFollowsMicad` | crates/mica-apid/src/task_registry.rs:96-190 | in every run the record served with nothing of its id queued (and, if it came from a read, none on its way or lost since the stream opened) is micad's last if and only if what was heard last of it was; every record served is one micad had, or presumed for an id it dropped; order and records match within 128 |
| `TaskProtocol.FallbackServesLast` | crates/micad/src/bus/apply.rs:575-577 | from every world of a run, whatever was lost, a new subscription and a read of a task micad retains serve its last record |
| `ApplyQueue.SubsumesTransitive` | crates/micad/src/apply_queue.rs:325-337 | subtree containment is transitive |
| `ApplyQueue.EnqueuedValid` | crates/micad/src/apply_queue.rs:125-211 | an enqueue keeps a record for every pending job, so neither `expect` can fire, and the order matching the records |
| `ApplyQueue.OpenedValid` | crates/micad/src/apply_queue.rs:215-253 | so does opening a task |
| `ApplyQueue.MarkedValid` | crates/micad/src/apply_queue.rs:269-294 | so does starting or finishing a task that is not pending |
| `ApplyQueue.EnqueuedCovers` | crates/micad/src/apply_queue.rs:125-211 | an enqueued path is covered by a pending job, and no covered path is uncovered, by folding, broadening or overflow |
| `ApplyQueue.EnqueuedBound` | crates/micad/src/apply_queue.rs:151-181 | an enqueue keeps the records within the larger of 128 and the unfinished tasks |
| `ApplyQueue.OverlapWidens` | crates/micad/src/apply_queue.rs:128-149 | a path that overlaps pending jobs changes the first of them only: it gets the shorter of the two paths by segments, and one more request is counted |
| `ApplyQueue.ApartExtends` | crates/micad/src/apply_queue.rs:183-211 | a path that overlaps none gets one job and one record with exactly that path while there are fewer than 128 records |
| `ApplyQueue.FullEvictsOldest` | crates/micad/src/apply_queue.rs:151-159 | a full table drops exactly its oldest finished task for the new one |
| `ApplyQueue.FullBroadensOldest` | crates/micad/src/apply_queue.rs:160-181 | a full table with nothing finished makes its oldest pending job one of the whole tree, and only that |
| `ApplyQueue.OpenedExactly` | crates/micad/src/apply_queue.rs:215-253 | an opened task is recorded without a job, and a full table drops its oldest finished task for it, if it has one |
| `ApplyQueue.RunKeepsInvariant` | crates/micad/src/apply_queue.rs:125-294 | in every run every owed path is covered, the order lists exactly the records, and the records stay within the larger of 128 and the peak of unfinished tasks |
| `ApplyQueue.NoLostApply` | crates/micad/src/apply_queue.rs:125-267 | once the queue drains, every well-formed path enqueued was subsumed by a job taken after it |
| `ApplyQueue.JobsAreAskedFor` | crates/micad/src/apply_queue.rs:125-267 | in every run each pending job has a path that was enqueued; one of the whole tree that was not comes only of a full table with nothing finished |
| `ApplyQueue.FullHasPending` | crates/micad/src/apply_queue.rs:160-165 | with one worker a full table without a finished task has a pending job to broaden |
| `ApplyQueue.OneWorkerIsBounded` | crates/micad/src/apply_queue.rs:151-181 | with one worker and no opened tasks the records never exceed 128 |
| `ApplyQueue.Tasks.Enqueue` | crates/micad/src/apply_queue.rs:125-211 | the returned task is pending and subsumes the path; it is new exactly when it is said to be, and otherwise counts one more request |
| `ApplyQueue.Tasks.Open` | crates/micad/src/apply_queue.rs:215-253 | the opened task is recorded under a new id and is not pending |
| `ApplyQueue.Tasks.TakeNext` | crates/micad/src/apply_queue.rs:259-267 | the oldest job is taken, with the path its record shows |
| `ApplyQueue.Tasks.Mark` | crates/micad/src/apply_queue.rs:269-294 | only the status of the task's own record changes, if it is still there |
| `ApplyQueue.Tasks.Snapshot` | crates/micad/src/apply_queue.rs:300-307 | a snapshot holds every record, in the order of their tasks |
| `DebianVersion.ComparePart` | crates/mica-deploy/src/debian_version.rs:61-98 | the two-cursor loop is lexicographic comparison of zero-padded keys of weights and numbers |
| `DebianVersion.KeySpellsRuns` | crates/mica-deploy/src/debian_version.rs:61-98 | a key is, run by run, the weights of the text, a zero and the value of the digits |
| `DebianVersion.TrimmedOrder` | crates/mica-deploy/src/debian_version.rs:80-96 | comparing trimmed digit runs by length and then text compares their values, however long |
| `DebianVersion.LexReverse` | crates/mica-deploy/src/debian_version.rs:61-98 | swapping two keys reverses their order |
| `DebianVersion.LexTransitive` | crates/mica-deploy/src/debian_version.rs:61-98 | the order of keys is transitive |
| `DebianVersion.CompareVersions` | crates/mica-deploy/src/debian_version.rs:100-109 | versions compare by epoch, then upstream, then revision, and invalid ones do not compare |
| `DebianVersion.CompareReverses` | crates/mica-deploy/src/debian_version.rs:100-109 | swapping two versions reverses the comparison |
| `DebianVersion.CompareTransitive` | crates/mica-deploy/src/debian_version.rs:100-109 | comparison is transitive, and strict where either step is |
| `DebianVersion.AbsentRevisionIsZero` | crates/mica-deploy/src/debian_version.rs:15-43 | a version without a revision compares with every version as its revision `0` does (section 5.6.12 of the Debian Policy Manual) |
| `DebianVersion.RequirementIsConvex` | crates/mica-deploy/src/components.rs:152-169 | the versions a root requirement accepts form a convex range |
| `DebianOrder.PrefixCancels` | crates/mica-deploy/src/debian_version.rs:61-98 | what two parts start with does not matter, unless it cuts a number |
| `DebianOrder.TextDecides` | crates/mica-deploy/src/debian_version.rs:50-59 | where text differs, `~` comes first, then the end of the run, then letters, then the others, and within a class the smaller code |
| `DebianOrder.NumbersDecide` | crates/mica-deploy/src/debian_version.rs:80-96 | numbers are ordered by value, and equal ones leave it to what follows |
| `DebianOrder.EpochDecides` | crates/mica-deploy/src/debian_version.rs:100-109 | the smaller epoch is the earlier version, whatever follows |
| `DebianOrder.FirstTextDecides` | crates/mica-deploy/src/debian_version.rs:61-109 | of valid versions the first text that differs decides, in the upstream version or, with equal ones, in the revision |
| `DebianOrder.FirstNumberDecides` | crates/mica-deploy/src/debian_version.rs:61-109 | so does the first number that differs |
| `DebianOrder.AppendedText` | crates/mica-deploy/src/debian_version.rs:50-109 | a version followed by `~` and anything is earlier than the version alone, and followed by any other text it is later |
| `DebianOrder.SpelledVersionReads` | crates/mica-deploy/src/debian_version.rs:15-43 | every `[epoch:]upstream[-revision]` of at most 64 legal characters is read as those parts |
| `DebianOrder.ValidIsSpelled` | crates/mica-deploy/src/debian_version.rs:15-48 | nothing else is a version |
| `DebianOrder.BoundsAreInclusive` | crates/mica-deploy/src/components.rs:152-169 | a root requirement accepts exactly the versions from its lower to its upper bound, both included, and a root without the package |
| `Crc32.Compute` | crates/mica-deploy/src/fit_env.rs:186-195 | the byte and bit loops compute the CRC |
| `Crc32.StepDivides` | crates/mica-deploy/src/fit_env.rs:186-195 | the bit step is linear and lossless, and shifts while no bit falls out |
| `Crc32.CrcSeparates` | crates/mica-deploy/src/fit_env.rs:186-195 | inputs that differ only within four consecutive bytes have different CRCs (section 8.1.1.6.2 of ITU-T V.42) |
| `CrcRemainder.RemainderIsUnique` | crates/mica-deploy/src/fit_env.rs:186-195 | division by the generator polynomial leaves one remainder |
| `CrcRemainder.CrcIsComplementOfRemainder` | crates/mica-deploy/src/fit_env.rs:186-195 | the CRC is the complement of the remainder of the message, its first 32 bits complemented, divided by the generator polynomial (section 8.1.1.6.2 of ITU-T V.42), and of nothing else |
| `BootRecords.ParseRecords` | crates/mica-deploy/src/fit_env.rs:123-165 | the row loop reads exactly the texts the format allows |
| `BootRecords.RowReads` | crates/mica-deploy/src/fit_env.rs:133-163 | a row reads as a record exactly when it is how a valid record is written |
| `BootRecords.TextReads` | crates/mica-deploy/src/fit_env.rs:123-184 | a text reads as a list exactly when the list is valid and the text is how it is written |
| `BootRecords.RecordsAreSpelled` | crates/mica-deploy/src/fit_env.rs:112-184 | the texts that are read are exactly `v1|` and one or two rows `id,kernel,generation,tries` with a `;` between, of distinct ids and falling generations from 1 to 2^53 - 1 |
| `BootRecords.DigitBytes` | crates/mica-deploy/src/fit_env.rs:167-184 | the digits of a printed number are the bytes 48 to 57 in order |
| `BootRecords.RenderReadsBack` | crates/mica-deploy/src/fit_env.rs:167-184 | what is written is read back if and only if no id holds a separator |
| `BootRecords.InjectedRowIsAccepted` | crates/mica-deploy/src/fit_env.rs:167-184 | an id that carries separators is written and read back as another list |
| `FitEnvironment.CopyReads` | crates/mica-deploy/src/fit_env.rs:197-227 | a copy passes its CRC and reads as a list under a flag exactly when it is how that valid list is encoded |
| `FitEnvironment.EncodedCopy` | crates/mica-deploy/src/fit_env.rs:197-227 | decoding an encoding returns the records, for every flag |
| `FitEnvironment.CopyLayout` | crates/mica-deploy/src/fit_env.rs:197-207 | a copy fills 65536 bytes with the CRC of what follows the flag with its lowest byte first, the flag, `mica_entries=`, the text, and zeros |
| `FitEnvironment.DamageIsSeen` | crates/mica-deploy/src/fit_env.rs:208-210 | damage within four consecutive bytes of a copy's data fails its CRC |
| `FitEnvironment.NextFlagIsChosen` | crates/mica-deploy/src/fit_env.rs:240-259 | the flag after the active one wins in either slot, the wrap from 255 to 0 included, and an invalid copy never wins |
| `FitEnvironment.FlagsDecide` | crates/mica-deploy/src/fit_env.rs:246-253 | of two flags that differ exactly one is newer: the larger, except that 0 follows 255 |
| `FitEnvironment.LoadedExactly` | crates/mica-deploy/src/fit_env.rs:240-259 | a lone valid copy or the newer of two is loaded, and one whose records cannot be read is not replaced by the other |
| `FitEnvironment.SavedIsLoaded` | crates/mica-deploy/src/fit_env.rs:262-329 | a completed save is what the next load returns |
| `FitEnvironment.TornIsOldOrNew` | crates/mica-deploy/src/fit_env.rs:313-329 | a save cut while it writes leaves the old records or the new ones |
| `FitEnvironment.LoadsLastSave` | crates/mica-deploy/src/fit_env.rs:240-329 | over any sequence of saves, cut or not, a load returns the last completed save or one cut since |
| `FitEnvironment.RetainedAreValid` | crates/mica-deploy/src/deployments.rs:444-463 | retention keeps exactly the records to keep, in a list that can be written |
| `FitEnvironment.RetentionReachesBothCopies` | crates/mica-deploy/src/deployments.rs:444-463 | after the two saves of a retention both copies hold only the retained records |
| `FitEnvironment.Region.LoadEnvironment` | crates/mica-deploy/src/fit_env.rs:262-281 | loading reads both copies and returns the chosen one |
| `FitEnvironment.Region.SaveEnvironment` | crates/mica-deploy/src/fit_env.rs:313-329 | the active copy is never written, and however a save ends the old or the new records are loaded |
| `FitEnvironment.Region.Retain` | crates/mica-deploy/src/deployments.rs:444-463 | a retention that is saved has reached both copies |
| `Deployments.RecordsAreAListing` | crates/mica-deploy/src/deployments.rs:279-297 | boot records are at most two entries of distinct ids, the newest first |
| `Deployments.ListEntries` | crates/mica-deploy/src/deployments.rs:298-341 | a directory of entries is accepted exactly when it holds at most two of distinct ids, and is returned sorted with nothing lost |
| `Deployments.EffectiveState` | crates/mica-deploy/src/deployments.rs:223-277 | updating the state field by field gives the reconciled state |
| `Deployments.RefusedExactlyWhenLost` | crates/mica-deploy/src/deployments.rs:253-275 | pending deployments are never ambiguous: the only refusal is a current entry that is missing with no confirmed one in its place |
| `Deployments.GenerationNeverFalls` | crates/mica-deploy/src/deployments.rs:226-232 | the highest generation is never lowered and covers every entry |
| `Deployments.HighestIsSeen` | crates/mica-deploy/src/deployments.rs:226-232 | the highest generation is the stored one or that of an entry |
| `Deployments.CurrentIsNewestConfirmed` | crates/mica-deploy/src/deployments.rs:233-252 | the newest confirmed entry that has not failed becomes current |
| `Deployments.OldCurrentIsFallback` | crates/mica-deploy/src/deployments.rs:238-252 | across the crash window of an activation a usable old current becomes the fallback |
| `Deployments.FallbackExactly` | crates/mica-deploy/src/deployments.rs:233-257 | a fallback always has an entry; while the current id stays the stored fallback is kept if it has one, and otherwise the old current, or else the stored fallback, is taken if it still boots |
| `Deployments.CurrentExactly` | crates/mica-deploy/src/deployments.rs:233-252 | the first confirmed entry that has not failed is current, without one what was current stays, and with nothing current the candidate is left alone |
| `Deployments.CandidateIsPending` | crates/mica-deploy/src/deployments.rs:258-275 | the candidate is exactly the newer entry with boots left that has not failed and is not the fallback |
| `Deployments.CandidateExactly` | crates/mica-deploy/src/deployments.rs:258-275 | an entry is the candidate exactly when it is newer than the current one, has boots left, has not failed and is not the fallback |
| `Deployments.ReconcilingIsIdempotent` | crates/mica-deploy/src/deployments.rs:223-277 | reconciling twice is reconciling once |
| `Deployments.RetireFailedConfirmed` | crates/mica-deploy/src/deployments.rs:385-437 | however a retirement ends, a bootable record set stays bootable and at most that record's attempts are set to 0; it is refused exactly without a fallback |
| `Deployments.RetireAll` | crates/mica-deploy/src/deployments.rs:419-437 | any sequence of retirements, cut or not, leaves a bootable record |
| `Chunker.Chunk` | crates/mica-deploy/src/chunks.rs:72-102 | the chunks reported are those of the bytes read, however the reader splits them |
| `Chunker.ChunkBlock` | crates/mica-deploy/src/chunks.rs:84-94 | one block taken byte by byte closes exactly the chunks the specification cuts |
| `Chunker.ChunksTile` | crates/mica-deploy/src/chunks.rs:72-102 | the chunks tile the input in order, and all but the last are 4096 to 65536 bytes |
| `Chunker.ChunksFromCut` | crates/mica-deploy/src/chunks.rs:72-102 | from any cut on, the chunks are those of the rest alone |
| `Chunker.SuffixResynchronises` | crates/mica-deploy/src/chunks.rs:72-102 | inputs with an equal suffix that are both cut where it begins have the same chunks from there on |
| `Chunker.HashIsOfTheWindow` | crates/mica-deploy/src/chunks.rs:84-92 | the rolling hash of 64 bytes or more is that of the last 64 |
| `Chunker.CutIsOfTheWindow` | crates/mica-deploy/src/chunks.rs:84-93 | between the least and the largest chunk, where a chunk ends depends on the 64 bytes before alone |
| `Chunker.HashIsSum` | crates/mica-deploy/src/chunks.rs:84-87 | the rolling hash is the sum of the bytes' words, each doubled once for every byte after it |
| `Chunker.CutsExactly` | crates/mica-deploy/src/chunks.rs:27-40 | a chunk ends at 65536 bytes, or from 4096 bytes on where that sum is below 2^50, that is, has its top fourteen bits clear |
| `TransferIndex.WriteIndex` | crates/mica-deploy/src/chunks.rs:180-190 | the writing loop produces the index |
| `TransferIndex.ParseIndex` | crates/mica-deploy/src/chunks.rs:132-176 | the reading loop computes the reading that `AcceptedIsIndex` and `IndexRoundTrip` characterise |
| `TransferIndex.EntriesAreLegal` | crates/mica-deploy/src/chunks.rs:154-170 | every accepted entry has a digest and a legal length |
| `TransferIndex.IndexRoundTrip` | crates/mica-deploy/src/chunks.rs:125-190 | a written index is within its limit, and reads back if and only if it has fewer than 2^32 chunks |
| `TransferIndex.OwnIndexRoundTrip` | crates/mica-deploy/src/chunks.rs:125-190 | the index of an object's own chunks reads back for every object of at most 2^44 - 4096 bytes |
| `TransferIndex.HugeIndexIsRefused` | crates/mica-deploy/src/chunks.rs:149-184 | the index of every content of 2^48 bytes or more is refused by its own reader |
| `TransferIndex.AcceptedIsIndex` | crates/mica-deploy/src/chunks.rs:132-176 | an accepted buffer is the written index of the entries it is read as: there is no other spelling |
| `TransferIndex.IndexLayout` | crates/mica-deploy/src/chunks.rs:129-131 | where the magic, the digest, the length, the count and each entry are in an index, the highest byte of a number first |
| `Integers.BeFirst` | crates/mica-deploy/src/chunks.rs:129-131 | the numbers of an index are big-endian: the first byte counts most |
| `TransferIndex.AcceptedFits` | crates/mica-deploy/src/chunks.rs:125-152 | an index that is read is no longer than 84 bytes and 68 for each chunk of the least size |
| `DeltaAssembly.SeedMap` | crates/mica-deploy/src/chunks.rs:104-117 | the map fails exactly when a file that opens cannot be read through; otherwise every chunk of such a file is in it, and every seed names bytes of its digest |
| `DeltaAssembly.Assemble` | crates/mica-deploy/src/acquisition.rs:348-375 | assembly succeeds exactly when every piece is found with its digest, and the output is those pieces, of the index's total length |
| `DeltaAssembly.AcceptedIndexLength` | crates/mica-deploy/src/chunks.rs:154-176 | an accepted index sums to the signed length, whatever its entries |
| `DeltaAssembly.AssembledIsObject` | crates/mica-deploy/src/acquisition.rs:348-375 | pieces that match the object's own index are the object, unless one of them collides with the chunk in its place |
| `DeltaAssembly.DeltaIsObject` | crates/mica-deploy/src/acquisition.rs:322-375 | from the index as the origin wrote it: what is assembled by the entries it is read as is the object, unless a piece collides with a chunk |
| `DeltaAssembly.HeldObjectNeedsNoFetch` | crates/mica-deploy/src/acquisition.rs:351-375 | an object whose chunks are all held in the seed files is assembled without fetching, unless the seed of a chunk collides with it |
| `DeltaAssembly.PromotedIsObject` | crates/mica-deploy/src/acquisition.rs:476-488 | a partial file is promoted exactly when it is the object, if and only if it is not another text of the object's length and digest |
| `Composition.VisitDirectory` | crates/mica-deploy/src/boot.rs:87-119 | one listing is taken in any order, and is refused only for an entry that is not free or past the bound |
| `Composition.WalkLayer` | crates/mica-deploy/src/boot.rs:85-121 | the work stack reaches every entry of a component exactly once |
| `Composition.CheckComposition` | crates/mica-deploy/src/boot.rs:71-124 | a composition is accepted if and only if its components have at most 200000 entries together, hold nothing but `usr` and `etc`, and share only directories with each other and the root; a refusal names a real fault |
| `Composition.ComposedTreeIsTheUnion` | crates/mica-deploy/src/boot.rs:64-70 | the overlay of an accepted composition is the union of its layers in every order, and hides nothing of the root |
| `Composition.DisagreementIsAnOverride` | crates/mica-deploy/src/boot.rs:64-70 | layers that disagree at a path show it differently when they trade places |
| `SetTrial.TrialFile.StartTrial` | crates/mica-deploy/src/set_state.rs:160-167 | a started trial has three boots, or the write failed and the file is the old or the new one |
| `SetTrial.TrialFile.SpendAttempt` | crates/mica-deploy/src/set_state.rs:184-198 | a set is tried only on its own trial with a boot left, once the spent count is durable |
| `SetTrial.TrialFile.TrialIsOver` | crates/mica-deploy/src/set_state.rs:203-206 | a trial is over exactly when it does not allow this set a boot |
| `SetTrial.TrialFile.Compose` | crates/mica-deploy/src/core_set.rs:179-288 | the set composed and the trial left follow the order pair, bound, trial, current |
| `SetTrial.OverIsRefused` | crates/mica-deploy/src/set_state.rs:184-206 | a trial is over exactly when a boot would be refused given a working write |
| `SetTrial.CurrentStandsIn` | crates/mica-deploy/src/core_set.rs:258-288 | a trial never costs the device its current set |
| `SetTrial.ComposedExactly` | crates/mica-deploy/src/core_set.rs:231-288 | which set a boot composes: the pending one for the deployment it is paired with, the one bound to the deployment, the pending one on its trial, or the current one, each only if it is usable |
| `SetTrial.SpentExactly` | crates/mica-deploy/src/set_state.rs:184-198 | a boot takes one off the trial exactly when the pending set is its own to try and the count is written |
| `SetTrial.BootsArePaidFor` | crates/mica-deploy/src/set_state.rs:184-198 | every boot on trial takes one off the boots left |
| `SetTrial.TrialsAreBounded` | crates/mica-deploy/src/set_state.rs:160-206 | between two starts of a trial at most three boots compose an unpaired pending set, whatever is cut or fails |
| `SetTrial.ThreeBootsAreGiven` | crates/mica-deploy/src/set_state.rs:160-198 | of boots that could each try a set whose trial was started, the first three do and no other does |
| `DmTable.PutStringReadsBack` | crates/lifecycle-sys/src/dm.rs:75-92 | exactly the graphic texts that fit are put, and they are read back |
| `DmTable.StringReads` | crates/lifecycle-sys/src/dm.rs:86-92 | a field reads as a text exactly when it starts with that graphic text and a NUL |
| `DmTable.StatusIsChecked` | crates/lifecycle-sys/src/dm.rs:129-166 | a reply is accepted if and only if it is of an active read-only device with exactly the flags asked for, its sizes and counts are legal, and its texts are the ones its fields hold |
| `DmTable.ReadRecord` | crates/lifecycle-sys/src/dm.rs:182-229 | a record is read as the one target its bytes can be of, and refused when they are of none |
| `DmTable.ReadRecords` | crates/lifecycle-sys/src/dm.rs:178-231 | following the offsets reads the one list the records spell |
| `DmTable.ParseTable` | crates/lifecycle-sys/src/dm.rs:167-232 | a table reply is read as the targets it says, and refused exactly when it says none |
| `DmTable.TargetsTile` | crates/lifecycle-sys/src/dm.rs:167-232 | accepted targets are as many as expected and tile the sectors from 0 without gap or overflow |
| `DmTable.KernelTableReads` | crates/lifecycle-sys/src/dm/tests.rs:24-38 | every table the kernel can write in the capacity is read back exactly, whatever its padding holds |
| `DmTable.ImageIsWritten` | crates/lifecycle-sys/src/dm/tests.rs:24-38 | every contiguous target list has such a table |
| `LinkedRecords.SpelledIsUnique` | crates/lifecycle-sys/src/dm.rs:178-231 | records linked by offsets spell at most one list |
| `LoginGuard.BackoffCurve` | crates/mica-apid/src/auth.rs:27-34 | the first failure costs one second, and the backoff doubles up to 300 seconds and stays there |
| `LoginGuard.WindowIsExact` | crates/mica-apid/src/auth.rs:81-118 | an admitted attempt counts one failure and shuts the gate for exactly what the run has then earned |
| `LoginGuard.LateWindowIsExact` | crates/mica-apid/src/auth.rs:97-99 | a late outcome counts none and shuts it for exactly that from then on |
| `LoginGuard.LockoutEnds` | crates/mica-apid/src/auth.rs:50-57 | in every run whoever waits 300 seconds is admitted |
| `LoginGuard.Login.BeginAttempt` | crates/mica-apid/src/auth.rs:81-87 | an admitted attempt closes the gate for at least a second, before any outcome |
| `LoginGuard.Login.Check` | crates/mica-apid/src/auth.rs:103-112 | an elapsed window is cleared and the failures behind it are kept |
| `LoginGuard.Login.ConfirmFailure` | crates/mica-apid/src/auth.rs:97-99 | a late outcome moves the window and counts nothing |
| `LoginGuard.Login.RecordSuccess` | crates/mica-apid/src/auth.rs:121-124 | a success ends the run |
| `LoginGuard.StepKeepsCharged` | crates/mica-apid/src/auth.rs:81-118 | every attempt, late outcome and look keeps the gate shut for all that was charged |
| `LoginGuard.AdmissionsAreSpaced` | crates/mica-apid/src/auth.rs:81-118 | in every run without a success admitted attempts are as far apart as the backoffs between them, in any interleaving |
| `LoginGuard.DayIsBounded` | crates/mica-apid/src/auth.rs:45-50 | any 86400 seconds admit at most 296 attempts |

## Left out

- ioctls, mounts, loop and UBI devices, TLS, HTTP routes, D-Bus proxies, the web console and the CLIs: effects on systems outside the model.
- SHA-256, HMAC, Ed25519, Argon2 and randomness: the digest is an abstract function, and collisions are named where they matter.
- JSON and TOML text, canonical JSON and URL parsing: the model works on parsed values.
- The settings model and its split into documents: a field-by-field copy.
- `kind_of`, timestamps, outcomes and messages of tasks: they do not influence the queue.
- Persistence of the login guard across restarts: `LoginGuard` models one process.
- Removing boot entries of a UEFI board and renaming them in `set_tries`: only the FIT form of retirement and retention is modelled in place.
- The UBI volume forms of the boot environment: they save and load the same copies by another route.
- Verification of a set's signature, `select`, and the component files' lengths: `SetTrial` takes the set of usable ids as given.
- Generations and ids are unbounded: a 64-bit counter that wraps is not modelled.
- Equality of the registry's list with micad's snapshot: the two evict by different rules.
- Network rules, feature parsing, authorized keys, tokens and the zip bundle: per-field validation.
- Composition.ComposedTreeIsTheUnion: an overlay directory marked opaque hides what lies below it; the check does not look for the mark and the model has none.
- UndoJournal.Recover: its promise needs that no directory sync failed since the last restart (`Settled`), because the code skips documents that read as before; `DurableRecovery` gives the exact condition.
- StoreWrites.ProjectWrites: the order in which the writes are sorted is not modelled, as a save does not depend on it.
- SettingsPath.SettingsTree.Set: the walk by mutable reference is a recursive rebuild of the tree, so aliasing inside the walk is not captured.
- SetTrial.TrialFile.SpendAttempt: a trial file that cannot be read for one boot only is not an event of the runs; it is a boot that tries nothing and changes nothing.
- Deployments.RetireFailedConfirmed: the UEFI form, a rename of the entry's file and a directory sync, is not modelled; the format check of the id before the lookup is not modelled, as no record holds an id that fails it.
