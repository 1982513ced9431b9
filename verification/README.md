# A verified model of the Telegram video downloader's stateful core

This project models, in Dafny, the parts of the downloader whose correctness is a statement about
long runs rather than about one call, and proves those statements. `dafny verify dfyconfig.toml`
checks everything.

**Crash-safe authentication** (`EpochSlots`, `EpochLog`, `EpochFile`, `EpochPlacement`, `EpochLock`,
`LockIdentity`, `LockAcquisition`, `AuthTransactions`, `AuthTransactionRuns`, `AuthStore`). A lock
file records a 64-bit epoch, as a legacy log of decimal lines or in two 64-byte slots written alternately. The file is a
sequence of bytes; a bump that dies leaves any prefix of the new slot over the old bytes, and a
retried bump writes the same slot again. `EpochPlacement.PlacedExactly` is the main result about the
file: among the files that pass the format check it says exactly which ones survive every run of
bumps that die anywhere. One look at the slots and the log decides it: the current epoch does not
stand in the slot to be written next, and neither slot holds an image that a torn write would bring
up again. `LockIdentity` is a state machine of processes that acquire the lock in eleven steps while
outsiders unlink and replace its two names and devices are remounted. Most steps are one look at, or
one change of, the file system; three join calls that the code makes in a row: opening the names
with creating the lock, the last check of the candidate with relinking it, and loading the owner
record with creating it. `AuthTransactions` is a state machine of transactions and logouts, each
step of which may be the last of its process. It takes mutual exclusion as given, as one field that
says who holds the lock; `LockIdentity.OneLockForever` is what justifies that. `EpochLock` and
`AuthStore` are the operations in imperative form.

**Byte budgets for cloud snapshots** (`Json`, `JsonText`, `SnapshotRecords`, `CompactResults`,
`OperationBudget`, `Receipts`, `PreviewBudget`, `MigrationSummaries`). JSON values are a datatype with
an exact size function, proved to be the length of the compact text, with the string escapes of
section 7 of RFC 8259. The code keeps a running total; the specification measures the whole array
again at every step, and the methods are proved to compute the same array.

**Attempts** (`Attempt`, `AttemptReports`, `AttemptProgress`, `AttemptReconcile`, `AttemptHistory`,
`AttemptSnapshot`, `AttemptSummary`, `AttemptHeader`). `Attempt.Step` is the effect of every public operation of an attempt; the class
`MutableSnapshot` carries the operations out field by field. Invariants hold over every sequence of
operations from a new attempt, and what an entry keeps is followed through every new inventory.

**Planning** (`Planning`). The two-slot scheduler picks an arbitrary task in flight at every
completion, so its contract holds for every completion order; the log of starts, ends, reports and
drains is part of its result.

**Service readiness and process roots** (`ReadinessScanner`, `ReadinessStreams`, `ProcessRoots`). The
chunked scanner is proved against a declarative reading of the whole log; a check joins several log
paths, some of which may name the same object. The ancestor walk terminates on every inventory.

**Legacy arguments** (`LegacyArgs`, `LegacyGrammar`). One validator and two later readers of the same
list agree, although the readers do not know which strings are values; the grammar says which options
exist, and everything that can be written in it is accepted and understood.

`Bytes` holds what several modules share.

Where the code and its descriptions differ, the model follows the code:

- A legacy log none of whose records is complete is rejected by the format check, although it reads
  as epoch 0; `EpochFile.PartialLogAccepted` gives the exact condition.
- A lock file with a slot at the wrong parity passes the format check, but a torn bump can reset its
  epoch; `EpochPlacement.MisplacedSlotResets` gives such a file and `EpochPlacement.PlacedExactly`
  the exact condition.
- Operation snapshots can fail when scan receipts are present, because those copy their revision
  unbounded; `OperationBudget.HugeScanFails` gives such a record, and `OperationBudget.OperationSnapshots`
  the exact condition for failing.
- Two downloaders that are each other's parent have no root and cause no error;
  `ProcessRoots.MutualParentsHaveNoRoot` shows it and `ProcessRoots.CoveredExactly` says when a
  downloader is covered.
- A recovery clears the intent although it only cleans the recovering process's own state path, and
  nothing at all when the directory of that path is missing: the legacy files of the process that died
  may stay (`AuthStore.CredentialStore.RecoverPendingLogout`).
- A logout intent that belongs to another lock device makes every transaction fail and changes
  nothing (`AuthStore.CredentialStore.RecoverPendingLogout`).

## Model

| member | source | states |
|---|---|---|
| EpochSlots.DecodeEncode | src/bilibili_auth.rs:886-917 | the slot image of every u64 epoch decodes to that epoch |
| EpochSlots.DecodeIsCanonical | src/bilibili_auth.rs:899-917 | 64 bytes decode to an epoch only if they are exactly that epoch's image: halves, magic, complement and checksum |
| EpochSlots.EncodeInjective | src/bilibili_auth.rs:886-897 | different epochs have different slot images |
| EpochPlacement.TornExactly | src/bilibili_auth.rs:866-917 | exactly when a write torn at some byte can leave another epoch than the one written in a slot: its image is there already, up to bytes it shares with the new one |
| EpochLog.ParseDecimal | src/bilibili_auth.rs:919-962 | the decimal line of every u64 parses back to it |
| EpochLog.LogTextParses | src/bilibili_auth.rs:919-962 | the log "1" to "n", one number a line, reads as epoch n |
| EpochLog.LogPadded | src/bilibili_auth.rs:919-962 | zero padding after the log changes neither the epoch read nor the length of its complete records |
| EpochLog.PartialLogReads | src/bilibili_auth.rs:919-962 | a log of n records with any part of the next record and zero padding reads as n |
| EpochPlacement.PlacedExactly | src/bilibili_auth.rs:774-1026 | a file that passes the format check survives every run of torn, retried and completed bumps exactly when it is placed; placed is decided by its two slots and its log |
| EpochPlacement.BumpRunIsCrashSafe | src/bilibili_auth.rs:774-1026 | after any run of bumps from a placed file, each torn anywhere and retried any number of times, the file is well formed and readable, its epoch has reached every completed bump, and the next attempt raises it by at most one |
| EpochPlacement.AttemptKeeps | src/bilibili_auth.rs:774-801 | one attempt on a placed file, stopped anywhere, leaves it placed and well formed with the recorded epoch, or with its successor once the whole slot is written |
| EpochPlacement.RunMonotone | src/bilibili_auth.rs:774-801 | no attempt ever lowers the epoch of a placed file |
| EpochPlacement.LogIsPlaced | src/bilibili_auth.rs:964-1043 | every file without slots that passes the format check is placed: the header alone, or a legacy log with or without it |
| EpochPlacement.OrderlyIsPlaced | src/bilibili_auth.rs:827-884 | so is every file whose current epoch stands at its own parity while the other slot is blank, one epoch older, or either of these under a torn write |
| EpochPlacement.MisplacedSlotResets | src/bilibili_auth.rs:998-1025 | a file with epoch 5 in the slot of the even epochs passes the format check and reads 5, and one bump torn at byte 9 resets it to 0 |
| EpochFile.HeaderIsBase | src/bilibili_auth.rs:1028-1043 | a freshly initialised lock file is a file such runs may start from, at epoch 0 |
| EpochFile.PartialLogAccepted | src/bilibili_auth.rs:998-1025 | a legacy log with a torn next record passes the format check exactly when at least one record is complete |
| EpochFile.FormatValidBase | src/bilibili_auth.rs:964-1026 | a file without slots passes the format check exactly when a run of bumps may start from it |
| EpochLock.AuthLockFile.ReadEpochSlots | src/bilibili_auth.rs:827-864 | returns the decodable slots of the file, ascending and without duplicates |
| EpochLock.AuthLockFile.ReadEpochLog | src/bilibili_auth.rs:919-962 | returns the epoch of the log and the length of its complete records, or fails on a record that does not follow |
| EpochLock.AuthLockFile.CurrentEpoch | src/bilibili_auth.rs:812-825 | reads the slots, else the log; fails when the slots are more than one epoch apart |
| EpochLock.AuthLockFile.WriteEpochSlot | src/bilibili_auth.rs:866-884 | a completed slot write is the torn write of all 64 bytes |
| EpochLock.AuthLockFile.BumpEpoch | src/bilibili_auth.rs:774-801 | on every placed file below the maximum it succeeds with the successor, which reads back; it fails on an unreadable or exhausted file |
| LockIdentity.RunInv | src/bilibili_auth.rs:1507-1574 | over every run: names and phases refer to existing inodes, file locks exclude, and nobody bumps before the owner record exists or on another inode than the owner's |
| LockIdentity.RunOwnerFixed | src/bilibili_auth.rs:2181-2205 | the inode in the owner record never changes and the history of bumps is only appended to |
| LockIdentity.OneLockForever | src/bilibili_auth.rs:1507-1574 | any two completed acquisitions of a run, by any processes, hold the same inode; two at the same time are one |
| LockAcquisition.OwnedLockIsAcquired | src/bilibili_auth.rs:2386-2463 | with the owner record present, one or both names left on the recorded inode, no other name, a well-formed file and the lock free, a process left alone holds the recorded inode after eleven steps; the missing name is restored, the record names the present device, and nothing else has changed |
| LockAcquisition.FirstLockIsAcquired | src/bilibili_auth.rs:2386-2463 | without names and record, a process left alone creates the lock with its header, both names and the record in eleven steps and holds it |
| LockAcquisition.NamedLockIsAcquired | src/bilibili_auth.rs:2386-2463 | a lock with names but no record, of an older installation or of a first acquisition that died, is completed in eleven steps; the bytes found become the record's origin and do not change |
| LockAcquisition.AlwaysAcquirable | src/bilibili_auth.rs:1507-1574 | after any interleaving of acquisitions, bumps, releases and deaths, across remounts, with nobody else touching the names: once nobody holds the lock, an idle process left alone acquires it in eleven steps, and it is the same lock with the same bytes |
| LockAcquisition.AloneDecides | src/bilibili_auth.rs:1507-1574 | a process left alone succeeds exactly when it finds neither lock nor record, or a sound lock that is the recorded one if there is a record; otherwise it gives up having changed no name, no byte and no record |
| LockAcquisition.ForeignLockUntouched | src/bilibili_auth.rs:1548-1556 | in any run, once the record exists and no process that began before it is under way, an acquisition step never gives a name to another inode than the recorded one, never takes a name away and never creates a lock, whatever outsiders do |
| LockAcquisition.AcquiredBumps | src/bilibili_auth.rs:774-801 | who has acquired a placed lock can bump it: the epoch rises by one, every other file stays, and the lock stays held |
| LockIdentity.AcquireRestoresBothNames | src/bilibili_auth.rs:2386-2463 | in any interleaving an acquisition completes only with both names on the locked inode, no third name and the owner record naming it; with the record present and both names lost it fails |
| LockIdentity.EpochNeverReset | src/bilibili_auth.rs:1507-1574 | whatever happens to the names, the epoch of a lock stays readable and never goes down if its file was placed when the owner record was created; no other file would do, by EpochPlacement.PlacedExactly |
| LockIdentity.LostForever | src/bilibili_auth.rs:2274-2288 | once the owned inode has lost all its names no acquisition completes and nothing is bumped ever again |
| AuthTransactions.RunInv | src/bilibili_auth.rs:2056-2089 | in every interleaving with crashes the lock file records exactly the bumps made, and every phase has what it relies on |
| AuthTransactions.EpochCounts | src/bilibili_auth.rs:756-772 | in every reachable state the epoch read is the start plus all bumps so far |
| AuthTransactions.StaleLoginsLose | src/bilibili_auth.rs:2042-2089 | an operation that expects an epoch read earlier runs only if the only bump since then is its own |
| AuthTransactions.ExpectedEpochsRunOnce | src/bilibili_auth.rs:2042-2089 | at most one operation ever runs for an expected epoch, even when operations or processes fail after the bump |
| AuthTransactions.RunProgress | src/bilibili_auth.rs:1344-1456 | from the durable intent until the next operation runs, every state is one a logout or a recovery of it can reach, whatever crashed |
| AuthTransactions.LogoutIsAtomic | src/bilibili_auth.rs:2918-2945 | the next operation that runs after a durable intent starts with the recorded profile, the legacy files and the intent gone and all other profiles unchanged, though the default profile was switched meanwhile |
| AuthTransactions.DeadLogoutIsRecovered | src/bilibili_auth.rs:1344-1377 | such runs exist: from every placed lock file with room for three bumps a logout that dies right after its intent is durable is finished by the next transaction |
| AuthTransactionRuns.TransactionAlone | src/bilibili_auth.rs:2056-2089 | after any run, a transaction left alone starts its operation exactly when no epoch is expected or the one it will find, with one bump for a recovery or cleanup and one for itself, an interrupted logout finished and nothing else changed; an intent of another device makes it fail without a change |
| AuthTransactionRuns.CurrentLoginRuns | src/bilibili_auth.rs:2042-2089 | a login that nobody overtook runs: its expected epoch is the one read |
| AuthTransactionRuns.LogoutAlone | src/bilibili_auth.rs:2918-2945 | a logout left alone removes the selected profile, or the default one, and the legacy files, and nothing else |
| AuthTransactionRuns.SelectedLogoutIsAtomic | src/bilibili_auth.rs:2918-2945 | whatever dies once it is durable, the next operation finds exactly the profile that was asked for gone, or the one that was the default at that moment |
| AuthStore.CredentialStore.DeleteLegacyState | src/bilibili_auth.rs:2696-2729 | removes exactly the legacy files the process does not have in use, none when the directory of its state path is missing, and says whether it removed one |
| AuthStore.CredentialStore.RecoverPendingLogout | src/bilibili_auth.rs:1344-1377 | finishes a recorded logout, with the legacy files of the recovering process's own path; an intent of another lock device, or an unreadable epoch, fails and changes nothing |
| AuthStore.CredentialStore.BeginTransaction | src/bilibili_auth.rs:2056-2089 | recovers, compares the expected epoch and bumps durably, in that order; from every placed lock file with two epochs to spare it succeeds exactly when no epoch is expected or the current one of this device is, where recovery or cleanup raises the current one by one first; the epoch left on the lock, credentials and intent are given exactly on success and on failure |
| AuthStore.CredentialStore.Logout | src/bilibili_auth.rs:2918-2945 | removes the selected or default profile and the removable legacy files and leaves no intent and every other profile; when its transaction fails nothing is removed but what a recorded logout still had to remove, and from a placed lock file with two epochs to spare it fails exactly on an intent of another device |
| Json.CountWrites | src/cloud_snapshot_budget.rs:984-1018 | the limited counter returns the size exactly when it is within the limit, however the serialization is cut into writes |
| Json.ArraySizeWithin | src/cloud_snapshot_budget.rs:990-1003 | the array's exact size when it is within the limit, nothing otherwise; an empty array is always measured |
| Json.ArrayUpdate | src/cloud_snapshot_budget.rs:100-110 | replacing one element changes the exact array size by the difference of the elements' sizes |
| Json.TextSizeBound | src/cloud_snapshot_budget.rs:19-20 | escaping takes at most six bytes for each input byte and at least one for each character |
| JsonText.SizeIsTextSize | src/cloud_snapshot_budget.rs:984-1008 | the size of a value is the number of UTF-8 bytes of its compact JSON text, escapes, separators and numbers included |
| Json.BoundedStringSpec | src/cloud_snapshot_budget.rs:945-968 | the bounded string is the input or a whole-character prefix with an ellipsis, within the limit; it exists exactly when the input fits or the limit is at least 5; bounding again changes nothing |
| SnapshotRecords.CompactSummarySize | src/cloud_snapshot_budget.rs:745-788 | a compact summary of any result is at most 2 KiB |
| CompactResults.SummaryTakesAll | src/cloud_snapshot_budget.rs:745-788 | a compact summary drops nothing for lack of space: its seven fields always fit together, each within its own limit |
| CompactResults.SummaryShowsResult | src/cloud_snapshot_budget.rs:745-830 | it shows the result's own preview id, revision, library, root, status, error and scan time unchanged wherever they are scalars of an allowed size |
| SnapshotRecords.ReceiptBinding | src/cloud_snapshot_budget.rs:679-688 | a receipt names a library and root exactly for a file preview whose request, or else whose result, names valid ones, and names those |
| SnapshotRecords.ReceiptRecovery | src/cloud_snapshot_budget.rs:689-691 | a receipt repeats what a metadata recovery was asked for exactly when library, root and scope are valid |
| SnapshotRecords.OperationSnapshotSize | src/cloud_snapshot_budget.rs:654-711 | a receipt takes at most a fixed number of bytes beside its result, for every record |
| SnapshotRecords.CompactReceiptSize | src/cloud_snapshot_budget.rs:654-711 | the compact receipt of any record but a scan is at most 10,000 bytes |
| OperationBudget.SortBySeqSorts | src/cloud_snapshot_budget.rs:41 | the insertion order used by the model is a sort: ordered, and no record lost or added |
| OperationBudget.SelectedSpec | src/cloud_snapshot_budget.rs:36-44 | the selected receipts are the newest 100 managed ones, in sequence order |
| OperationBudget.NewestFittingSpec | src/cloud_snapshot_budget.rs:53-80 | the reserved receipt is the newest prioritized one whose full form fits |
| OperationBudget.RestoreFullOperationIfFits | src/cloud_snapshot_budget.rs:93-114 | upgrades exactly when the whole array then fits 2 MiB, and the new running total is the true array size |
| OperationBudget.ReserveNewest | src/cloud_snapshot_budget.rs:53-80 | the reverse loop reserves exactly the newest fitting prioritized receipt and keeps the total true |
| OperationBudget.RestoreOthers | src/cloud_snapshot_budget.rs:82-88 | the remaining loop upgrades newest first and never touches the reserved receipts |
| OperationBudget.OperationSnapshots | src/cloud_snapshot_budget.rs:35-91 | fails exactly when the compact forms together exceed 2 MiB, and otherwise returns the allocation of the specification, which measures the whole array at each step |
| OperationBudget.AllocateKeeps | src/cloud_snapshot_budget.rs:46-91 | the result is within 2 MiB, entry i is a form of record i, and both reserved receipts are full |
| OperationBudget.UpgradedExactly | src/cloud_snapshot_budget.rs:53-91 | nothing is withheld that fits: a receipt is full exactly when it is reserved, or when the array with it in full, what is published above it and the unupgraded forms below it is within 2 MiB |
| OperationBudget.PublishedReceipts | src/cloud_snapshot_budget.rs:654-711 | the marks of every published receipt are true, whatever the budget did: an unmarked result is the record's exact result, a marked one its summary, and kind and error are exact exactly when unmarked |
| OperationBudget.CompactFormsFit | src/cloud_snapshot_budget.rs:46-51 | without scan receipts the compact forms always fit, so publishing never fails |
| OperationBudget.NewestRecoveryIsFull | src/cloud_snapshot_budget.rs:53-67 | without scan receipts the newest usable completed recovery result is always published in full |
| OperationBudget.NewestImportIsFull | src/cloud_snapshot_budget.rs:69-80 | the newest usable completed import whose full receipt fits beside the reserved recovery is published in full |
| OperationBudget.HugeScanFails | src/cloud_snapshot_budget.rs:713-722 | one scan record with a huge revision makes publishing fail: scan receipts are not bounded |
| Receipts.CompactOperationReceipts | src/cloud_snapshot_budget.rs:183-247 | rewrites the array in place to its compaction and returns true exactly when something changed |
| Receipts.CompactReceiptKeepsIdentity | src/cloud_snapshot_budget.rs:213-244 | compaction keeps every field but the kind, the error, the result and their marks; a kept result stays, any other is at most 2 KiB |
| Receipts.ReceiptTextsBounded | src/cloud_snapshot_budget.rs:724-743 | after compaction kind and error are within their limits, unchanged if they were before and marked if they were not |
| Receipts.CompactReceiptIdempotent | src/cloud_snapshot_budget.rs:213-244 | compacting a receipt twice is compacting it once |
| Receipts.UsableAfter | src/cloud_snapshot_budget.rs:184-211 | compaction makes no receipt usable and keeps a kept usable one usable |
| Receipts.LatestSpec | src/cloud_snapshot_budget.rs:184-211 | the latest receipt is usable, of the greatest sequence number, and the last among equals |
| Receipts.LatestKept | src/cloud_snapshot_budget.rs:184-211 | compaction does not change which recovery and which import are the latest |
| Receipts.CompactionIsIdempotent | src/cloud_snapshot_budget.rs:183-247 | a second compaction of any array changes nothing |
| PreviewBudget.ActiveSpec | src/cloud_snapshot_budget.rs:265-293 | the active previews are awaiting and publishable, in sequence order, and what is left out is no newer |
| PreviewBudget.SummaryKeepsIdentity | src/cloud_snapshot_budget.rs:454-609 | a migration summary carries the record's sequence number and kind and exactly the plan's own id and revision |
| PreviewBudget.SummaryCountsAddUp | src/cloud_snapshot_budget.rs:454-609 | the samples shown plus the omitted count are all items of the plan |
| PreviewBudget.FallbackSize | src/cloud_snapshot_budget.rs:301-375 | every fallback, summary or placeholder, is at most 12 KiB |
| PreviewBudget.FallbacksFit | src/cloud_snapshot_budget.rs:385-386 | fallbacks and marker always fit 3 MiB, so measuring them never fails |
| PreviewBudget.DetailsInsideCandidate | src/cloud_snapshot_budget.rs:404-408 | details that exceed the remaining budget mean that the whole preview does, so the early exit loses nothing |
| PreviewBudget.UpgradeIfFits | src/cloud_snapshot_budget.rs:388-450 | one iteration upgrades exactly when the whole array then fits 3 MiB and keeps the running total the true size |
| PreviewBudget.PreviewSnapshots | src/cloud_snapshot_budget.rs:261-452 | for every input it returns the published array of the specification, at most 3 MiB |
| PreviewBudget.PublishedPreviews | src/cloud_snapshot_budget.rs:290-384 | entry i is a form of preview i, a marker follows exactly when something was left out, and published previews plus its count are all awaiting previews plus the caller's count |
| PreviewBudget.PublishedIdentity | src/cloud_snapshot_budget.rs:298-428 | whichever form the budget left it with, every published preview carries its own record's sequence number, kind, status, preview id and revision |
| PreviewBudget.FullExactly | src/cloud_snapshot_budget.rs:388-450 | nothing is withheld that fits: a preview is published in full, with its details unchanged, exactly when it has details and the array with it in full, what is published above it with the marker, and the fallbacks below it is within 3 MiB; otherwise its fallback is |
| PreviewBudget.DetailsExactly | src/cloud_snapshot_budget.rs:388-400 | a migration has details exactly when it has a result, a file preview exactly when its result has a preview |
| PreviewBudget.MarkedExactly | src/cloud_snapshot_budget.rs:301-420 | a published preview is marked as incomplete or as a summary exactly when it is not the full one |
| PreviewBudget.PublishedBinding | src/cloud_snapshot_budget.rs:325-428 | every published file preview carries the library and root its result names |
| MigrationSummaries.SummaryExactly | src/cloud_snapshot_budget.rs:454-609 | a migration is summarised exactly when its plan is complete: identity, libraries, options and counters are there and its first items are not broken; the size check never rejects, however many items there are |
| MigrationSummaries.SamplesAreItems | src/cloud_snapshot_budget.rs:517-570 | the samples are the plan's first items, in order, each with its own bytes, conflict, status and outcome and its texts whole or cut to a prefix |
| Attempt.RunInv | src/bilibili_attempt.rs:186-620 | over every sequence of operations: no entry downloads under an outcome; an independent attempt is Verified only if all entries are and Failed only if none is; receipts and already-present marks imply Verified; the skipped count is exact |
| Attempt.OutcomeFreezesEntries | src/bilibili_attempt.rs:186-365 | once the outcome is set, reports about entries change nothing |
| AttemptHistory.OutcomeOnlyRises | src/bilibili_attempt.rs:545-619 | over every run without a resume, a retry or a new inventory the outcome stays with everything else, or its rank has strictly risen |
| AttemptHistory.RunKeepsHistory | src/bilibili_attempt.rs:186-530 | over every run, new inventories included: an entry followed back by identity keeps its id, its attempts never decrease, its redownload mark is gone only if a download of it was verified on the way, and a mark it carries was there or was asked for |
| AttemptHistory.AncestorsDiffer | src/bilibili_attempt.rs:449-530 | over every run two entries never continue the same one |
| AttemptReports.VerifiedForGood | src/bilibili_attempt.rs:186-365 | after any stream of reports an entry is verified exactly when it was before or one of them said so |
| AttemptReports.PresenceIsLast | src/bilibili_attempt.rs:302-365 | the last verifying report alone decides whether an entry counts as already present |
| AttemptReports.ReceiptsAreLast | src/bilibili_attempt.rs:319-365 | a verified entry carries the receipts of the last report that had any |
| AttemptReports.RedownloadSurvives | src/bilibili_attempt.rs:186-365 | a redownload mark is gone exactly when some report verified a download of the entry |
| AttemptReports.DownloadedSticks | src/bilibili_attempt.rs:186-300 | a downloaded entry is moved only by a verification, a retry or a failure that names its error |
| AttemptProgress.DownloadedExactly | src/bilibili_attempt.rs:186-300 | after any stream of reports an entry never verified is downloaded exactly when it was or some completion came, with no retry and no failure naming an error since |
| AttemptProgress.StateIsLast | src/bilibili_attempt.rs:186-300 | without a download the last start, failure or retry decides whether it is failed or downloading |
| AttemptProgress.StateUnmoved | src/bilibili_attempt.rs:186-225 | without any of these it stays as it was, except that a stage begins a waiting one |
| AttemptProgress.ErrorIsLast | src/bilibili_attempt.rs:227-300 | its error is that of the last report that names one, and gone after a completion since |
| AttemptProgress.ErrorUntouched | src/bilibili_attempt.rs:186-300 | without such a report the error is the old one |
| AttemptProgress.AttemptsAreGreatest | src/bilibili_attempt.rs:186-300 | its attempts are the greatest of what it had, what retries and failures say, and one for a start or failure without a download |
| AttemptProgress.StageIsLast | src/bilibili_attempt.rs:186-300 | its stage is the one of the last report that set it |
| AttemptProgress.VerifiedEntry | src/bilibili_attempt.rs:302-365 | from its first verification on an entry has no stage and no error, and at least one attempt if a download was verified |
| AttemptProgress.VerifiedUntouched | src/bilibili_attempt.rs:186-365 | an entry verified before stays exactly as it was until it is verified again |
| AttemptReports.RunIsReports | src/bilibili_attempt.rs:45-72 | in an open attempt every entry sees exactly the reports about its index, in order |
| AttemptReports.FinishAfterReports | src/bilibili_attempt.rs:545-619 | an open independent attempt that gets any reports and is finished ends Verified exactly when that was requested and every entry was verified, Failed exactly when success of a non-empty attempt or failure was requested and no entry was, and leaves nothing downloading |
| AttemptReports.RetryThenFinish | src/bilibili_attempt.rs:377-415 | the same for a resumed attempt, retried in whole or for its failed entries: what was verified in earlier sessions counts |
| AttemptReports.EpisodeRetryThenFinish | src/bilibili_attempt.rs:418-443 | the same when one episode is retried: the other entries count as they stand |
| AttemptReports.SessionsAccumulate | src/bilibili_attempt.rs:377-619 | over any number of sessions an entry is verified in the end exactly when it was at the start or some session verified it, and the last session succeeds exactly when all entries are |
| AttemptReconcile.MatchedByIdentity | src/bilibili_attempt.rs:449-530 | the k-th new entry of a non-empty id takes its history from the k-th old entry of that id, and has one exactly when that exists |
| AttemptReconcile.MatchedOnce | src/bilibili_attempt.rs:449-530 | no old entry is used twice |
| AttemptReconcile.ScopeFollowsIdentity | src/bilibili_attempt.rs:449-530 | with distinct new indices the retry scope denotes exactly the old scope's ids that are still present |
| AttemptSnapshot.MutableSnapshot.ApplyUpdate | src/bilibili_attempt.rs:186-333 | a report changes the fields as the step function says, and nothing else |
| AttemptSnapshot.MutableSnapshot.EntryAlreadyPresent | src/bilibili_attempt.rs:335-365 | verifying and then restoring attempts and mark is the already-present step |
| AttemptSnapshot.MutableSnapshot.PrepareForResume | src/bilibili_attempt.rs:377-415 | resets what a resume resets and sets the failed-only scope |
| AttemptSnapshot.MutableSnapshot.PrepareForEpisodeRetry | src/bilibili_attempt.rs:418-443 | resets one retryable entry, or returns false and changes nothing |
| AttemptSnapshot.MutableSnapshot.ReconcileInventory | src/bilibili_attempt.rs:449-530 | queueing old entries by id and taking from the queues is the reconcile step |
| AttemptSnapshot.MutableSnapshot.FinishWith | src/bilibili_attempt.rs:545-619 | the loop over the entries is the finish step |
| AttemptSnapshot.MatchInventory | src/bilibili_attempt.rs:449-530 | handing out queue fronts computes the matching by identity and rank |
| AttemptSummary.SummaryAddsUp | src/bilibili_attempt.rs:635-665 | after every run completed, already present and remaining make the total, and the six states partition it |
| AttemptHeader.HeaderShows | src/bilibili_attempt.rs:635-692 | every number in the header is the number of entries in the states its label names |
| AttemptSummary.CompactRanges | src/bilibili_attempt.rs:771-801 | the ranges denote exactly the index set and are ascending, disjoint and maximal, the greatest u32 included |
| AttemptSummary.TruncateTextBound | src/bilibili_attempt.rs:826-835 | a truncated text is within its limit |
| AttemptSummary.AppendBoundedKeeps | src/bilibili_attempt.rs:837-855 | appending never passes 1,800 bytes, never changes what is there, and appends whole what fits |
| AttemptSummary.RangesOfState | src/bilibili_attempt.rs:694-724 | the ranges shown and the omitted ones are all ranges of the entries in that state, ascending, disjoint and maximal, and contain an index exactly when such an entry has it |
| AttemptSummary.Summarize | src/bilibili_attempt.rs:635-748 | the loops build the header, then for failed and for interrupted entries the section of ranges and the first detail lines |
| AttemptSummary.FirstSectionIsWhole | src/bilibili_attempt.rs:694-724 | the first section is never cut: it stands in full behind the header |
| AttemptSummary.SummaryIsBounded | src/bilibili_attempt.rs:635-748 | a summary is at most 1,800 bytes and starts with its whole header, whatever the titles, stages and errors |
| Planning.ScheduleBounded | src/bilibili_planning.rs:331-397 | for every completion order: at most two tasks in flight, started in input order, progress 1 to n, one result per task in input order on success; a failure starts and reports nothing more and returns with nothing in flight |
| Planning.PartitionExistingEpisodes | src/bilibili_planning.rs:272-286 | the loop sets aside exactly the episodes with evidence |
| Planning.PartitionIsSplit | src/bilibili_planning.rs:272-286 | the selection can be rebuilt from the planned and the skipped episodes: none lost, both in order |
| Planning.FlattenIsExact | src/bilibili_planning.rs:232 | one exact entry per episode stays so when the plans are joined |
| Planning.PlanSeason | src/bilibili_planning.rs:182-329 | a plan exists exactly when something was selected and every planned episode was answered with one entry of its own epid, aid and cid, whatever index that entry had; it has one entry per planned episode, in order, with that identity, the original index and the stream of the answer |
| ReadinessScanner.FeedFragment | scripts/macos_service.py:1003-1026 | a fragment without a newline has the effect of its bytes one at a time |
| ReadinessScanner.FeedReflects | scripts/macos_service.py:1000-1026 | feeding appended bytes keeps flags, carried line and overflow those of a parser of the whole log |
| ReadinessScanner.AnySplitIsExact | scripts/macos_service.py:993-1026 | for every split of the appended bytes the flags are those of the complete lines of at most LINE_BYTES that begin at or after the boundary |
| ReadinessScanner.SaysExactly | scripts/macos_service.py:1008-1025 | which lines count, byte for byte: the marker, for starts perhaps a count that is all digits, the PID of this process and perhaps a carriage return, with nothing before or between |
| ReadinessStreams.LogScanner.constructor | scripts/macos_service.py:908-921 | every path once, at its captured boundary or at 0; nothing is opened and nothing known |
| ReadinessStreams.LogScanner.OpenPaths | scripts/macos_service.py:931-982 | fails exactly when a path cannot be read, is gone, irregular or another object although one was captured for it; otherwise every opened path names a stream, and streams not read yet wait at the furthest boundary of their names |
| ReadinessStreams.LogScanner.ReadStream | scripts/macos_service.py:984-1026 | one chunk of one log object; fails exactly when the object is shorter than what was read of it |
| ReadinessStreams.LogScanner.Scan | scripts/macos_service.py:923-1049 | a check of several paths fails exactly on an invalid or changed PID, a path that fails to open, a truncated log or a path that changed meanwhile; otherwise one more chunk of every object is read and the answer is whether all logs read so far, together, show readiness, each from the furthest boundary of its names |
| ReadinessStreams.FurthestSpec | scripts/macos_service.py:980-982 | that boundary is the boundary of one opened name of the object and at least that of every other |
| ReadinessStreams.FurthestOpens | scripts/macos_service.py:964-982 | opening one more name moves the boundary of its object on as far as needed and no other object's |
| ReadinessScanner.ReadFragments | scripts/macos_service.py:1003-1026 | the loop over the pieces of a chunk has the effect of its bytes one at a time |
| ReadinessScanner.StartedMarkerFits | scripts/macos_service.py:897-906 | a started marker with at most 20 digits and a valid PID is recognised and within LINE_BYTES, with or without a carriage return |
| ReadinessScanner.PlainMarkerFits | scripts/macos_service.py:897-906 | so are the markers without a count |
| ReadinessScanner.CloudMarkerLimit | scripts/macos_service.py:902-906 | the limit is exact for cloud markers: 31 bytes for digits, PID and carriage return |
| ProcessRoots.Walk | scripts/macos_service.py:551-560 | terminates on every inventory; fails exactly when the ancestry never ends and holds no other downloader; a root has no downloader ancestor |
| ProcessRoots.BotProcesses | scripts/macos_service.py:525-561 | on success the increasing list of exactly the downloaders without a downloader ancestor; fails exactly when some downloader's ancestry is cyclic |
| ProcessRoots.IncreasingUnique | scripts/macos_service.py:561 | the answer does not depend on the order in which the set is visited |
| ProcessRoots.CoveredExactly | scripts/macos_service.py:544-561 | a downloader is, or descends from, a root exactly when its ancestry ends |
| ProcessRoots.AcyclicIsCovered | scripts/macos_service.py:544-561 | on an acyclic inventory the search never fails and covers every downloader |
| ProcessRoots.MutualParentsHaveNoRoot | scripts/macos_service.py:551-560 | two downloaders that are each other's parent have no root and cause no error |
| LegacyArgs.ValidateLegacyArgs | src/bilibili_core.rs:393-435 | accepts exactly the lists that are a sequence of options |
| LegacyArgs.ValueTokenSays | src/bilibili_core.rs:402-420 | an accepted value belongs to a known flag, is written after it or after an equals sign, is valid for it and never starts with two dashes |
| LegacyArgs.SwitchTokenSays | src/bilibili_core.rs:511-531 | an accepted switch is written in one of its four forms and means what that form says |
| LegacyGrammar.ModeExactly | src/bilibili_core.rs:913-923 | a text names a download mode exactly when it is one of its words, up to case and surrounding space |
| LegacyGrammar.BoolExactly | src/bilibili_core.rs:925-931 | a text is a truth value exactly when it is one of its two words, up to case |
| LegacyGrammar.ValuesExactly | src/bilibili_core.rs:437-456 | which values the mode, area, time-out and endpoint flags take |
| LegacyGrammar.ProxiesExactly | src/bilibili_core.rs:458-466 | a comma-separated proxy list is valid exactly when every piece is blank or a valid proxy |
| LegacyGrammar.TimeoutExactly | src/bilibili_core.rs:437-456 | a decimal number is a valid time-out exactly when it is positive and fits 64 bits |
| LegacyGrammar.ValueExactly | src/bilibili_core.rs:393-420 | an option with a value is accepted exactly when the rules allow its flag, the value is valid for it, and both are written in one of the two forms |
| LegacyGrammar.SwitchExactly | src/bilibili_core.rs:421-428 | a switch is accepted exactly when the rules allow it and it is written in one of its four forms, and means what the form says |
| LegacyGrammar.SaidIsUnderstood | src/bilibili_core.rs:393-435 | whatever options the rules allow, a list that writes them down is accepted and yields exactly those options |
| LegacyGrammar.LastAskingWins | src/bilibili_core.rs:544-573 | the last option that asks for a download mode wins, unless that mode is switched off after it |
| LegacyArgs.DashedIsNoValue | src/bilibili_core.rs:437-465 | no value with two leading dashes is valid for any flag, proxy lists included |
| LegacyArgs.CollectArgValues | src/bilibili_core.rs:943-962 | the loop collects the values of the specification |
| LegacyArgs.ApplyLegacyDownloadModes | src/bilibili_core.rs:544-573 | the loop computes the mode of the specification, or its error |
| LegacyArgs.ValuesAgree | src/bilibili_core.rs:943-962 | in an accepted list the naive reader finds for every flag exactly the values the validator attributed to it |
| LegacyArgs.ModesAgree | src/bilibili_core.rs:544-573 | in an accepted list the mode reader never fails and applies exactly the accepted directives |
| LegacyArgs.ReadValuesAreValid | src/bilibili_core.rs:402-420 | every value read later for a flag was validated for that flag |

## Left out

- Permissions, ownership, symlinks, path normalisation, `RootedFs` and the durability calls: names and bytes are modelled, the calls that reach them are not.
- `CredentialStore` internals: profiles are a map, removing one is one idempotent step.
- AuthTransactions.LogoutIsAtomic: all processes use one state path whose directory exists, and config files that a process has in use are not in the set of legacy files.
- Lock identity assumes that inodes are never reused and that outsiders touch the two names but not the owner record or the locked bytes; between the calls that three of its steps join no other process acts.
- Cleanup of an interrupted rename beside the credential store: one flag says whether something was cleaned.
- `clear_bbdown_rust_cookie` bumps without finishing a pending logout; only tests call it.
- Device rebinds of the owner record are modelled; an intent recorded before one fails closed and stays outside the logout claim.
- UTF-8 errors in a legacy log and records that do not parse are one error.
- HTTP clients, QR codes, cookies and their encoding, Telegram and Bilibili calls: I/O.
- Publication namespaces and the upload of snapshots.
- OperationBudget.AllocateKeeps: does not claim that no rejected receipt would fit at the end; a full form can be smaller than its compact form, so that is false of a greedy pass.
- PreviewBudget.PublishedPreviews: assumes that the caller's count and the awaiting previews together fit a `usize`; beyond that the code saturates.
- MigrationSummaries.SummaryExactly: lengths and item sizes fit a `usize` and 64 bits, as the code's types have it.
- JsonText.SizeIsTextSize: numbers that do not read as unsigned are an ASCII text of their own; how they are printed is not modelled.
- Json.CountWrites: the limit is below the greatest `usize`, as both limits in use are.
- Attempt.RunInv: starts from a new attempt, or an independent one with no skipped entries, because the constructor does not check that argument.
- `sanitize_errors`, redaction and the cleaning of text to one line: their results are parameters.
- AttemptSummary.SummaryIsBounded: cleaning a title, a stage or an error is an arbitrary function; the counts fit a `usize` and the indices a `u32`.
- Planning.ScheduleBounded: a time-out is one of the results of a task; cancelling the whole scheduler from outside is not modelled.
- Probing for existing episodes, which is the same scheduler with its results as evidence.
- ReadinessStreams.LogScanner.Scan: what looking up the paths finds is one answer before reading and one after it; an object keeps the bytes already read of it, as the code trusts device and inode for that.
- ProcessRoots.BotProcesses: how an executable is recognised is a parameter; an executable path that cannot be resolved is not modelled.
- LegacyArgs.ValuesAgree: which URLs the URL library accepts is a parameter; that none starts with two dashes is assumed.
- `src/bilibili_danmaku.rs`, `src/episode_retry.rs`, `src/disk_space.rs`, `scripts/pdf_helper.py` and the cloud TypeScript declarations: floating point, tables and configuration.
- Error wording and wall-clock time.
