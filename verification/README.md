# Verified models of qbutt's recoverable operations

This project models, in Dafny, the parts of qbutt that have to be right under
crashes, interleavings and hostile input, and proves what the code and its
comments promise about them. The models are the source's own shape: an object
that updates its fields is a class with those fields, a loop is a loop. Each
method is proved equal to a step function over a plain value (a disk, a set of
sessions, a worker), and the theorems are about every sequence of those steps.

* **Profile import** (`ImportSteps`, `ImportTheorems`, `ImportOutcomes`,
  `ImportSchedules`, `ImportSafety`, `ImportProgress`, `ImportLiveness`,
  `ImportQuiet`, `ImportStuck`, class in `ProfileImport`).
  The disk is a value: data objects as file trees, both settings files, the
  transaction directory, the directories in which transactions are prepared, and
  the temporary directory. Every write, unlink, rmdir and rename is one atomic
  operation with a fate: it works, it fails, or the process dies before it. All
  theorems quantify over the fates, so they visit every intermediate disk. The
  manifest in memory is separate from the one on disk.
* **Path reservations and saved records** (`Reservations`, `ResumeRecords`).
* **Settings store** (`SettingsFiles`, class in `SettingsStorage`), and its
  agreement with the import.
* **Shared session checks** (`SessionSteps`, `SessionTheorems`, class in
  `WebViewSessions`): the code between two awaits is one step; any interleaving of
  steps is a run.
* **Search results** (`OrderedMaps`, `MagnetHash`, `Variants`, `Ranking`,
  `SearchSteps`, `SearchTheorems`, `SearchGroups`, class in `SearchResults`).
* **Release updater** (`Versions`, `UpdaterSteps`, `UpdaterTheorems`,
  `UpdaterOffers`, class in `ReleaseUpdater`).
* **Content worker** (`WorkerSteps`, `WorkerTheorems`, `WorkerAnswers`, class in
  `ContentWorker`).
* **Command templates and parameter passing** (`Templates`, `CommandLine`).

`Wrappers`, `Strings`, `FileTrees` and `OrderedMaps` hold what the models share.

## What the code does not keep

Eight expectations turned out to hold only under a condition. Each has a lemma
with the failing input or schedule, and the exact condition.

1. *Import, decision not written.* When the staging finishes, writing the manifest
   as `installing` fails, the process outlives the clean-up of the merged store,
   and the automatic removal of the backup fails too, the tail of `recover()`
   restores although the journal on disk still says `prepared`; a crash during
   that restore leaves a mixture that the next startup takes for the original.
   An installation gets there exactly on these fates, with an index that fits
   (`ImportSchedules.GapScheduleExact`); a startup keeps the profile, however it
   goes on, exactly when it is not exposed to them, so an exposed one can always
   go on to lose data (`ImportSafety.ExposedExactly`); and every import that
   nothing refuses has such a schedule (`LossReachable`). All other runs are all
   or nothing (`ImportSafety.AllOrNothing`).
2. *Import, nesting.* The depth limit of `removeObject` is counted from the
   backup directory, that of `copyObject` from each object: a profile nested
   deeper than six levels commits and can never be retired
   (`ImportProgress.BackupRemovableExact`, `ImportStuck.DeepImportSticks`; with
   an import of one record, `DeepProfileSticks` and `DeepProfileExists`).
3. *Import, index size.* `backup.json` is written at any size and refused above
   16 MiB: an interrupted import rolls back exactly when its index fits
   (`ImportProgress.RollbackExact`), and otherwise, with anything in `BT_backup`,
   one crash leaves a mixture that no startup ever changes
   (`ImportStuck.UnfitImportSticks`). Some 23000 files
   with names of 251 characters, two directories deep, are within every limit of
   the import and have such an index (`WideProfileUnfit`, `WideProfileSticks`).
4. *Import, empty directory.* A failure or a death exactly between the last unlink
   and `rmdir` of the transaction directory stops every later startup
   (`ImportProgress.WindowExact`, `LostManifestStops`); every transaction that
   could be retired can be stopped there (`WindowReachable`).
5. *Settings, stale `_new` file.* A save merges into a `_new` file left by a
   failed rename, so removed keys return; and a save that cannot write deletes
   that file even when it is the only copy (`SettingsFiles.SaveIsSafeExactly`,
   `HarmlessExactly`, `RemovedKeyReturns`, `TwoFailuresLoseEverything`). Crashes
   alone never get a store there (`CrashesAreHarmless`).
6. *Worker, shutdown inside a request.* A request enters `pending` only after
   its synchronous part has run. When an emission in that part does not fit the
   output limits, the shutdown it starts does not know the request, and the
   store can close before it settles. A run keeps the order exactly when no
   request of it does that (`WorkerTheorems.StoreClosesLastExactly`,
   `EscapeExact`). In this code only `library` emits before its first await, and
   its frame has passed a size check, so an escape is always an output backlog,
   `outputBytes + Sum(prefix) > MAX_OUTPUT`, of at least four unread writes
   (`BacklogExact`); `EscapeReachable` is such a run: five `library` requests of a
   client that does not read.
7. *Versions.* The anchored pattern accepts one line feed at the end of a tag
   (`Versions.ParseExact`).
8. *Parameter passing.* Separators, trailing space and source names that look
   like options do not survive (`CommandLine.RoundTripExact`).

One more holds only because of the callers: by itself, `verifyRecords` accepts a
foreign record in the place of a torrent that is expected twice
(`ResumeRecords.DuplicateLetsStrangerThrough`), but both stores that it is asked
about were made by storing the expected records (`NoStrangers`), and an import
that repeats a hash is refused before (`MergedIsExact`).

## Model

Methods that are a straight line of steps have no row; like those that have one,
each is proved equal to the step function of its name.

| member | source | states |
|---|---|---|
| FileTrees.CopyTreeExact | src/base/profileimport.cpp:126-155 | Copying one object: nothing partial is reported as done, a finished copy equals its source, and on a reliable disk it finishes exactly when the tree has no link, nests at most 8 levels and respects the entry and size limits. |
| FileTrees.RemoveTreeExact | src/base/profileimport.cpp:157-178 | Removal is gone-or-partial at every instant: done exactly when nothing is left, and on a reliable disk it is done exactly when no link and no level below 8 is met; what is left is as removable as before. |
| FileTrees.RemovalKeepsFiles | src/base/profileimport.cpp:166-176 | However a removal is cut short, a file of the directory is either untouched or gone. |
| FileTrees.LastFileGoesLast | src/base/profileimport.cpp:157-178 | A file that sorts after all other entries is still there until nothing else is: an interrupted removal leaves it or leaves an empty directory. |
| FileTrees.ListingAt | src/base/profileimport.cpp:93-122 | The inventory maps exactly the paths that exist to directory marks or file digests. |
| FileTrees.InventoryInjective | src/base/profileimport.cpp:93-122 | Two trees with the same inventory are the same tree, names, contents and empty directories included. |
| ImportTheorems.BackupHolds | src/base/profileimport.cpp:705-714 | The backup holds each data object and each settings file exactly when the profile has it. |
| ImportTheorems.MakeBackupEffect | src/base/profileimport.cpp:702-714 | A finished backup is the complete profile; an unfinished one has touched only the temporary directory. |
| ImportTheorems.ReplaceDataEffect | src/base/profileimport.cpp:191-204 | Replacing the data objects one at a time touches nothing else, keeps every partial state removable, and when done leaves exactly the objects of the source, absences included. |
| ImportTheorems.VerifiedBackupIsOriginal | src/base/profileimport.cpp:586-598 | A backup that passes digest and inventory is the original profile, whatever happened to the temporary directory in between. |
| ImportTheorems.RestoreExact | src/base/profileimport.cpp:576-616 | Rollback changes nothing unless location, digest and inventory all match; a finished one has recreated every data object and both settings files, absences included, and says so in the journal; from any partial mixture, and cut short anywhere, it can be repeated; on a reliable disk it finishes exactly when the checks pass. |
| ImportTheorems.UndoKeeps | src/base/profileimport.cpp:618-626 | An interrupted or failed rollback keeps the crash invariant and never reports success of the import. |
| ImportTheorems.SwapEffect | src/base/profileimport.cpp:773-777 | Installing the merged store ends with exactly the profile the import aims at, and every crash in between leaves a state that rollback accepts. |
| ImportTheorems.FinishKeeps | src/base/profileimport.cpp:773-790 | Replacement, commit, retirement and their failure paths keep the crash invariant; success means no transaction and the complete import. |
| ImportTheorems.InstallKeeps | src/base/profileimport.cpp:632-791 | The whole installation keeps the invariant under every fate of every operation, and says what its failure means for the tail of recover(). |
| ImportSafety.RecoverKeeps | src/base/profileimport.cpp:539-819 | One startup, cut short anywhere, keeps the invariant unless its fates expose it: prepared or rolled-back means the original profile, installing means a pinned backup of it, committed means the complete import. |
| ImportOutcomes.GoesOnExactly | src/base/profileimport.cpp:539-820 | Under every codec, disk and schedule a startup succeeds, so that the application goes on, exactly when it leaves no transaction: no journal before it, or one that it has ended. |
| ImportOutcomes.NothingToDo | src/base/profileimport.cpp:542-543 | Without a transaction a startup changes nothing and succeeds. |
| ImportOutcomes.RefusedStays | src/base/profileimport.cpp:544-556 | A transaction that is locked, unreadable, of another version or in an unknown state stops the startup, and the disk is as before. |
| ImportSafety.AllOrNothing | src/base/profileimport.cpp:539-819 | Over every run of startups that are not exposed, each interrupted anywhere and with any tampering of the temporary directory in between, a profile without a transaction is the original or the complete import. |
| ImportTheorems.PublishStarts | src/base/profileimport.cpp:501-528 | prepare() makes, fills and renames a directory: wherever that stops, only that directory differs and no journal has appeared; the one that appears is complete, needs the confirmation and no pending transaction, and establishes the invariant; on a reliable disk a refusal leaves nothing behind. |
| ImportTheorems.PreparedJournalHolds | src/base/profileimport.cpp:504-524 | The published directory holds the import, a prepared manifest, and of the chosen settings exactly the safe ones, each with its chosen value. |
| ImportSchedules.StageSchedule | src/base/profileimport.cpp:632-764 | The staging finishes exactly when every check accepts the profile and the import and each of its operations works, and then the next fate is that of the decision. |
| ImportSchedules.GapScheduleExact | src/base/profileimport.cpp:632-772 | Memory and journal disagree at the tail, with a backup that verifies, exactly when the import is accepted, its index fits, the staging works, the write of the decision fails, the process outlives the clean-up of the merged store, and the clean-up of the backup fails. |
| ImportSafety.ExposedExactly | src/base/profileimport.cpp:539-819 | A startup keeps the invariant however it goes on after the decision, exactly when the profile has nothing to lose, something is refused, or its first operations are not those fates. |
| ImportSafety.GapExact | src/base/profileimport.cpp:805-810 | Once they disagree, the restore at the tail is harmless under every schedule exactly when the backup does not verify or there is nothing live to remove. |
| ImportSafety.FirstLoss | src/base/profileimport.cpp:599-611 | In a non-empty profile the restore has a first unlink after which the live profile is no longer the original. |
| ImportSafety.LossReachable | src/base/profileimport.cpp:766-810 | Every import that nothing refuses, over a profile with anything in it, has a schedule of two failures and one crash after which the journal says prepared and the live profile is not the original. |
| ImportProgress.RetireExact | src/base/profileimport.cpp:558-574 | On a reliable disk retirement succeeds exactly when the backup location is valid and both trees can be removed, and then the transaction is gone. |
| ImportProgress.RetireRepeatable | src/base/profileimport.cpp:558-574 | A retirement cut short anywhere leaves a transaction that is exactly as retirable as before. |
| ImportProgress.StuckForever | src/base/profileimport.cpp:627-628 | A finished transaction that is not retirable survives every later startup, whatever the disk does. |
| ImportProgress.LostManifestStops | src/base/profileimport.cpp:547-549 | A transaction directory without its manifest refuses every startup and is never changed again. |
| ImportProgress.OnlyEmptyWindow | src/base/profileimport.cpp:573-573 | An interrupted removal of the transaction directory leaves its manifest untouched or an empty directory, nothing else. |
| ImportProgress.WindowExact | src/base/profileimport.cpp:547-574 | A startup over a finished transaction leaves the empty directory exactly when it reads the journal, the backup and all entries of the directory can be removed and each of these operations works, and the next one, the rmdir, does not. |
| ImportProgress.WindowReachable | src/base/profileimport.cpp:547-574 | Every transaction that could be retired has a schedule of one crash that leaves the empty directory, and then nothing changes it again. |
| ImportProgress.RemovableHeight | src/base/profileimport.cpp:160-161 | Without links, a tree can be removed from a given depth exactly when depth and height together stay within the limit. |
| ImportProgress.BackupRemovableExact | src/base/profileimport.cpp:569-571 | A backup can be retired exactly when the data objects of the profile nest at most six levels. |
| ImportStuck.DeepImportSticks | src/base/profileimport.cpp:126-178 | A quiet startup of an accepted import over a profile with an object nested deeper than six commits the complete import and leaves a transaction that no later startup removes, whatever happens during it. |
| ImportStuck.DeepProfileSticks | src/base/profileimport.cpp:126-178 | An import of one record over a single object that is too deep ends with the record in the profile and that transaction for good. |
| ImportStuck.UnfitImportSticks | src/base/profileimport.cpp:586-588 | When the index of an accepted import is too large, a crash after the first unlink of the replacement leaves a profile that has lost data, and no startup, whatever happens during it, changes that disk again. |
| ImportStuck.WideProfileUnfit | src/base/profileimport.cpp:699-718 | Between 23000 and 29990 files with names of 251 characters, two directories deep, pass every limit of copy and inventory and have an index above 16 MiB, for any encoding that spells the paths. |
| ImportStuck.WideProfileSticks | src/base/profileimport.cpp:586-718 | With such a profile and an import of one record that happens. |
| ImportProgress.RollbackExact | src/base/profileimport.cpp:586-588 | With an untouched backup, an interrupted import rolls back on a reliable disk exactly when its index is at most 16 MiB; otherwise the startup changes nothing. |
| ImportProgress.TwoStartups | src/base/profileimport.cpp:618-630 | Two startups without failures end any transaction whose backup is intact and within the limits, with the original or the complete profile, and the second one lets the application go on. |
| ImportProgress.QuietNotExposed | src/base/profileimport.cpp:769-772 | A startup in which no operation fails is not exposed. |
| ImportLiveness.UndoEnds | src/base/profileimport.cpp:576-626 | A rollback cut short anywhere leaves a transaction that two quiet startups still end. |
| ImportLiveness.FinishEnds | src/base/profileimport.cpp:773-790 | The same for replacement, commit and retirement. |
| ImportLiveness.InstallEnds | src/base/profileimport.cpp:632-791 | The same for the whole installation, whatever fails in it. |
| ImportLiveness.RecoverEnds | src/base/profileimport.cpp:539-819 | One startup, under any fates, leaves a transaction that is over, or the empty directory, or one that two quiet startups end. |
| ImportLiveness.CrashesThenQuiet | src/base/profileimport.cpp:539-819 | After any number of crashed or failed startups, two startups without failures leave no transaction and the original or the complete profile, and the second succeeds, unless the last death left the empty directory. |
| ImportQuiet.QuietImportExact | src/base/profileimport.cpp:632-820 | Within the limits, a startup without failures over a prepared import ends with exactly the profile the import aims at and no transaction, if every check accepts it, and otherwise with the original profile, rolled back and refused. |
| ImportLiveness.PublishedEnds | src/base/profileimport.cpp:501-528 | A published import starts in such a state when the imported store can be removed. |
| ProfileImport.ProfileImport.CopyTree | src/base/profileimport.cpp:126-155 | Copies one tree operation by operation; every partial copy is the one the theorems quantify over. |
| ProfileImport.ProfileImport.RemoveTree | src/base/profileimport.cpp:157-178 | Removes a tree bottom-up, unlink by unlink; a crash leaves exactly the entries not reached. |
| ProfileImport.ProfileImport.ReplaceData | src/base/profileimport.cpp:191-204 | Removes and copies the four data objects in order, stopping at the first failure. |
| ProfileImport.ProfileImport.Restore | src/base/profileimport.cpp:576-616 | Checks the backup, then puts back data and settings, then writes rolled-back; refuses without a change when a check fails. |
| ProfileImport.ProfileImport.BackUpObjects | src/base/profileimport.cpp:180-189 | Copies the data objects into the backup in order. |
| ProfileImport.ProfileImport.Install | src/base/profileimport.cpp:632-791 | The installation, with the manifest in memory changed before each attempt to write it. |
| ProfileImport.ProfileImport.Recover | src/base/profileimport.cpp:539-819 | One startup from the journal on disk; it succeeds exactly when no transaction is left. |
| ProfileImport.Startups | src/base/profileimport.cpp:539-819 | Running any number of startups keeps the crash invariant, and a profile without a transaction is the original or the complete import; the last one lets the application go on exactly in that case. |
| ProfileImport.ProfileImport.Publish | src/base/profileimport.cpp:501-528 | prepare() from the confirmation on; a journal has appeared exactly when it succeeds. |
| Reservations.LowerBoundFindsDescendant | src/base/profileimport.cpp:353-356 | lower_bound(path + '/') yields a descendant of the path whenever the set has one, although siblings such as `file-` sort in between. |
| Reservations.Reservations.ContainsAncestor | src/base/profileimport.cpp:346-352 | Walking up the path finds an entry exactly when the set holds the path itself or one of its ancestors. |
| Reservations.Reservations.Claim | src/base/profileimport.cpp:342-360 | A path is inserted exactly when it neither equals, contains nor lies in a reserved one; otherwise the set is unchanged. |
| Reservations.Reservations.ClaimAll | src/base/profileimport.cpp:342-360 | All distinct names of one file are reserved exactly when they and the set stay independent. |
| Reservations.Reservations.CheckAliases | src/base/profileimport.cpp:318-341 | The five names a file may get are accepted exactly when each resolves, none belongs to another file or a link, and none touches a protected directory; the result is their distinct identities. |
| Reservations.Reservations.ReserveTargets | src/base/profileimport.cpp:290-363 | Succeeds exactly when every file meets its conditions against everything reserved before; on success every name of every file but pads is in the set, which stays sorted, within 65536 + 5 entries, and free of equal and nested paths even on failure. |
| Reservations.FilesAreIndependent | src/base/profileimport.cpp:342-359 | After success no name of a file equals, contains or lies in a name of another file, of an earlier torrent, or a protected directory. |
| Reservations.AllOkExact | src/base/profileimport.cpp:290-363 | The call succeeds exactly when the names of every file are fine by themselves, none is taken before, the limit holds, and all names reserved in the end are pairwise independent. |
| ResumeRecords.AgreesExactly | src/base/profileimport.cpp:256-266 | A saved record agrees when each compared field is equal and both have metadata with equal hashes. |
| ResumeRecords.VerifyRecords | src/base/profileimport.cpp:241-270 | Accepts exactly when the counts agree, every loaded record is readable and unique, and every expected record is present with equal compared fields. |
| ResumeRecords.VerifiedIsComplete | src/base/profileimport.cpp:241-270 | An accepted store holds nothing but the expected torrents exactly when the expected list names none twice. |
| ResumeRecords.VerifiedAgrees | src/base/profileimport.cpp:252-268 | With distinct expectations every saved record agrees with the one that was meant. |
| ResumeRecords.DuplicateLetsStrangerThrough | src/base/profileimport.cpp:243-257 | By itself it accepts a store with a foreign record for an expected list that repeats one torrent. |
| ResumeRecords.NoStrangers | src/base/profileimport.cpp:505-510 | A store that holds nothing but stored expectations, as in prepare() and after the merge, passes only when it is exactly the expected one. |
| ResumeRecords.CheckImports | src/base/profileimport.cpp:661-687 | The loops before the backup accept exactly when all existing records are readable, all imports are stopped with explicit locations, and no import shares a hash with an existing record or an earlier import. |
| ResumeRecords.MergedIsExact | src/base/profileimport.cpp:661-735 | After that check the merged store that verifies is exactly the old torrents and the imported ones, each as it was wanted, exactly when the old store named no torrent twice. |
| SettingsFiles.RecoverIsSafe | src/base/settingsstorage.cpp:115-162 | Whatever happens during the fallback at startup, the next start reads the same map. |
| SettingsFiles.SaveSucceeds | src/base/settingsstorage.cpp:164-210 | A successful save is read back as the map in memory laid over what the `_new` file held, which is the map in memory exactly when the `_new` file held no other key. |
| SettingsFiles.SaveSucceedsExactly | src/base/settingsstorage.cpp:164-210 | A save succeeds exactly when its write, the removal of the old file and the rename all work and there is a `_new` file to rename. |
| SettingsFiles.RecoverExact | src/base/settingsstorage.cpp:142-157 | A start over a `_new` file whose operations work leaves it as the settings file, with nothing for a later save to merge with. |
| SettingsFiles.SaveIsSafeExactly | src/base/settingsstorage.cpp:164-210 | Under every schedule the next start reads the whole old or the whole new map, exactly when the `_new` file found by the save is harmless. |
| SettingsFiles.TwoFailuresLoseEverything | src/base/settingsstorage.cpp:197-209 | A failed rename followed by a save that cannot write leaves no settings at all. |
| SettingsFiles.RemovedKeyReturns | src/base/settingsstorage.cpp:164-176 | A key removed after a failed rename is back after the next successful save. |
| SettingsFiles.EveryRun | src/base/settingsstorage.cpp:80-220 | Over any run of changes, saves and starts with any failures and crashes, as long as each save meets that condition: memory that is not dirty is what a start reads, and a start reads the whole map of the last successful save or of one tried since. |
| SettingsFiles.HarmlessExactly | src/base/settingsstorage.cpp:80-95 | That condition is exact: a save that does not meet it goes wrong under some schedule. |
| SettingsFiles.CrashesAreHarmless | src/base/settingsstorage.cpp:115-210 | When operations never fail but the process may die at any of them, every save of every run meets it. |
| SettingsFiles.ImportAgrees | src/base/profileimport.cpp:737-764 | The import merges over exactly the map that a start would read, gives a safe key the imported value where there is one, changes no key outside the safe list, and leaves no pending file to override the result. |
| SettingsStorage.SettingsStorage.constructor | src/base/settingsstorage.cpp:115-162 | Reads the pending file when it has keys, moves it into place, and starts with nothing to save. |
| SettingsStorage.SettingsStorage.Save | src/base/settingsstorage.cpp:80-95 | True only when something was dirty and is now what a start reads; a failed save stays dirty and is retried; whether the files then read back as memory depends only on the keys of the `_new` file it found. |
| SettingsStorage.SettingsStorage.StoreValue | src/base/settingsstorage.cpp:103-113 | Changes one key and is dirty exactly when the map changed. |
| SettingsStorage.SettingsStorage.RemoveValue | src/base/settingsstorage.cpp:212-220 | Removes one key and is dirty exactly when there was one. |
| SessionSteps.StepKeeps | components/content/webview.ts:49-99 | Every step between two awaits keeps the invariant of runs, entries and subscribers. |
| SessionSteps.EveryInterleaving | components/content/webview.ts:49-99 | In every interleaving one origin has at most one unsettled run, `users` counts the unfinished subscribers, and a returned session comes from a run of the caller's origin and state, interactive if the caller asked for it; the identity guard of every finally callback still to come is true. |
| SessionTheorems.RunEnds | components/content/webview.ts:63-78 | A run is over exactly when it has settled and its finally callback has run after that, and its result is that of its first settlement, whatever else happens. |
| SessionTheorems.JoinedIsAnswered | components/content/webview.ts:83-99 | A caller joined to a run waits through anything that others do; its delivery answers it exactly when the run is over, with the session the run settled with, or with a failure if there was none. |
| SessionTheorems.AnsweredExactly | components/content/webview.ts:49-99 | Over every run, a caller has an answer exactly when one event gave it: a refused address or a run without a session gives a failure, a run with one its session, a fired signal the cancellation, and nothing else gives anything. |
| SessionTheorems.CancelledExactly | components/content/webview.ts:49-53 | Over every run, each call keeps its address, mode and state, and counts as cancelled exactly when its own signal fired before or after the call, or the object was closed. |
| SessionTheorems.ResolveExact | components/content/webview.ts:59-80 | A resolved caller is subscribed to the entry of its origin, for its session exactly if that entry is not aborted, has its state and is interactive if the caller asked for it; without an entry its own run starts. |
| SessionTheorems.WaiterAsksAgain | components/content/webview.ts:60-69 | A caller that waits for an unsuitable run is not answered by anything others do, and once the run is over it asks again with the same request. |
| SessionTheorems.WaiterIsAnswered | components/content/webview.ts:60-99 | It is then joined to a run that suits it, and the end of that run is its answer. |
| SessionTheorems.NobodyIsStuck | components/content/webview.ts:49-99 | In every run, a caller that is not cancelled, refused or joined to a failed run can still be answered with a session that suits it. |
| SessionTheorems.AbortedExactly | components/content/webview.ts:92-92 | A run is aborted by exactly the step in which its last subscriber leaves. |
| SessionSteps.AbortSparesSubscribers | components/content/webview.ts:92-92 | In no interleaving, closing included, is a run aborted while anyone is subscribed to it. |
| SessionSteps.OthersNeverStop | components/content/webview.ts:83-99 | Once a caller is subscribed for a session, no sequence of events of others answers it or aborts its run. |
| SessionSteps.CloseEnds | components/content/webview.ts:184-186 | Closing leaves the object closed and every caller cancelled and unsubscribed. |
| WebViewSessions.WebViewSessions.Resolve | components/content/webview.ts:54-80 | Joins a compatible run, waits for an incompatible or aborted one, or starts one; at most one entry per origin. |
| WebViewSessions.WebViewSessions.Clear | components/content/webview.ts:75-77 | The finally callback finds its own entry and removes it. |
| WebViewSessions.WebViewSessions.Deliver | components/content/webview.ts:97-97 | The end of a run answers one subscriber with its session or failure, or lets a waiting one ask again. |
| WebViewSessions.WebViewSessions.Close | components/content/webview.ts:184-186 | The lifetime signal cancels every caller, one by one. |
| MagnetHash.Decode32 | components/content/results.ts:20-32 | Decoding is exact although the 32-bit accumulator wraps: the bytes are the whole bytes of the number that the letters spell, and 32 letters give its 20 big-endian bytes (section 6 of RFC 4648). |
| MagnetHash.LowBytesSurvive | components/content/results.ts:25-30 | Reduction modulo 2^32 never changes the byte that is taken. |
| MagnetHash.MagnetHash | components/content/results.ts:4-39 | The key of a variant, by field or by the first hash parameter of its magnet link, with every malformed spelling refused. |
| MagnetHash.SpellingsAgree | components/content/results.ts:5-32 | A hex hash and a base32 magnet give the same key exactly when they spell the same number, in any letter case. |
| Variants.MergeNotes | components/content/results.ts:212-215 | Both lists of notes without repetition. |
| Variants.MergeNotesAssociative | components/content/results.ts:212-215 | Merging notes in either association gives the same list in the same order. |
| Variants.MergeVariants | components/content/results.ts:217-227 | The loop over the Map yields the fold that the theorems describe. |
| Variants.MergeExact | components/content/results.ts:217-227 | The keys of a merge are the distinct keys in order of first occurrence; the entry of each is all its publications laid over one another, later defined fields winning and notes collected. |
| Variants.LatestValuesWin | components/content/results.ts:222-224 | A repeated publication has the transport of its last version and, property by property, the latest value that was given. |
| Variants.LatestLabelsWin | components/content/results.ts:222-224 | The same for episode, season and every other field by name. |
| Variants.MergeIncrementally | components/content/results.ts:217-227 | Merging in parts, in either association, equals merging at once in key order, fields and notes; merging again changes nothing. |
| Ranking.SortDescends | components/content/results.ts:310-310 | The score sort is a non-increasing permutation. |
| Ranking.SortStable | components/content/results.ts:310-315 | Entries of equal key keep their order. |
| Ranking.Regroup | components/content/results.ts:311-321 | The in-place pass over the array computes the regrouping that the theorems describe. |
| Ranking.RegroupOne | components/content/results.ts:312-315 | Finds the maximal run of one score and sorts its torrents. |
| Ranking.RefillInPlace | components/content/results.ts:316-319 | Fills the torrent positions of the group in order and leaves all others. |
| Ranking.RankVariants | components/content/results.ts:260-323 | Preparation, sort and pass together. |
| Ranking.RankExact | components/content/results.ts:310-322 | A permutation of the prepared variants with non-increasing score; what is not a torrent sits where the stable sort put it; the torrents of each score are the stable sort by seeders of those torrents. |
| Ranking.TorrentTiesAreStable | components/content/results.ts:314-315 | More seeders first, and equal seeders in their original order. |
| SearchSteps.MatchingCatalog | components/content/results.ts:109-153 | A catalog is returned only from the given list, only when it matches, and only for a publication of torrents alone or an upload of full episodes. |
| SearchSteps.NotBoth | components/content/results.ts:109-114 | A publication that may be reassigned is never itself a catalog. |
| SearchSteps.Refitted | components/content/results.ts:101-107 | Fitting episodes to a catalog keeps the identity of every variant. |
| SearchSteps.MergeMetadata | components/content/results.ts:229-237 | The id and variants of the incoming work; the aliases, identifiers and notes of both, each once, and of an identifier of both the incoming one. |
| SearchSteps.OverlaidAssociative | components/content/results.ts:229-237 | Metadata merged in either grouping is the same, order of aliases and notes included. |
| SearchSteps.AttachLinked | components/content/results.ts:380-390 | Attaching one work keeps every catalog of the snapshot present, so the lookup that the code asserts never fails. |
| SearchSteps.Replacement | components/content/results.ts:398-399 | The first live work that holds every removed publication, or none when there is none. |
| SearchTheorems.StoredKeys | components/content/results.ts:404-409 | Merging and ranking a work neither lose nor invent a publication. |
| SearchTheorems.PlaceHas | components/content/results.ts:366-376 | Placing a publication, joined or not, keeps all keys and adds its own; `SearchGroups.PlaceJoins` and `PlaceFounds` say where they go. |
| SearchGroups.PlaceJoins | components/content/results.ts:366-376 | A publication that some work is the same as joins the first such work: there are as many works as before, that one holds exactly the keys and notes of both, under the publication's id, title and category if it is a catalog page and as it was otherwise, and all others are untouched. |
| SearchGroups.PlaceFounds | components/content/results.ts:366-375 | A publication that no work is the same as becomes one more work, with exactly its keys. |
| SearchGroups.GatherPartition | components/content/results.ts:365-376 | Gathering is a partition: each publication has one home, each work is the home of some, and holds exactly the keys of those that live in it. |
| SearchGroups.WorksAreFounded | components/content/results.ts:365-376 | There are as many works as publications that no earlier work was the same as. |
| SearchGroups.MatchesAlike | components/content/results.ts:117-121 | A match never crosses categories, unless the publication is of no category, nor known years; books and manga match only as the same work. |
| SearchGroups.MatchingCatalogExact | components/content/results.ts:109-153 | A catalog is returned exactly when the publication is torrents alone or full uploaded episodes and precisely one position of the list matches, the one of that catalog. |
| SearchGroups.ReassignedExact | components/content/results.ts:109-153 | Over works with distinct ids that is the one catalog page among them that matches, wherever it stands. |
| SearchGroups.AttachMoves | components/content/results.ts:383-390 | A work with its turn stays, or its id goes and its keys join those of its catalog; every other id holds what it held. |
| SearchGroups.AttachKeepsPage | components/content/results.ts:387-389 | The catalog keeps its page and gets the notes of both; every other work that stays is the same. |
| SearchGroups.RefittedKeeps | components/content/results.ts:101-107 | A reassigned variant changes in episode and season alone, and only as a torrent of an anime. |
| SearchGroups.RebuildExact | components/content/results.ts:363-390 | What is shown are the gathered works that are not reassigned, each with exactly its own keys and those of the works reassigned to it. |
| SearchGroups.StaysTogether | components/content/results.ts:363-390 | After every rebuild some work holds all keys of a publication. |
| SearchGroups.AcceptanceExact | components/content/results.ts:345-361 | A publication becomes known exactly when it has an id, a title and variants, its year suits the first query and some query matches it; the others stay as they are. |
| SearchGroups.PublicationPage | components/content/results.ts:354-356 | A publication that comes again brings its title and category and adds its aliases, identifiers and notes. |
| SearchGroups.PublicationsExact | components/content/results.ts:354-358 | Over every run, the variants of a publication are the merge of all that accepted calls sent for it, as if it had come at once. |
| SearchGroups.QueriesExact | components/content/results.ts:335-339 | Over every run, the queries are the first one and then those added that have words, each identity once. |
| SearchTheorems.NothingLost | components/content/results.ts:363-390 | After every rebuild the works have distinct ids and hold exactly the publications that were accepted. |
| SearchTheorems.StreamInStep | components/content/results.ts:392-401 | Folding the emitted events over the previous works gives exactly the new ones. |
| SearchTheorems.ReplacementsLive | components/content/results.ts:396-400 | A removal names a live work that holds all removed publications, and names none exactly when no work does. |
| SearchTheorems.EveryRun | components/content/results.ts:345-402 | After any sequence of calls the events folded over an empty map are the current works, and these hold exactly the publications that accepted calls carried. |
| SearchResults.SearchResults.Find | components/content/results.ts:341-343 | The work of that id, else one that is the same work, else none. |
| SearchResults.SearchResults.Add | components/content/results.ts:345-361 | Accepts exactly what the queries match; a listener stays in step; an unchanged publication emits nothing. |
| SearchResults.SearchResults.Publish | components/content/results.ts:363-402 | Rebuilds the works from the publications alone and emits the difference. |
| SearchResults.SearchResults.GatherAll | components/content/results.ts:365-376 | The loop over the publications computes exactly the works that `SearchGroups.GatherPartition` and `WorksAreFounded` describe. |
| SearchGroups.GatherGroups | components/content/results.ts:365-376 | Those works are one for each founder, each holding exactly what lives in it. |
| SearchResults.SearchResults.AttachEach | components/content/results.ts:380-390 | Works without a catalog page move to the one catalog they match. |
| SearchResults.DifferenceOfSame | components/content/results.ts:392-401 | An unchanged list of works emits nothing. |
| Versions.ParseExact | src/base/releaseupdater.cpp:47-64 | A text parses to a version exactly when it is at most 128 long and prints that well-formed version, but for one line feed at its end. |
| Versions.VersionOrder | src/base/releaseupdater.cpp:79-94 | Comparison is antisymmetric and zero only for equal versions. |
| Versions.VersionTransitive | src/base/releaseupdater.cpp:79-94 | Comparison is transitive, strictly if either step is strict. |
| Versions.NumbersCompare | src/base/releaseupdater.cpp:66-77 | Digit strings of any length compare as the integers they spell. |
| Versions.PrereleaseCompares | src/base/releaseupdater.cpp:88-93 | Prerelease lists compare by their first difference, else by length. |
| Versions.CompareIsPrecedence | src/base/releaseupdater.cpp:79-94 | On accepted versions the comparison is the precedence of item 11 of Semantic Versioning 2.0.0. |
| UpdaterSteps.SelectIsNewest | src/base/releaseupdater.cpp:344-364 | The loop selects the first of the greatest eligible releases strictly above the current version, and none exactly when there is none. |
| UpdaterTheorems.StepSafe | src/base/releaseupdater.cpp:187-468 | No step puts bytes on the disk other than an archive of the pinned size and hash, and every step keeps the safety of the state. |
| UpdaterTheorems.EveryRun | src/base/releaseupdater.cpp:217-468 | In every run the part file is what was hashed and comes from the 200 response alone, its length is the count received, a chain has issued at most four requests, and Ready means the saved file has the pinned size and hash. |
| UpdaterTheorems.DownloadExact | src/base/releaseupdater.cpp:261-333 | A download cut into any pieces is ready exactly when its bytes have the pinned size and hash, and then they are the saved file; otherwise the disk is unchanged. |
| UpdaterTheorems.RedirectStartsOver | src/base/releaseupdater.cpp:304-309 | A redirect goes on with an empty file and hash and the same pin; the fourth one, or a foreign address, ends the download. |
| UpdaterOffers.ReadExact | src/base/releaseupdater.cpp:335-415 | What becomes of a release list, for every list: an error if it is malformed, empty, above 100 entries or without an eligible release; up to date when none is newer; and for the newest, exactly when precisely one asset has the archive's name and that one is uploaded at the release's own address with 0 < size <= 512 MiB and a digest, the update is available, or, installed, taken from the cache or downloaded; otherwise an error. |
| UpdaterOffers.NewestUnique | src/base/releaseupdater.cpp:344-364 | There is one newest eligible release. |
| UpdaterOffers.NewestIsProper | src/base/releaseupdater.cpp:347-359 | It is no draft, published at its own address, above the current version, and no prerelease for anyone on a stable version. |
| UpdaterOffers.InstallerExact | src/base/releaseupdater.cpp:450-468 | Installed, the cached installer of the pinned size and hash is ready at once; otherwise the pinned address is requested, and every failure on the way is an error; all other cached installers go. |
| UpdaterOffers.CheckExact | src/base/releaseupdater.cpp:225-237 | A check requests the release list with everything forgotten, and does nothing in the four states that forbid it. |
| UpdaterOffers.CheckRun | src/base/releaseupdater.cpp:225-415 | A check from beginning to end: the outcome is that of the bytes that came, cut in any way, or an error above 2 MiB. |
| UpdaterOffers.DownloadAsks | src/base/releaseupdater.cpp:417-432 | A download requests exactly the pinned address into an empty file at the destination, or fails. |
| UpdaterOffers.DownloadRun | src/base/releaseupdater.cpp:417-432 | A download from beginning to end: ready exactly when the bytes that came have the pinned size and hash, and then they are the file at the destination. |
| UpdaterOffers.ReplyExact | src/base/releaseupdater.cpp:295-319 | A redirect of either request is followed up to three times to allowed addresses, from the start; any other reply than a complete 200 is an error. |
| UpdaterOffers.StopsExact | src/base/releaseupdater.cpp:217-223 | A cancellation and a deadline drop the request and the part file, and nothing else. |
| UpdaterOffers.RestsUntilCheck | src/base/releaseupdater.cpp:187-223 | Once canceled, failed or up to date, nothing that comes in changes the updater before the next check. |
| UpdaterTheorems.CheckOffersNewest | src/base/releaseupdater.cpp:335-412 | A check ends up to date exactly when releases are eligible and none is newer; what it offers is the archive of the newest, at its own address, with its size and digest as the pin; `UpdaterOffers.ReadExact` says when there is an offer. |
| ReleaseUpdater.ReleaseUpdater.ReadData | src/base/releaseupdater.cpp:261-293 | Reads what has arrived; the state stays safe. |
| ReleaseUpdater.ReleaseUpdater.ReadAll | src/base/releaseupdater.cpp:269-292 | The read loop. |
| ReleaseUpdater.ReleaseUpdater.FinishRequest | src/base/releaseupdater.cpp:295-333 | Reads the rest and concludes the request; the state stays safe. |
| ReleaseUpdater.ReleaseUpdater.ReadReleases | src/base/releaseupdater.cpp:335-415 | Computes exactly the outcome of the release list. |
| ReleaseUpdater.ReleaseUpdater.Download | src/base/releaseupdater.cpp:417-432 | Starts a download only from an available update to a named file, and then requests the pinned address; the state stays safe. |
| ReleaseUpdater.Newest | src/base/releaseupdater.cpp:344-364 | The selection loop returns the newest eligible release and whether any release was recognised. |
| ReleaseUpdater.FindArchive | src/base/releaseupdater.cpp:386-402 | Finds the assets of the name, or reports that one of them is not published at the right address. |
| WorkerTheorems.ChunksDoNotMatter | components/content/main.ts:253-270 | However the input is cut into chunks, the worker ends up as if it had come in one piece. |
| WorkerTheorems.TooLong | components/content/main.ts:261-269 | A line above 16 MiB ends the worker whether or not the rest of it has arrived. |
| WorkerTheorems.StepInv | components/content/main.ts:105-251 | Every event keeps the output bound, the request bound, the order of the shutdown, and one answer per request. |
| WorkerTheorems.EveryRun | components/content/main.ts:105-251 | In every run output in flight is at most 64 MiB and at most 128 requests run; an accepted request has exactly one complete or error event or is still running while the worker is open, and never more than one (`WorkerAnswers.EveryLine` says which). |
| WorkerAnswers.EveryLine | components/content/main.ts:105-121 | Over every run, each event writes what it has to say as far as it fits: a settled task `complete` exactly if it succeeded and was not aborted and `error` otherwise, a cancel `complete`, an overload `error`, all else an event that ends nothing; the first line that does not fit, a bad line and a stop close the worker, and a closed one writes nothing. |
| WorkerAnswers.AbortedExactly | components/content/main.ts:123-132 | Over every run, a running request is aborted exactly when an accepted cancel line named it while it ran, or a shutdown began that does not spare it. |
| WorkerAnswers.PendingStep | components/content/main.ts:238-250 | A step ends the request that settles, admits the one of its line, and aborts exactly those. |
| WorkerAnswers.TaskAnswer | components/content/main.ts:240-249 | A settling task is answered with one line, `complete` exactly if it succeeded and no cancellation or shutdown had aborted it, and is no longer running. |
| WorkerAnswers.RequestAnswer | components/content/main.ts:225-250 | A cancel is answered `complete` and aborts the request it names; a request over the limit is answered `error`; any other starts without an answer. |
| WorkerAnswers.LinesExact | components/content/main.ts:255-265 | Cutting the input into lines loses nothing and leaves no line feed in a line. |
| WorkerAnswers.DrainIsRun | components/content/main.ts:258-267 | The framing loop receives each complete line once, in order, and keeps what is unfinished. |
| WorkerTheorems.PersistenceSpared | components/content/main.ts:128-132 | A shutdown, wherever it starts, aborts no persistence request; only a cancellation that names it does. |
| WorkerTheorems.EscapeExact | components/content/main.ts:238-250 | A task escapes the shutdown exactly when it is admitted and what it emits before its first await does not fit the message and output limits. |
| WorkerTheorems.StoreClosesLast | components/content/main.ts:123-138 | In every run without an escape the shutdown waits for every task, and once the store has closed no admitted task is still running. |
| WorkerTheorems.StoreClosesLastExactly | components/content/main.ts:123-138 | A run has an escape exactly when, stopped somewhere and brought to its end without another line, it closes the store over a running task. |
| WorkerTheorems.BacklogExact | components/content/main.ts:181-188 | Of the requests of this code a task escapes in a run exactly when it is a library request whose first frame, checked with the longest id, exceeds what the output limit leaves, and then at least four writes are in flight. |
| WorkerTheorems.EscapeReachable | components/content/main.ts:181-188 | Five library requests of a client that does not read: nothing escapes in the first four, the fifth escapes, and when the output is read and the others settle the store closes while it runs. |
| WorkerTheorems.EscapeOutlivesStore | components/content/main.ts:133-138 | Whatever else is running, a task that escaped can be running when the store is closed. |
| ContentWorker.ContentWorker.Resume | components/content/main.ts:133-138 | Goes on when what it awaits has settled; the invariants hold. |
| ContentWorker.ContentWorker.Emit | components/content/main.ts:239-240 | An event of a request, running or not, goes through send; the invariants hold. |
| ContentWorker.ContentWorker.Bridge | components/content/main.ts:97-99 | The browser bridge sends an event of no request; the invariants hold. |
| ContentWorker.ContentWorker.Done | components/content/main.ts:240-249 | A settled task is no longer pending and is answered once, `complete` if it succeeded and was not aborted and `error` otherwise. |
| ContentWorker.ContentWorker.Receive | components/content/main.ts:210-251 | Refuses invalid and repeated requests, answers a cancellation or an overload at once, and enters any other request after its synchronous part. |
| ContentWorker.ContentWorker.Data | components/content/main.ts:255-270 | The framing loop over the buffered input; the invariants hold after every chunk. |
| Templates.ReplaceVariables | src/app/application.cpp:563-622 | The in-place loop from right to left equals reading the template once from left to right, every known variable standing for its text, for any texts; every index is in range. |
| Templates.ExpandJoins | src/app/application.cpp:565-619 | Parts of a template expand independently unless a variable lies across the cut. |
| Templates.InsertedTextIsFinal | src/app/application.cpp:572-615 | A text that is put in is never scanned again, even if it looks like a variable. |
| Templates.PercentDoesNotEscape | src/app/application.cpp:617-618 | In `%%N` the variable is replaced and the first sign stays. |
| Templates.VariableTable | src/app/application.cpp:570-614 | Each of the thirteen variables stands for its property of the torrent, a missing hash for a dash, and any other letter stays. |
| CommandLine.SerializeParams | src/app/application.cpp:163-200 | The options that are set, in order, then the sources, joined by the separator. |
| CommandLine.ParseParams | src/app/application.cpp:202-260 | The loop over the parts fills the record part by part. |
| CommandLine.OptionsParse | src/app/application.cpp:163-254 | All seven options come back, apart from trailing space of the two texts. |
| CommandLine.RoundTripExact | src/app/application.cpp:163-260 | Parsing what was serialized gives back the parameters exactly when no text contains the separator, path and category have no trailing space, and the sources are not empty, trimmed and not named like an option. |

## Left out

- Resume-record decoding, libtorrent metadata, `RepairFileGuard` and
  `repairPathIdentity`: records and canonical paths are opaque; whether the
  checks before the backup pass is one boolean of a startup, and whether the
  merged store, or the prepared one, verifies is another (`ResumeRecords` models
  that check and the one for torrents that are already there).
- `ResumeRecords.MergedIsExact` takes it that equal identities share a listed
  hash; `NoStrangers` does without.
- `preview()` and the fields that `prepare()` sets in each record.
- The manifest size limit of 16384 bytes and the JSON encodings; hashes and
  encodings are injective functions.
- The store that `storeRecords` writes appears in one step, in `prepare()` and
  in the installation; automatic removal of a temporary directory is all or
  nothing; a directory with a name that is taken counts as a failure.
- The lock file is one boolean; the operating system does not clean the
  temporary directory where a theorem says that the backup is intact.
- Settings values are always valid; a malformed file is one boolean; files of
  the settings store are replaced atomically by QSettings.
- Strings compare by character; the code compares UTF-16 units, which differs
  only above U+FFFF. Lower-casing folds ASCII letters only.
- JSON property order: comparison of works is equality of values.
- Titles, seasons, languages and scores in `results.ts` are uninterpreted
  functions, and so are `animeTorrentEpisode` and the tests of `sameWork`.
  `languageCode` is not idempotent, so nothing is claimed about ranking twice.
- `relevance` and `titleAliases`: they only read the works.
- Network, proxies, cookies, DNS and child processes; `run` of the session
  checks is a task that settles once.
- Qt signals that re-enter the updater; each slot is one step. The installer
  handoff, the text of messages and progress signals.
- Digests and file names of release assets beyond equality; hex decoding.
- UTF-8 decoding of standard input; text is a sequence of characters with their
  encoded sizes. What a request computes is not modelled, only what it emits.
- The order of the microtask queue: a running task may settle at any later time.
  In the code a task that escaped waits for no write, because a closing worker
  makes none, so how late it settles depends on that queue.
- File systems may refuse the long paths of `ImportStuck.WideTree`; its index is
  counted as one byte for each character of a name.
- Command-line help and environment variables; how a path is cleaned is a
  function that neither lengthens nor invents separators.
- SettingsFiles.SaveSucceeds: the result is laid over a `_new` file left by an
  earlier failure, because QSettings loads that file.
- ImportProgress.TwoStartups: needs an intact backup and the limits, because the
  code refuses larger indexes and deeper trees; `ImportLiveness.CrashesThenQuiet`
  shows that no crash takes these away.
