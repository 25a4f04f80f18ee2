# A verified model of the cloud drive

The drive stores each physical file once (`FileInfo`) and lets many logical files (`UserFile`) of many users
point at it. Moving a file to the trash only marks its `UserFile` and adds a `Recycled` record; purging the
record removes the `UserFile`, and also the `FileInfo` when no live `UserFile` points at it, in which case the
owner of the record gets the size back on a limited quota. Files arrive in chunks that concurrent requests
save, count and merge; directories form a tree that is listed page by page and deleted recursively; the
request of an upload waits in an in-memory cache whose entries expire.

The model covers the use cases of `internal/application/file/usecase.go` and
`internal/application/recycled/usecase.go`, and the cache of `pkg/cache/memory.go`. What the repositories
answer is taken from their interfaces and from the adapters in `internal/infrastructure/persistence`.

## How it is built

Each component has a specification (datatypes and functions, one outcome per error return, one fault flag per
write that can fail, whether the code reports the failure or ignores it), an imperative form proved against
it, and lemmas about the specification. `Results`, `DirectoryResults`, `Texts` and the lemmas named Exactly
say what each operation answers and writes in terms of rows and characters alone. Where a natural property is
false of the code there is a witness run and a theorem that says exactly when the property holds.

| concern | specification and proofs | imperative form |
|---|---|---|
| text, 64-bit integers, distinct lists | `Basics`, `Texts` | |
| TTL cache, alone and under concurrent use | `Cache`, `CacheRaces` | class `Cache.MemoryCache` |
| tables, trash, quota | `Storage`, `Results`, `StorageWrites`, `TrashLife`, `Owners`, `EncryptedContent`, `Ledger`, `Retry`, `EmptyTrash`, `RoundTrip`, `StorageWitnesses` | class `DriveUseCase.Drive` |
| directories and listing | `Directory`, `DirectoryResults`, `Listing` | class `DirectoryUseCase.DirectoryService`, methods of `Listing` |
| chunked upload, sequential and interleaved | `Chunks`, `Upload`, `UploadProtocol`, `UploadRace`, `UploadOnce`, `UploadBound`, `UploadResends`, `UploadStatus`, `UploadBursts`, `UploadWitnesses` | class `UploadUseCase.UploadSession` |

A whole use-case call is one step of the tables; only the chunked upload and the two-lock `Get` of the cache
are split further. `UploadProtocol` gives every request a program counter and lets any number of requests take
turns, each turn going well or failing; `Upload.SoloIsUploadChunk` proves that a request running alone, with
any of its failures, does what the sequential model does. Identifiers are drawn from a counter. Row orders,
clocks, the user's root directory, and which operation fails are parameters.

## Where code and comments differ

The model follows the code.

- `internal/domain/file/repository.go:21-23` says of `GetByID` alone that it sees soft-deleted rows, so
  `GetByUserAndUfID` should hide them. The adapter, `internal/infrastructure/persistence/file_repo.go:120-128`,
  has no such filter. The lookup is a parameter of every step (`Storage.Lookup`), so results hold for both
  unless they name one: with the adapter a trashed file can be trashed again, and when nothing fails the trash
  bijection holds exactly when that does not happen (`TrashLife.FailureFreeMismatch`). `StorageWitnesses.RetrashLeaks`
  shows a stored file that is then never removed, and `Owners.RunKeepsNoLeakExactly` says when that happens.
- `internal/application/recycled/usecase.go:38` calls `MoveToRecycled` atomic. When creating the record fails,
  the soft delete stays and the trash no longer matches its records (`StorageWitnesses.TrashedWithoutRecord`);
  `TrashLife.StepKeepsMatchesExactly` says of every use case when its failures do that.
- `internal/infrastructure/persistence/recycled_repo.go:24,103` stores the `UserFile` identifier in the place
  of the record's `FileID`. No use case reads that field of a record. The model keeps the `FileID` that
  `MoveToRecycled` sets and proves it right (`StorageWrites.RunKeepsSafe`); nothing else depends on it.
- `pkg/cache/cache.go:11` says that an expiry of 0 means never; `pkg/cache/memory.go:57-60` makes it 100 years.
  A long TTL wraps around in a 64-bit `Duration` (`Cache.TtlExact`).
- `internal/application/file/usecase.go:214` says that one precheck is merged only once. With re-sends that
  need not be so (`UploadWitnesses.ResendCreatesTwice`). A merge uses up the chunks on disk, so unless their
  removal fails there are never more UserFiles than requests that bring any one chunk
  (`UploadBound.NoMoreFilesThanSenders`), and when nothing fails exactly one is certain if and only if some chunk is sent by a single request
  (`UploadResends.OneFileExactly`).
- `internal/application/file/usecase.go:226` stores the status completed, but a request that comes late can
  overwrite it: with failed when it takes the lock after the merge, with uploading when it stores the progress
  it counted before. For chunks that are sent once each, `UploadStatus.CompletedIsFinalExactly` says when
  completed is final; with re-sends, `UploadStatus.SettledKeepStatus` gives a sufficient condition.
- `internal/application/file/usecase.go:115` describes a whole-file hash comparison for instant upload. No
  upload sets `FileHash`, so it never matches (`StorageWrites.OneHashNeverMatches`).

## Model

| member | source | states |
|---|---|---|
| `Cache.CacheRefinesTimedMap` | pkg/cache/memory.go:37-111 | Over any history of Set, Get, Delete and Clear at non-decreasing times, with sweeps anywhere, every Get answers as a map of values and expiry times that never evicts. |
| `Cache.GetAnswersLastSet` | pkg/cache/memory.go:37-68 | Told from the history alone: a Get is answered with the value last set for its key, if it was not deleted or cleared since and the time is not past its seconds, or 100 years when they are not positive, and with an error otherwise. |
| `Cache.AgreementIsInvisible` | pkg/cache/memory.go:37-111 | The same from any cache whose missing entries have all expired in the timed map. |
| `Cache.EventKeepsAgreement` | pkg/cache/memory.go:37-111 | Each single call or sweep keeps cache and timed map in agreement and answers alike. |
| `Cache.MemoryCache.Get` | pkg/cache/memory.go:37-53 | Hit, missing and expired are told apart, and an expired entry, nothing else, is dropped. |
| `Cache.MemoryCache.Set` | pkg/cache/memory.go:55-68 | Replaces one entry; the new one lives for the wrapped 64-bit TTL, or 100 years when the expiry is not positive. |
| `Cache.MemoryCache.DeleteExpired` | pkg/cache/memory.go:102-111 | The loop removes exactly the entries that are past their time. |
| `Cache.TtlExact` | pkg/cache/memory.go:56-60 | A positive expiry is honoured if and only if it is at most 9223372036 seconds. |
| `CacheRaces.HitLinearizesAtRead` | pkg/cache/memory.go:37-53 | With Get split into its two lock sections and any calls in between, every hit is the unexpired value of the timed map at the moment of the read lock. |
| `CacheRaces.FinishKeepsCompleteExactly` | pkg/cache/memory.go:45-51 | The second lock section loses a live entry if and only if the entry first seen has expired and the one now stored under the key has not. |
| `CacheRaces.OtherTurnsKeepComplete` | pkg/cache/memory.go:37-111 | No other turn loses a live entry. |
| `CacheRaces.AnswerLinearizesAtRead` | pkg/cache/memory.go:37-53 | While no Get has thrown away a live entry, every Get, hit or miss, answers as the timed map did at its read lock, judged by the Get's own clock; a key not found was absent or expired already then. |
| `CacheRaces.CompleteUntilLoss` | pkg/cache/memory.go:37-111 | Over a whole trace the cache holds every live entry of the timed map until a Get throws one away. |
| `CacheRaces.LostSetWitness` | pkg/cache/memory.go:45-51 | A run in which a fresh Set is lost behind a slow Get. |
| `StorageWrites.StepWrites` | internal/application/recycled/usecase.go:40-272 | Every use case, whatever fails in it, is a sequence of single row writes each of which is made under its guard, and only Restore revives a file. |
| `StorageWrites.RunKeepsSafe` | internal/application/file/usecase.go:109-153 | In every run, failures included: an encrypted FileInfo has at most one UserFile, live or trashed; a public UserFile is not encrypted; a record names the user and FileInfo of its UserFile; identifiers are fresh; no FileInfo has a whole-file hash. |
| `StorageWrites.WriteKeepsUnshared` | internal/application/file/usecase.go:111-113 | No single guarded write makes two UserFiles share an encrypted FileInfo. |
| `StorageWrites.OneHashNeverMatches` | internal/application/file/usecase.go:121-126 | From an empty drive, no run leads to a state where a request with one non-empty hash finds a file to share. |
| `StorageWrites.StepKeepsLiveBacked` | internal/application/recycled/usecase.go:232-272 | Every step but Restore, whatever fails in it, keeps every live UserFile's FileInfo in place. |
| `StorageWrites.PurgeSparesLiveFiles` | internal/application/recycled/usecase.go:241-263 | A purge, failing or not, drops a FileInfo only if it is the one of its own record and no live UserFile points at it. |
| `StorageWrites.RestoreKeepsLiveBackedExactly` | internal/application/recycled/usecase.go:123-169 | Restore keeps live files backed if and only if it stops before writing or the FileInfo still exists. |
| `StorageWrites.RunKeepsLiveBackedExactly` | internal/application/recycled/usecase.go:40-272 | Over any run, whatever fails, live files have their FileInfo in every state if and only if every Restore that revives a file finds its FileInfo. |
| `StorageWrites.PurgeRemovesLiveExactly` | internal/application/recycled/usecase.go:232-272 | A purge hard-deletes a live UserFile if and only if its record is for one and neither the count of references nor the delete fails. |
| `StorageWitnesses.LiveFilePurged` | internal/application/recycled/usecase.go:153-169 | With the interface's lookup: a Restore that cannot delete its record, then a purge of that record, removes a live UserFile and leaves its FileInfo without an owner. |
| `StorageWitnesses.DanglingRestore` | internal/application/recycled/usecase.go:123-169 | A failure-free run (two sharers trash, one purges, the other restores) that ends with a live file without FileInfo. |
| `TrashLife.StepKeepsMatchesExactly` | internal/application/recycled/usecase.go:40-272 | Whatever fails, a step keeps Recycled records and trashed UserFiles in one-to-one correspondence, with equal user, if and only if it does not trash a file whose record cannot be created or that is in the trash already, revive or delete a file whose record cannot be deleted, or roll an instant upload back. |
| `TrashLife.RunKeepsMatchesExactly` | internal/application/recycled/usecase.go:40-272 | Over any run, whatever fails, they correspond in every state if and only if no step is one of those. |
| `TrashLife.FailureFreeMismatch` | internal/application/recycled/usecase.go:40-66 | When nothing fails, only trashing a file a second time breaks the correspondence. |
| `StorageWitnesses.TrashedWithoutRecord` | internal/application/recycled/usecase.go:59-64 | A file is soft-deleted and its record cannot be created: it is in the trash and no record is for it. |
| `TrashLife.LiveOnlyRunNeverRetrashes` | internal/domain/file/repository.go:19-27 | With the lookup the interface describes, no run trashes a file twice. |
| `Owners.StepKeepsNoLeak` | internal/application/recycled/usecase.go:241-271 | From a matched trash no failure-free step leaves a FileInfo without a live or trashed UserFile. |
| `Owners.StepKeepsNoLeakExactly` | internal/application/recycled/usecase.go:241-271 | From any state, with either lookup and whatever fails, a step leaves no FileInfo without an owner if and only if it is neither an upload that stores its FileInfo and fails to link it, nor a purge that deletes a live UserFile to whose existing FileInfo no other UserFile refers. |
| `Owners.RunKeepsNoLeakExactly` | internal/application/recycled/usecase.go:40-272 | The same over whole runs, whatever fails, matched trash or not: no state has a FileInfo without an owner if and only if no step is one of those. |
| `Owners.FailureFreeRun` | internal/application/recycled/usecase.go:40-272 | Correspondence, no leak and the safety invariants together, over every failure-free run that trashes nothing twice. |
| `Owners.FailureFreeRunFromEmpty` | internal/application/recycled/usecase.go:40-272 | The same for all failure-free runs from an empty drive with the interface's lookup, without side conditions. |
| `EncryptedContent.EncryptedStaysBacked` | internal/application/recycled/usecase.go:123-169 | In every failure-free run, with either lookup, an encrypted file is stored as long as its UserFile exists, so restoring it never dangles. |
| `EncryptedContent.StepKeepsBackedExactly` | internal/application/recycled/usecase.go:247-268 | Whatever fails, a step keeps an encrypted file for its UserFile if and only if it does not purge that UserFile from the trash and fail between deleting the FileInfo and deleting the UserFile. |
| `EncryptedContent.RunKeepsBackedExactly` | internal/application/recycled/usecase.go:232-272 | The same over any run: the file is stored in every state in which its UserFile exists if and only if no step is such a purge. |
| `StorageWitnesses.EncryptedStranded` | internal/application/recycled/usecase.go:259-268 | A purge of an encrypted file fails at the UserFile after deleting the FileInfo; a restore then leaves it live without content. |
| `StorageWitnesses.RetrashLeaks` | internal/infrastructure/persistence/file_repo.go:120-128 | With the adapter's lookup, trashing twice, restoring once and purging once leaves a FileInfo that no UserFile points at. |
| `Ledger.RunLedger` | internal/application/recycled/usecase.go:311-321 | Over every failure-free run a limited user's free space is its start minus the sizes of the instant uploads plus the sizes of FileInfos dropped by purging the user's records, and never negative. |
| `Ledger.CreditedAtMostOnce` | internal/application/recycled/usecase.go:247-262 | In a failure-free run a step raises a balance by at most the sizes of the FileInfos it drops, and no later step drops any of them again. |
| `Ledger.DroppedAtMostOnce` | internal/application/recycled/usecase.go:258-261 | In any run, failing or not, no two steps drop the same FileInfo. |
| `Ledger.GoneStaysGone` | internal/application/recycled/usecase.go:258-261 | A FileInfo once removed is in no later state of any run. |
| `StorageWitnesses.FreeSpaceExceedsQuota` | internal/application/recycled/usecase.go:311-321 | Upload, trash and purge bring free space above the quota, since uploads do not debit. |
| `Ledger.StepKeepsQuotaExactly` | internal/application/recycled/usecase.go:311-321 | A failure-free step keeps a limited user's free space within the quota if and only if it is not a purge of the user's record that drops a FileInfo larger than what the user has in use. |
| `Ledger.RunKeepsQuotaExactly` | internal/application/recycled/usecase.go:311-321 | Over a failure-free run free space is within the quota in every state if and only if no step is such a purge. |
| `Retry.RetriesConverge` | internal/application/recycled/usecase.go:232-272 | Any number of failed permanent deletes, wherever they fail, followed by one that succeeds leaves the UserFile, FileInfo and Recycled tables as one failure-free call. |
| `Retry.CreditedPerAttempt` | internal/application/recycled/usecase.go:247-262 | Over those attempts the record's limited owner is credited the size once per attempt that reaches a successful refund; no other balance moves. |
| `Retry.PaymentsAreFlags` | internal/application/recycled/usecase.go:241-262 | The number of refunds of any attempts, failing or not, is told from the faults alone when no live file shares the FileInfo before the first, and is 0 otherwise. |
| `Retry.CreditedByFlags` | internal/application/recycled/usecase.go:232-272 | After any attempts the limited owner of an unshared file has been credited its size that often, and no other balance has moved. |
| `Retry.CreditedOnceExactly` | internal/application/recycled/usecase.go:254-261 | Such an owner is credited at most once if and only if at most one attempt up to the first that counts and deletes the FileInfo counts and credits. |
| `Retry.DoubleCreditWitness` | internal/application/recycled/usecase.go:254-261 | A failed FileInfo delete and a retry credit 10 for a file of 5 bytes. |
| `EmptyTrash.EmptyClearsTrash` | internal/application/recycled/usecase.go:184-201 | For at most 10000 records in any order: Empty removes exactly the user's records and trashed UserFiles, exactly the distinct FileInfos behind them with no live reference, and credits the user, if limited, the sum of those sizes once each. |
| `EmptyTrash.EmptyClearsListed` | internal/application/recycled/usecase.go:184-201 | For a trash of any size: Empty removes the listed records, 10000 or all, with their UserFiles and the FileInfos behind them that have no live reference, credits those sizes once each, and leaves the rest of the trash smaller by that many. |
| `EmptyTrash.PurgeAllTables` | internal/application/recycled/usecase.go:191-199 | For any list of distinct records the loop's effect on each table does not depend on their order. |
| `EmptyTrash.PurgeAllCredits` | internal/application/recycled/usecase.go:191-199 | The credits of the loop add up to the sizes of the distinct dropped files, however many records share one. |
| `EmptyTrash.PurgeAllPays` | internal/application/recycled/usecase.go:191-199 | Whoever the records belong to, each dropped FileInfo is paid for once, to the limited owner of the first record in the list that is for it. |
| `EmptyTrash.CleanExpiredClears` | internal/application/recycled/usecase.go:206-222 | Cleaning removes exactly the records older than the limit, their files, and the FileInfos behind them with no live reference, and pays every limited user the sizes of those for which the first record was theirs. |
| `EmptyTrash.PurgeAllIsRun` | internal/application/recycled/usecase.go:191-199 | Empty and CleanExpired, failures included, are runs of single purges, so every result about runs covers them. |
| `EmptyTrash.PurgeAllCounts` | internal/application/recycled/usecase.go:191-199 | Whatever fails, the reported deletions are as many as the records that are gone. |
| `EmptyTrash.EmptyKeepsOrder` | internal/application/recycled/usecase.go:184-201 | Emptying keeps the correspondence, the absence of leaks and the safety invariants. |
| `RoundTrip.TrashRoundTrip` | internal/application/recycled/usecase.go:123-169 | Trashing any set of a user's live files and restoring them in any order puts all four tables back, except that a file whose directory text starts with a positive number that no directory has is now in the root. |
| `RoundTrip.RootIsHome` | internal/application/recycled/usecase.go:138-151 | The root's identifier written by Restore reads back as an existing directory, so a second round trip moves nothing. |
| `Results.RestoreExactly` | internal/application/recycled/usecase.go:123-169 | Who is refused and why, and the row that a restore writes: live, in its directory unless the text starts with a positive number that no directory has, then in the root, and refused without a root; and what each failure leaves. |
| `Results.RestoreByNumber` | internal/application/recycled/usecase.go:138-151 | A file in directory n comes back to n if n is a row, to the root if not, and is refused if there is no root. |
| `Results.RestoredIsSomewhere` | internal/application/recycled/usecase.go:138-151 | With the root in the table, a file restored from a numbered directory is in a directory that exists. |
| `Results.SharedIsTheMatch` | internal/application/file/usecase.go:109-153 | A precheck that is answered with AlreadyDone or adds a row links the caller, under the requested name and directory, to the only FileInfo of that signature and size, which is not encrypted and has the requested three hashes, or one. |
| `Results.PrecheckExactly` | internal/application/file/usecase.go:58-153 | Every answer of a precheck and the rows it writes: refusals for a missing user or lack of space, a link and a debit exactly for such a match, the rollback, and an opened upload otherwise. |
| `Results.UploadExactly` | internal/application/file/usecase.go:262-302 | Field by field, the FileInfo and the UserFile that an upload adds, and what each failure leaves. |
| `Results.TrashExactly` | internal/application/recycled/usecase.go:40-66 | The marked row and the record: caller, file and time; and what each failure leaves. |
| `Results.PurgeExactly` | internal/application/recycled/usecase.go:232-272 | Every table and answer after a purge, wherever it fails: the FileInfo goes and is credited exactly when it exists and no live row refers to it. |
| `Results.MoveExactly` | internal/application/file/usecase.go:621-628 | Only the directory of the caller's row changes, to the requested text. |
| `Results.RenameExactly` | internal/application/file/usecase.go:630-650 | Only the name of the caller's row changes, to the requested one without the blanks at its ends; a blank one is refused. |
| `Results.PublicExactly` | internal/application/file/usecase.go:652-665 | Only the flag of the caller's row changes, to the requested one; it can be set unless the file is encrypted, and always be cleared. |
| `Texts.ScanIntExactly` | internal/application/recycled/usecase.go:139-140 | Scanning reads n exactly from a text of blanks without line ends, an optional sign, digits that spell the 64-bit number n, and then no further digit. |
| `Texts.AtoiExactly` | internal/application/file/usecase.go:396 | Parsing gives n exactly for an optional sign and digits that spell the 64-bit number n. |
| `Texts.TrimExactly` | internal/application/file/usecase.go:631 | Trimming takes away blanks at both ends, and all of them. |
| `DriveUseCase.Drive.SaveUpload` | internal/application/file/usecase.go:342-383 | Writes FileInfo then UserFile; a failure between them leaves the FileInfo alone, which is exactly when a FileInfo is left without an owner. Like each use case of the class it keeps encrypted files unshared, public files plain, and says when live files stay backed and the trash matched. |
| `DriveUseCase.Drive.Precheck` | internal/application/file/usecase.go:58-106 | Answers and writes what `Results.PrecheckExactly` tells, and keeps the invariants; the trash stays matched unless a failed debit is rolled back. |
| `DriveUseCase.Drive.TryInstantUpload` | internal/application/file/usecase.go:109-153 | The part of it that looks for the match, links, debits, and soft-deletes the link when the debit fails, which may fail too. |
| `DriveUseCase.Drive.MoveToRecycled` | internal/application/recycled/usecase.go:40-66 | Marks the row, then adds its record; a failure between them leaves the mark, which is when a first trashing breaks the match of trash and records. |
| `DriveUseCase.Drive.DeleteFiles` | internal/application/file/usecase.go:601-619 | Equals the run of single moves to the trash; successes and failures add up to the number of requests; no FileInfo loses its owner. |
| `DriveUseCase.SuccessesAreRecords` | internal/application/file/usecase.go:601-619 | The reported successes are exactly the records added. |
| `DriveUseCase.Drive.Restore` | internal/application/recycled/usecase.go:123-169 | Answers and writes what `Results.RestoreExactly` tells; live files stay backed if and only if the FileInfo still exists, and the trash matched unless the record of a revived file cannot be deleted. |
| `DriveUseCase.Drive.PermanentlyDelete` | internal/application/recycled/usecase.go:232-272 | Write by write, the purge that the lemmas above are about, with each of its five failures. |
| `DriveUseCase.Drive.DeletePermanently` | internal/application/recycled/usecase.go:175-181 | Another user's record is refused and nothing changes; otherwise live files keep their content, and owners and the match of trash and records are kept under exactly the conditions of the lemmas. |
| `DriveUseCase.Drive.ReturnSpace` | internal/application/recycled/usecase.go:311-321 | Credits only users that exist and have a quota. |
| `DriveUseCase.Drive.Empty` | internal/application/recycled/usecase.go:184-201 | The loop equals the sequence of purges over the listed records; from a matched trash of at most 10000 records, nothing failing, the user's trash ends empty. |
| `DriveUseCase.Drive.CleanExpired` | internal/application/recycled/usecase.go:206-222 | The same over the expired records: from a matched trash, nothing failing, only records younger than the limit remain. |
| `DriveUseCase.Drive.MoveFile` | internal/application/file/usecase.go:621-628 | Changes the directory of the caller's own file and no other row. |
| `DriveUseCase.Drive.RenameFile` | internal/application/file/usecase.go:630-650 | Refuses an empty trimmed name or one found among the first 10000 live siblings; otherwise changes that name only. |
| `Storage.RenameRefusesExactly` | internal/application/file/usecase.go:640-649 | With at most 10000 live files in the directory, a rename goes through if and only if the trimmed name is not empty, the file is found, the write succeeds and no other live file there has the name. |
| `DriveUseCase.Drive.SetPublic` | internal/application/file/usecase.go:652-665 | Refuses to publish a file whose FileInfo is encrypted; otherwise changes that flag only. |
| `Directory.CollectIsSubtree` | internal/application/file/usecase.go:580-592 | The recursive walk collects the directory and all its listed descendants, each once, and nothing else. |
| `DirectoryResults.DeleteDirExactly` | internal/application/file/usecase.go:567-597 | A delete goes through exactly for the caller's own directory that is not the root; refused, nothing changes; the rows that go are the caller's and lie at or below the directory. |
| `DirectoryResults.DeleteDirTakesDescendants` | internal/application/file/usecase.go:580-595 | In one user's directories with at most 10000 children each, the rows that go are exactly the directory and all its descendants, but for those whose own delete fails. |
| `DirectoryResults.MakeDirExactly` | internal/application/file/usecase.go:499-525 | A path of exactly one of the caller's rows is refused; otherwise the one row that is added has the caller, the path and the parent that was named, which must be the number of a row. |
| `DirectoryResults.RenameDirExactly` | internal/application/file/usecase.go:527-565 | Only the path changes, to a slash and the trimmed name; with at most 1000 directories beside it, exactly when it is the caller's, not the root, and none beside it has that path. |
| `Directory.SiblingsShareNothing` | internal/application/file/usecase.go:580-590 | No directory lies below two siblings, since parent links lead to earlier identifiers. |
| `Directory.DeleteKeepsClosedExactly` | internal/application/file/usecase.go:567-597 | Every surviving directory keeps its parent if and only if under each row that was deleted the listing hid no child (another user's, or one beyond 10000) and no child's own delete failed. |
| `Directory.ListingShowsAllExactly` | internal/application/file/usecase.go:583 | One listing shows every child if and only if all children are the user's and at most 10000. |
| `Directory.Run` | internal/application/file/usecase.go:499-597 | In every run of MakeDir, RenameDir and DeleteDir the parent links stay a forest. |
| `Directory.OneUserTreeStaysClosed` | internal/application/file/usecase.go:499-597 | In every run on one user's directories with at most 10000 children each, where no delete below a removed directory fails, all surviving directories keep their parents. |
| `Directory.ForeignChildWitness` | internal/application/file/usecase.go:583 | Another user's directory below a deleted one survives without its parent. |
| `DirectoryUseCase.DirectoryService.MakeDir` | internal/application/file/usecase.go:499-525 | Refuses a path that exactly one row has, a parent that is no number or no directory; otherwise adds one row under a fresh identifier, unless the write fails. The links stay a forest in which every parent exists. |
| `DirectoryUseCase.DirectoryService.RenameDir` | internal/application/file/usecase.go:527-565 | Refuses foreign directories, the root, and a name found among the first 1000 siblings; otherwise changes that path only, unless the write fails. |
| `DirectoryUseCase.DirectoryService.CollectDirs` | internal/application/file/usecase.go:581-590 | Terminates on every forest and returns the walk in order. |
| `DirectoryUseCase.DirectoryService.DeleteDir` | internal/application/file/usecase.go:567-597 | Removes exactly the subtree of the directory, but for the rows whose own delete fails, which it ignores. The links stay a forest, and every parent exists if and only if no child survives a deleted directory. |
| `Listing.ListFiles` | internal/application/file/usecase.go:387-448 | The empty text and "0" list the root, a number the directory of that number, and the answer tells a text that is no number from a missing directory; where live files are backed the page is that directory's slice of folders and files. |
| `Listing.PageIsSliceExactly` | internal/application/file/usecase.go:423-445 | A page shows the slice of folders followed by files that its offset and size call for if and only if each file on it has its FileInfo. |
| `Listing.PagesAreSlices` | internal/application/file/usecase.go:408-445 | Where live files are backed, every page of every directory is that slice and Total is the number of entries. |
| `Listing.ReadingShowsEverything` | internal/application/file/usecase.go:408-445 | Reading pages until they cover Total shows all folders and then all files, in order. |
| `Listing.AllPagesAreEverything` | internal/application/file/usecase.go:412-445 | Consecutive slices that cover a list join up to the list, and every later page is empty. |
| `Listing.ContentsExactly` | internal/application/file/usecase.go:408-410 | What is paged over names each of the user's folders and live files in the directory once, and nothing else. |
| `Listing.ItemsShowRows` | internal/application/file/usecase.go:429-471 | Every item of a page carries what its own rows say: a folder its path, a file its name, size and marks. |
| `Listing.FilesKeepOrder` | internal/application/file/usecase.go:450-452 | Files come in the order in which the repository lists them. |
| `Listing.FoldersKeepOrder` | internal/application/file/usecase.go:428 | Folders come in the order in which the repository lists them. |
| `Listing.FillFiles` | internal/application/file/usecase.go:450-471 | Skips files without FileInfo and keeps the order of the others. |
| `Chunks.TotalChunksIsLeastExactly` | internal/application/file/usecase.go:77 | The announced number of chunks covers the file and no smaller number does, if and only if size + 5 MiB - 1 fits in 64 bits. |
| `Chunks.JoinUndoesCut` | internal/application/file/usecase.go:327-338 | Cutting any content into that many chunks and joining them gives the content back. |
| `Chunks.ChunkSize` | internal/application/file/usecase.go:77 | Each chunk is the next 5 MiB of the file, and the last is the rest, not empty. |
| `UploadProtocol.MergeIsExclusive` | internal/application/file/usecase.go:214-226 | In every reachable state of any number of requests, re-sends and failures included, at most one request per upload is between taking and releasing the merge lock, and the lock is taken exactly then. |
| `UploadProtocol.OnlyHolderReleases` | internal/application/file/usecase.go:215-218 | A lock that becomes free was held by the request that moved. |
| `UploadProtocol.OneFilePerCompletion` | internal/application/file/usecase.go:220-229 | In every finished interleaving, re-sends and failures included, the UserFiles created are as many as the requests told that the upload is complete. |
| `UploadBound.NoMoreFilesThanSenders` | internal/application/file/usecase.go:198-229 | In every run of any requests, whatever fails but the removal of the temp directory, an upload creates no more UserFiles than there are requests that send its chunk i, for each i that all its requests count. |
| `UploadBound.RunKeepsTight` | internal/application/file/usecase.go:327-340 | The invariant behind it: the sweeps, and the chunk if it is on disk, are no more than the requests that have saved that chunk. |
| `UploadOnce.RunKeepsInvariant` | internal/application/file/usecase.go:198-229 | The invariant behind the next row: before the lock is won somebody can still win it, and afterwards the winner's chunks or rows stay as they should. |
| `UploadOnce.ExactlyOneCompletes` | internal/application/file/usecase.go:198-229 | Requests that send each chunk once, nothing failing: in every interleaving where all finish, exactly one completes, one FileInfo and one UserFile exist, the bytes are the chunks in index order, and every later lock winner fails to open chunk 0. |
| `UploadOnce.ConcurrentUploadStoresFile` | internal/application/file/usecase.go:198-229 | Uploading the chunks of any content concurrently stores that content. |
| `UploadResends.SomeoneCompletes` | internal/application/file/usecase.go:198-229 | However often chunks are re-sent, when nothing fails and all requests finish at least one UserFile is created. |
| `UploadResends.EveryFileIsContent` | internal/application/file/usecase.go:327-346 | Whatever is re-sent and whatever fails, short of a chunk written in part, every FileInfo created holds the chunks in index order and the size of the precheck. |
| `UploadResends.TwoRoundsTwoFiles` | internal/application/file/usecase.go:214-229 | When every chunk has two senders, some failure-free interleaving creates two UserFiles. |
| `UploadResends.OneFileExactly` | internal/application/file/usecase.go:198-229 | Requests that send every chunk at least once, nothing failing: every finished interleaving creates exactly one UserFile if and only if some chunk is sent by a single request. |
| `UploadStatus.CompletedIsFinalExactly` | internal/application/file/usecase.go:208-226 | Each chunk sent once, nothing failing, the winner done and the status completed: it stays completed in every continuation if and only if each other request is done, releasing the lock, or about to stop because it counted too few chunks. |
| `UploadStatus.SettledKeepStatus` | internal/application/file/usecase.go:208-226 | Once all requests are in such a place, not even failures change the status. |
| `Upload.CallsCreateAtMostOne` | internal/application/file/usecase.go:158-303 | Over any sequence of calls on one precheck, chunks, whole files and re-sends mixed and any write failing but the drop of the cached request, at most one UserFile is created. |
| `Upload.CompletionIsLastExactly` | internal/application/file/usecase.go:226-229 | After a completing call no later calls, failing or not, create another UserFile if and only if dropping the cached request has succeeded. |
| `Upload.WholeStoresBytes` | internal/application/file/usecase.go:232-303 | A whole-file call that completes stores exactly the bytes that were sent, with their length. |
| `Upload.EverythingStoredWasSent` | internal/application/file/usecase.go:158-381 | Over any sequence of calls, whatever fails, every FileInfo added is the data of one whole-file call with its length, or the chunks on disk at one chunk call joined in index order with the size of the precheck. |
| `Upload.PartialTellsCount` | internal/application/file/usecase.go:204-217 | A saved chunk is answered with how many chunks are there exactly when some are missing or the lock is taken. |
| `Upload.CallLeaves` | internal/application/file/usecase.go:158-303 | What a call leaves of the cached request, the temp directory, the lock and the status, for each answer and failure. |
| `Upload.SendAll` | internal/application/file/usecase.go:158-230 | Chunks sent one after another in any order, re-sent at will before the last missing one, are merged once, in index order. |
| `Upload.SplitSendMerge` | internal/application/file/usecase.go:327-346 | Cutting, sending in any such order and merging gives the content back with its length as the recorded size. |
| `Upload.AllPresent` | internal/application/file/usecase.go:777-785 | The count reaches the total if and only if every chunk from 0 on is there and can be seen. |
| `Upload.CopiedExactly` | internal/application/file/usecase.go:327-338 | Copying succeeds if and only if every chunk is there and no copy fails, and then yields the chunks in index order. |
| `Upload.SoloIsUploadChunk` | internal/application/file/usecase.go:158-230 | A request of the interleaved protocol that runs alone, its turns failing as the call's faults say, does exactly what the sequential call does. |
| `UploadUseCase.UploadSession.UploadChunk` | internal/application/file/usecase.go:158-184 | An expired session changes nothing; otherwise the chunk or whole-file call, with each of its failures. A UserFile is created exactly by a call that completes, and at most one as long as dropping the cached request succeeds. |
| `UploadUseCase.UploadSession.HandleChunk` | internal/application/file/usecase.go:186-230 | Saves before counting, merges only when every chunk is seen and the lock is free, and records the outcome in the status; failed status updates and failed looks at a chunk are ignored as in the code. |
| `UploadUseCase.UploadSession.MergeUnderLock` | internal/application/file/usecase.go:214-229 | Holds the lock for the whole merge and gives it back on success and on failure. |
| `UploadUseCase.UploadSession.CountChunks` | internal/application/file/usecase.go:777-785 | The loop counts the indices below the total that have a chunk and can be seen, none when the total is not positive. |
| `UploadUseCase.UploadSession.MergeAndSave` | internal/application/file/usecase.go:306-383 | Stores the chunks joined in index order with the precheck's size; stops at the first chunk that is missing or cannot be copied; a failure leaves what had been written before it. |
| `UploadUseCase.UploadSession.HandleSingleFile` | internal/application/file/usecase.go:232-303 | Stores the sent bytes with their own length (`Upload.WholeStoresBytes`) and removes the temp directory once the file has been moved, also when a row cannot be written. |
| `UploadWitnesses.CompletedIsNotFinal` | internal/application/file/usecase.go:222 | A failure-free run in which a late lock winner turns the status from completed to failed; `UploadStatus.CompletedIsFinalExactly` has the exact condition. |
| `UploadWitnesses.LateProgressOverwrites` | internal/application/file/usecase.go:205-208 | A failure-free run in which all requests finish, the file is stored, and a late progress update leaves the status at uploading. |
| `UploadWitnesses.ResendCreatesTwice` | internal/application/file/usecase.go:214-229 | A failure-free run in which the only chunk, sent twice at the same time, makes two UserFiles; `UploadResends.OneFileExactly` has the exact condition. |

## Left out

- Two use-case calls that interleave on the tables: a whole call is one step, so lost updates of a user's free space are not modelled.
- `saveToFile` as two steps: a chunk is written whole, fails, or fails leaving a part; a reader never sees it half-written otherwise.
- Whole-file requests in the interleaved protocol: they occur in the sequential model only; removing the temp directory is one step in both.
- What a late overwrite does to the status of an upload with re-sent chunks: the exact condition is proved for chunks sent once each; uploads with re-sends have the bounds on what is created and its content.
- Temp-directory names, path sanitizing, and two uploads that would share a directory: each precheck has its own chunk files.
- Physical files on disk after the merge, `deletePhysical`, and the clean-up of empty directories.
- A read that fails for another reason than a missing row, except the reference count and the look at a chunk, which may fail. Listing queries and counts of pages do not fail.
- The JSON form of the cached request, and its expiry by time: a request whose entry has expired is one whose first step fails.
- Upload-task rows beyond their status: progress numbers, listing, renewing and deleting tasks.
- MIME types, paths, thumbnails, timestamps other than expiry and the age of trash records.
- Listing the trash (`List`, `buildItem`), breadcrumbs, searching and public listings.
- Page offsets, free space and file sizes as 64-bit integers: they are unbounded here; page numbers and sizes are positive, as the request binding demands.
- `Directory.OneUserTreeStaysClosed`: says nothing of trees that mix users or of failed deletes; `Directory.DeleteKeepsClosedExactly` gives the exact condition for one deletion.
- Which parentless directory `GetRoot` returns when a user has several: the answer is a parameter.
- Creating and changing users, sign-in, HTTP handlers, the Redis cache, the background goroutine and its stop signal: a sweep is a step that may come at any time, with its clock read at its lock.
- The moment between a `Get` judging its entry and taking its second lock: an entry that had expired at the former has expired at the latter, so the two are one turn.
- Blanks outside ASCII in trimmed names and scanned directory texts.
