# Verified model of the Janitor's archive, queue and log handling

The Janitor runs code changes over many codebases, builds them, and publishes the
results. This project models the parts of it where state, failure and interleaving
meet, and proves what they guarantee:

- **Publishing an APT repository.** `Filesystem` is a tree of files with modification
  times, in which every operation may fail. `AsyncRepository` stages all indices in
  temporary files, copies them by hash, prunes, renames and writes Release;
  `SyncRepository` is the simple generator that writes in place; `Contents` and
  `ContentsGenerator` add the Contents indices and splice them into Release; `Archive`
  puts the steps together, and `Layout` says path by path and line by line what clients
  then find. `Release` is the checksum merging and splitting, `ByHash` the
  least-recently-written theory of by-hash directories, `Attempts` what becomes of a
  directory when generations fail, `Retention`, `ContentsRetention` and `Fetching` what that
  means for clients over any attempts and over whole series of publications; `Publishing`
  publishes again and again and ends up with all of that. `Refinement` compares the two
  generators.
  `Scenarios` shows that there are such series for any inputs, and `Counterexamples` has
  the ones in which a file that a client may look for is missing.
- **The republish job manager.** `JobProtocol` is a state machine over the critical
  sections of triggers, tasks and cleanups; `JobManager` is the class whose methods each
  do one step of it; `Campaigns` is what the trigger of a campaign answers in its runs. `FanOut` is the bounded generation of several repositories.
- **The build queue and the scheduler.** `Queue` is the table with its upsert and its
  ordered queries, `Estimate` the success estimate and the offset, `Schedule` the
  scheduling of one item, of a batch, and by hand.
- **Log migration.** `LogMigration` moves logs between two stores while several runs are
  worked on and everything may stop anywhere.
- **Debdiffs, the scan cache and the Contents text.** `Debdiff`, `ScanCache` and
  `ContentsIndex`.

`dafny verify dfyconfig.toml` checks everything.

## Conventions

- Hash functions, compressors, the providers of index contents, regular expressions, the
  JSON encoding of listings, and what the database averages are parameters, so the
  theorems hold for any of them. deb822 text and gzip are lossless. Floating-point
  numbers are reals.
- Whether an operation on a disk, a store or a cache succeeds is not determined, and one
  that fails may or may not have taken effect. A ghost flag `failed` records that one did,
  so that contracts can say that nothing else makes a method fail.
- Components, architectures, compressions and hash algorithms are listed once each;
  components and architectures contain no slash, and no architecture is another one with
  `.gz` appended. No two files of a tree have the same modification time.
- A database statement has as many parameters as its largest placeholder says, and is
  executed if exactly these are bound. A condition on a missing value is neither true nor
  false.
- Queue tables are maps from (codebase, campaign, change set), where no change set and an
  empty one are the same, as in the unique index of the schema.

## Where the code does not do what one may expect

Each of these is a theorem, with the condition under which the expectation does hold.

- All architectures of a component share one by-hash directory for their Contents files,
  and every one of them is pruned to four times the number of compressions. So the
  Contents of the last *g* publications stay fetchable if and only if twice the number of
  binary architectures times *g* fits into that count (`Retention.ContentsKept`,
  `Retention.ContentsLost`; `Counterexamples.ContentsAreLost` is an instance).
- Generations that fail use up the by-hash directories as well, because every attempt
  copies and prunes before it renames. A published index stays fetchable for as long as
  the names written since, those of failed attempts included, fit into the keep count and
  no copy under its name was broken, and no longer than that once an attempt has got
  through the directory (`Retention.StillFetchable`). Four failed attempts can evict the
  index that is in place (`Counterexamples.FailuresEvict`), and one copy that breaks off
  can damage it (`Counterexamples.BrokenCopyDamages`). The same holds for Contents
  (`ContentsRetention.ContentsStillFetchable`). Once an attempt succeeds, everything that its
  Release lists can be fetched again (`Fetching.LatestReleaseFetchable`).
- Without any hash algorithm Release lists nothing (`Archive.ListedIffHashed`).
- A batch that goes into an empty queue is ordered by offset only if its first request
  has the smallest one, because the first row is what the others are relative to
  (`Schedule.EmptyQueueOrder`, `Schedule.EmptyQueueOutOfOrder`).
- The offset can fall when the duration grows by less than a second, because the
  microseconds are counted twice (`Estimate.OffsetCanFall`).
- `next_item` makes a statement that can be executed if and only if its filters are the
  first ones of assigned items, codebase, campaign, hosts, because its placeholders are
  numbered but its values are bound in order (`Queue.ExecutableIffWellBound`); a codebase
  alone does not work (`Queue.CodebaseAlone`). A row whose address has no host is dropped as
  soon as any host is excluded (`Queue.HostCondition`).
- A log that is stored compressed and plain with different contents is overwritten by the
  second look at it, within one attempt or in the next (`LogMigration.ReliableIffMovable`).
- A debdiff section with an empty title, which two empty lines in a row make, does not
  survive printing and parsing, unless it is the first, or the last and has no lines
  (`Debdiff.RoundTrip`, `Debdiff.TwoEmptyLines`).
- A cache file that was cut short gives a wrong package or source list for as long as it
  is there; a Contents listing gives an error instead (`ScanCache.Scanner`).
- Two triggers of one repository that overlap can start two tasks
  (`JobProtocol.OverlappingTriggersRace`, `JobProtocol.OverlapLeadsToRace`).

## Model

| member | source | states |
|---|---|---|
| `Release.FromStr` | apt-repository/src/release.rs:147-191 | the four merging loops compute the merge of all checksum lists, in their order |
| `Release.RoundTrip` | apt-repository/src/release.rs:202-284 | writing and parsing gives back each file with a hash, with path, size and all hashes, in order of first mention, and nothing else; the plain fields stay |
| `Release.RoundTripExact` | apt-repository/src/release.rs:147-284 | exactly the same records in the same order if and only if every file has a hash and first-mentioning lists do not go back |
| `Release.RoundTripSameAlgorithms` | apt-repository/src/release.rs:147-284 | the order is restored when all files carry the same algorithms |
| `Release.ParsedIsCovered` | apt-repository/src/release.rs:202-267 | a parsed Release with added files is written without stale checksum lists |
| `Release.ParsedRecords` | apt-repository/src/release.rs:147-191 | for any lists whatever: one record for each mentioned file, in the order of first mentions with the lists read as MD5Sum, SHA1, SHA256, SHA512, with the size of its first line and the hash of the last line of each algorithm |
| `Release.LinesOfFiles` | apt-repository/src/release.rs:202-284 | the list of an algorithm has a line for each file with that hash, in the order of the files, and no other |
| `Layout.PublishedHasIndices` | apt-repository/src/async_repository.rs:62-170 | a generation leaves, for every component, architecture and compression, the file `Packages`, `Packages.gz` or `Packages.bz2` (and `Sources` likewise) with exactly what the compressor makes of what the provider gives, a line for it in the list of every algorithm, and the configured plain fields |
| `Layout.PublishedHasCopies` | apt-repository/src/async_repository.rs:216-238 | and, when all forms fit into the keep count, a copy with the right hash at `by-hash/MD5Sum`, `SHA1`, `SHA256` and `SHA512` for each of them |
| `Layout.MadeContents` | archive/src/repository.rs:545-581 | the same for `Contents-<arch>` and its gzipped form |
| `ByHashUpdate.CopyIsThere` | apt-repository/src/async_repository.rs:224-234 | a copy that was just made is at `by-hash/<algorithm>/<hash>` under its own algorithm |
| `Filesystem.Disk.Write` | apt-repository/src/async_repository.rs:168-170 | a write that fails may leave anything at its path, and nothing else changes |
| `Filesystem.Disk.Copy` | apt-repository/src/async_repository.rs:230-234 | a copy gives the target the source's content and a new time; a failed one may leave anything there |
| `Paths.RenderInjective` | apt-repository/src/async_repository.rs:93-104 | different paths are listed under different names in Release |
| `ByHash.PruningLeavesMostRecent` | apt-repository/src/async_repository.rs:241-276 | whatever writes, prunings and broken prunings came before, a successful pruning leaves exactly the `keep` most recently written distinct files |
| `ByHash.MostRecentUnique` | apt-repository/src/async_repository.rs:241-276 | the history alone determines that set and its order |
| `ByHash.RecentWritesKept` | apt-repository/src/async_repository.rs:241-276 | each of the last `keep` writes is still there, with the content last written |
| `ByHash.OlderWritesGone` | apt-repository/src/async_repository.rs:241-276 | and no more than those, when names do not repeat |
| `ByHashDirectory.ListDirectory` | apt-repository/src/async_repository.rs:241-276 | reading and sorting a directory gives its files, newest first |
| `ByHashDirectory.PruneDirectory` | apt-repository/src/async_repository.rs:241-276 | the newest `keep` files stay; a failure leaves those and some of the oldest; other directories are untouched |
| `ByHashDirectory.DirAfterWrite` | apt-repository/src/async_repository.rs:216-238 | a copy makes its file the newest of the directory |
| `ByHashUpdate.CreateByHashLinks` | apt-repository/src/async_repository.rs:216-238 | every file of an index is copied to `by-hash/<algorithm>/<hash>` for every algorithm; nothing outside the by-hash directories changes |
| `ByHashUpdate.CleanupByHashFiles` | apt-repository/src/repository.rs:219-247 | every algorithm's directory is pruned to the keep count |
| `ByHashUpdate.UpdateByHash` | apt-repository/src/async_repository.rs:106-114 | copying and pruning together; a failure leaves at most one directory between two states, with the first copies (the last possibly broken) or partly pruned: the algorithms before it are through with the step, those after it have not begun it; pruning needs all copies and a configured keep count |
| `AsyncRepository.WriteCompressedFile` | apt-repository/src/async_repository.rs:178-212 | on success new temporary files hold every compressed form and the records describe them; on failure the tree is as it was |
| `AsyncRepository.StageIndex` | apt-repository/src/async_repository.rs:76-120 | one index up to its renaming; a failure leaves no temporary file |
| `AsyncRepository.StageAll` | apt-repository/src/async_repository.rs:62-162 | all targets are staged with their records in order, or everything but by-hash files is rolled back |
| `AsyncRepository.RenameAll` | apt-repository/src/async_repository.rs:164-166 | the renames up to a failure have replaced their indices, and no temporary file is left |
| `AsyncRepository.GenerateRepository` | apt-repository/src/async_repository.rs:25-173 | failure atomicity at every stage, no renaming before all providers and compressors have succeeded, on success the published tree, and failure only when an operation, a provider or a compressor fails; when staging stops at a target, the by-hash directories of the targets before it are complete, its own as a failed update leaves them, and later ones untouched; past staging all are complete; after success every index file is at its path with the compressed bytes of the provider, and listed |
| `SyncRepository.GenerateRepository` | apt-repository/src/repository.rs:46-157 | on success the same published tree as the asynchronous generator's, and the same files path by path; failure only when something it uses fails |
| `SyncRepository.GenerateIndex` | apt-repository/src/repository.rs:87-119 | an index in place with its by-hash copies, and nothing else changed |
| `Refinement.GenerationIsDetermined` | apt-repository/src/async_repository.rs:25-173 | the asynchronous generator refines the synchronous one: same indices, same Release, same by-hash files in the same order |
| `Refinement.SameByHashFiles` | apt-repository/src/repository.rs:192-247 | the same for each by-hash file by its name |
| `Indices.FilesAreDistinct` | apt-repository/src/async_repository.rs:68-162 | no two index files of a generation have the same path |
| `Indices.LoopPosition` | apt-repository/src/async_repository.rs:68-162 | the nested loops go through the targets in one fixed order |
| `Contents.ContentsFilesDistinct` | archive/src/repository.rs:518-599 | no two Contents files have the same path |
| `ContentsGenerator.WriteByHash` | archive/src/repository.rs:128-145 | the bytes become the newest file of every algorithm's directory |
| `ContentsGenerator.GenerateOne` | archive/src/repository.rs:519-598 | one component and architecture: both files in place, their records, the shared by-hash directory copied to and pruned |
| `ContentsGenerator.GenerateFiles` | archive/src/repository.rs:516-599 | all Contents files and records; Release untouched |
| `ContentsGenerator.GenerateContents` | archive/src/repository.rs:500-621 | Release parsed, extended and rewritten; on every outcome only Contents files, their by-hash directories and Release have changed, the directories are as after the jobs before the failure, with as much of the failing job as was copied, and until the rewriting starts, which is after all jobs, Release is as it was; on success all Contents files are there and listed, with what the scan and gzip give, and the plain fields are as before |
| `Archive.SplicedRecords` | archive/src/repository.rs:601-619 | writing, parsing, adding and writing again loses no record |
| `Archive.ListedIffHashed` | apt-repository/src/release.rs:202-267 | Release lists the indices if and only if an algorithm is configured |
| `Archive.PublicationAgrees` | archive/src/repository.rs:500-621 | Release lists exactly the Packages, Sources and Contents files of all components, architectures and compressions, each once, with the size and hashes of the bytes on disk |
| `Archive.GenerateRepository` | archive/src/repository.rs:257-375 | generation and splice leave a tree in which Release and disk agree, and all index and Contents files are at their paths with the right bytes and listed, with the plain fields, unless something they use fails; a failure leaves the tree that the stage it reached allows, with what was copied by then in the by-hash directories |
| `Archive.SplicedHasIndices` | archive/src/repository.rs:601-619 | the splice keeps all index files, their lines and the plain fields |
| `Archive.ContentsPassKeepsIndices` | archive/src/repository.rs:500-621 | a Contents pass, wherever it stops, leaves the indices and their by-hash files alone, and Release until its rewriting |
| `Archive.IndicesSurvive` | archive/src/repository.rs:257-375 | a publication that fails in its Contents pass has all new indices in place |
| `Attempts.LogTracks` | apt-repository/src/async_repository.rs:216-276 | after any attempts, each a run of writes and prunings that stopped anywhere, a directory misses no file that is among the `keep` most recently written ones, and holds only these when the last attempt ended with a pruning |
| `Attempts.RecordTracks` | apt-repository/src/async_repository.rs:216-276 | the same for attempts that write their batch and prune once |
| `Attempts.ThereIfFits` | apt-repository/src/async_repository.rs:241-276 | a file is there at any time while no more than `keep` names have been written since its own last write |
| `Attempts.ThereIffFits` | apt-repository/src/async_repository.rs:241-276 | and only while, after a pruning |
| `Retention.IndexDirectoryIsMostRecent` | apt-repository/src/async_repository.rs:216-276 | over any series of publications a by-hash directory holds exactly the most recently written files |
| `Retention.AttemptsAreRecorded` | apt-repository/src/async_repository.rs:106-155 | for any attempts, each with any outcome, there is a record of what each wrote: the first files of its own batch, the last possibly broken; all of it when the attempt got through the directory |
| `Retention.SurvivesFailures` | apt-repository/src/async_repository.rs:25-276 | for any such record, the directory misses none of the most recently written files of the whole record, and holds exactly these when the last attempt got through |
| `Retention.LastGeneration` | apt-repository/src/async_repository.rs:25-173 | a generation that publishes gets through every directory of its indices |
| `Retention.StagedGetsThrough` | apt-repository/src/async_repository.rs:62-170 | so does one that fails in renaming or in writing Release |
| `Retention.StillFetchable` | apt-repository/src/async_repository.rs:216-276 | a file of attempt `k` can be fetched if the names written since fit into the keep count and its last copy is not broken; and only then, when the last attempt got through |
| `Retention.FetchableWhileFewWrites` | apt-repository/src/async_repository.rs:216-276 | the same in numbers: while the writes from its attempt on fit into the keep count and no later copy under its name is broken |
| `Retention.LastFourAttemptsFetchable` | archive/src/repository.rs:293-299 | with the archive's keep count that covers the last four attempts, failed ones included |
| `Counterexamples.FailuresEvict` | apt-repository/src/async_repository.rs:106-155 | four failed attempts leave Release and the published index as they were, and its by-hash copy gone |
| `Counterexamples.BrokenCopyDamages` | apt-repository/src/async_repository.rs:230-234 | one failed attempt with the same bytes leaves a broken by-hash copy of the published index |
| `Retention.IndexFilesKept` | apt-repository/src/async_repository.rs:241-276 | every index file of the last `g` publications can be fetched by its hash, and has that hash, when `g` times the compressions fit into the keep count |
| `Retention.LastFourPublicationsFetchable` | archive/src/repository.rs:293-299 | with the archive's keep count, these are the last four |
| `Retention.IndexFilesLost` | apt-repository/src/async_repository.rs:241-276 | and no more: the first file of the publication `g` from the end is gone when `g` times the compressions do not fit |
| `Retention.FifthPublicationIsGone` | archive/src/repository.rs:293-299 | with the archive's keep count, the fifth from the end is gone |
| `Retention.ContentsKept` | archive/src/repository.rs:584-597 | every Contents file of the last `g` publications can be fetched by its hash, and has that hash, if their writes fit into the keep count |
| `ContentsRetention.ContentsAreLogged` | archive/src/repository.rs:516-599 | for any attempts there is a record of what each wrote into the directory of a component: the Contents of the architectures it got through, and the first copies of the next; all of them when it got through |
| `ContentsRetention.ContentsSurviveFailures` | archive/src/repository.rs:584-597 | for any such record, the directory misses none of the most recently written files, and holds exactly these when the last attempt got through |
| `ContentsRetention.ContentsStillFetchable` | archive/src/repository.rs:584-597 | a Contents file of attempt `k` can be fetched if the names written since fit into the keep count and its last copy is not broken; and only then, when the last attempt got through |
| `ContentsRetention.LastAttemptsFetchable` | archive/src/repository.rs:584-597 | those of the last `g` attempts can be fetched, failed attempts included, when their writes fit and no later copy is broken |
| `Retention.ContentsLost` | archive/src/repository.rs:584-597 | and only if: otherwise the first file of the oldest of them is gone |
| `Counterexamples.ContentsAreLost` | archive/src/repository.rs:584-597 | with two architectures and no compression beside the plain form, the second publication evicts the first one's Contents |
| `Fetching.LatestReleaseFetchable` | archive/src/repository.rs:257-375 | after any attempts, whatever came of them, of which the last succeeded, every entry of Release can be fetched at `<directory>/by-hash/<algorithm>/<hash>` by each of its hashes, each under its own algorithm, when the compressions and the Contents files of one publication each fit into the keep count |
| `Fetching.CurrentReleaseFetchable` | archive/src/repository.rs:257-375 | so after any series of publications |
| `Publishing.PublishAll` | archive/src/repository.rs:257-375 | publishing any inputs one after the other gives attempts to which all of that applies, a series if none fails, and an entirely fetchable Release whenever the last one succeeded |
| `Scenarios.GenerationPossible` | apt-repository/src/async_repository.rs:25-173 | from any tree, any inputs that are available have a published tree |
| `Scenarios.SplicePossible` | archive/src/repository.rs:500-621 | to any tree with a Release, any Contents that are available can be added |
| `Scenarios.SeriesPossible` | archive/src/repository.rs:257-375 | for any inputs that are available there is a series of publications of them |
| `JobProtocol.BookkeepingAlways` | archive/src/manager.rs:349-541 | in every reachable state no job id occurs twice, the history has at most 100 jobs, all completed or failed |
| `JobProtocol.StatisticsAddUp` | archive/src/manager.rs:608-637 | completed plus failed is the length of the history, in every reachable state |
| `JobProtocol.HistoryExplained` | archive/src/manager.rs:405-434 | in every reachable state, each job of the history was taken out of the active ones by its task, and is completed or failed as that recorded, or by a cleanup, and is completed |
| `JobProtocol.FailedHasError` | archive/src/manager.rs:418-421 | a failed job has the error that its task recorded |
| `JobProtocol.SingleFlight` | archive/src/manager.rs:349-447 | if triggers of a repository do not overlap, at most one live task per repository, and a trigger during it gets its job id |
| `JobProtocol.OverlappingTriggersRace` | archive/src/manager.rs:357-444 | without that condition two tasks of a repository can be live |
| `JobProtocol.OverlapLeadsToRace` | archive/src/manager.rs:357-444 | from any reachable state in which two triggers of a repository are past the check, two live tasks are two steps away |
| `JobManager.GeneratorManager.Check` | archive/src/manager.rs:356-365 | the first critical section of a trigger is one step of the protocol |
| `JobManager.GeneratorManager.Spawn` | archive/src/manager.rs:386-437 | making a running job with a new id and spawning its task is one step |
| `JobManager.GeneratorManager.Insert` | archive/src/manager.rs:439-446 | storing the job is one step, replacing whatever was there |
| `JobManager.GeneratorManager.TriggerRepository` | archive/src/manager.rs:349-447 | an uninterrupted trigger answers with the running job or starts exactly one |
| `JobManager.GeneratorManager.TriggerCampaign` | archive/src/manager.rs:282-323 | when nothing comes in between, every repository of a campaign ends up with the running job whose id is returned; others are untouched |
| `Campaigns.TriggerAnswer` | archive/src/manager.rs:349-447 | with anything in between, a trigger answers with the job that was running at its check, or with a new one that is its repository's when it returns |
| `Campaigns.CampaignAnswers` | archive/src/manager.rs:282-323 | so for each repository of a campaign, and the new jobs are all different |
| `JobManager.GeneratorManager.RecordResult` | archive/src/manager.rs:405-434 | a task's end moves its repository's entry to the end of the history, completed without an error and failed with its message, and the oldest of 100 goes |
| `JobManager.GeneratorManager.CancelJob` | archive/src/manager.rs:490-502 | found if and only if an active job has the id |
| `JobManager.GeneratorManager.CleanupFinishedJobs` | archive/src/manager.rs:505-541 | exactly the jobs with a finished handle move to the history, completed, and are counted; the last 100 are kept |
| `JobManager.GeneratorManager.GetJobInfo` | archive/src/manager.rs:465-487 | the one job with the id, running if and only if it is active |
| `JobManager.GeneratorManager.GetStatistics` | archive/src/manager.rs:608-637 | the counters of one state are the numbers of jobs, and add up |
| `FanOut.GenerateRepositories` | archive/src/repository.rs:378-444 | in any completion order each repository is started and finished once, no more than max(1, limit) are started and unfinished, there is an error if and only if one fails, and it has their number |
| `FanOut.Finish` | archive/src/repository.rs:405-419 | waiting for any one task keeps that account |
| `FanOut.InFlightIs` | archive/src/repository.rs:405-419 | in flight are those that are started and not finished |
| `Queue.Queue.Add` | src/queue.rs:184-219 | the upsert: smallest priority plus truncated offset, the stronger bucket, the first id |
| `Queue.TruncateTowardsZero` | src/queue.rs:205-211 | the offset loses less than one, towards zero, and saturates at 64 bits |
| `Queue.BucketsInOrder` | schema/state.sql:153-154 | rows are ordered by bucket, in the order of the type, then priority, then id |
| `Queue.ListedByBucket` | schema/state.sql:153-154 | so in any listing a row of a stronger bucket comes first |
| `Queue.AddKeepsValid` | schema/state.sql:153-171 | ids stay unique and priorities in range |
| `Queue.UpsertFold` | src/queue.rs:184-219 | after any calls a key has one row if and only if a call for it was accepted: the first one's id, the strongest bucket, the payload and priority of the last with it |
| `Queue.DefaultOffsetGoesFirst` | src/queue.rs:197-208 | an accepted call with offset -1 precedes every other row of its bucket, if it keeps its bucket |
| `Queue.ExecutableIffWellBound` | src/queue.rs:127-169 | the statement, with the placeholders and the bound values as they are pushed, can be executed if and only if no filter is left out before one that is given |
| `Queue.CodebaseAlone` | src/queue.rs:131-156 | with a codebase alone it has two parameters and one value |
| `Queue.WhereSelects` | src/queue.rs:127-146 | in three-valued logic, its conditions are true of the rows that the filters ask for and of no others |
| `Queue.HostCondition` | src/queue.rs:139-143 | the host condition is true for a codebase without an address, and unknown exactly for an address without a host when a host is excluded |
| `Queue.Queue.NextItem` | src/queue.rs:109-182 | building and executing the statement gives the first row that passes the filters, which is not among the assigned ones, of the codebase, of the campaign and of no excluded host, or is rejected if and only if a filter is left out before one that is given |
| `Queue.Queue.IterQueue` | src/queue.rs:226-262 | all rows of a campaign in order, cut at the limit |
| `Queue.DrainFollowsListing` | src/queue.rs:109-182 | with what was handed out as assigned, the n-th answer is the n-th row of the listing, and then none |
| `Queue.DrainIsListing` | src/queue.rs:226-262 | any complete sequence of such answers is the listing |
| `Estimate.MonthsAndYears` | src/schedule.rs:136-141 | a month is 30 days and a year 365, backwards too |
| `Estimate.MonthByMonth` | src/schedule.rs:136-141 | every twelfth month makes up for the year |
| `Estimate.SecondsRoundTrip` | src/schedule.rs:143-159 | whole microseconds survive the conversion to seconds and back |
| `Estimate.DurationRounds` | src/schedule.rs:154-159 | fractions are rounded to the nearest microsecond |
| `Estimate.TiesToEven` | src/schedule.rs:154-159 | and to the even one half-way |
| `Estimate.NonNegativeDuration` | src/schedule.rs:136-141 | intervals that are not negative give durations that are not |
| `Estimate.EstimateSuccess` | src/schedule.rs:183-308 | the loop computes probability, duration and number of counted runs |
| `Estimate.OldWorkerFailureIgnored` | src/schedule.rs:204-212 | a worker failure that is at least a day old leaves the counted runs as they were, and no other run does |
| `Estimate.ProbabilityIs` | src/schedule.rs:189-308 | ten times the successes and one over ten times the runs and one, times a half without a context and a tenth when a run had it; one without runs |
| `Estimate.SingleRun` | src/schedule.rs:189-308 | one success without a context gives a half |
| `Estimate.DurationIs` | src/schedule.rs:282-301 | the mean of the durations, or else the averages in turn, or 15 seconds |
| `Estimate.ProbabilityInRange` | src/schedule.rs:189-308 | for every history the probability is positive and at most one |
| `Estimate.EstimateNotNegative` | src/schedule.rs:282-301 | the estimated duration is not negative, so that assertion cannot fail |
| `Estimate.OffsetExists` | src/schedule.rs:315-379 | the assertions hold if and only if the candidate's value is positive, and then the offset is |
| `Estimate.OffsetIs` | src/schedule.rs:315-379 | 20 seconds and the duration, in milliseconds, over the estimated value; 100 more for a first run |
| `Estimate.EstimatedIs` | src/schedule.rs:324-364 | the product of codebase value (0.5 by default, at least 0.1), probability and candidate value |
| `Estimate.OffsetGrowsWithDuration` | src/schedule.rs:356-378 | when exactly a longer duration has a higher offset; always for a second or more |
| `Estimate.OffsetCanFall` | src/schedule.rs:356-361 | within a second it can fall |
| `Estimate.OffsetFallsWithValue` | src/schedule.rs:315-379 | higher codebase value, probability and candidate value lower it |
| `Schedule.DoScheduleRegular` | src/schedule.rs:384-498 | a failed plan or a dry run changes nothing; otherwise the planned call is made, and fails exactly when it is not accepted |
| `Schedule.PlannedOffset` | src/schedule.rs:456-497 | the planned call has the command, context and value given, or else the candidate's, the estimated duration, and the default offset plus cost over value |
| `Schedule.PlanFails` | src/schedule.rs:384-498 | which failure there is, and exactly when |
| `Schedule.BulkCallIs` | src/schedule.rs:529-556 | each call of a batch has its request's key, command and context, and the offset of its value, share and history |
| `Schedule.NormalizedIs` | src/schedule.rs:510-538 | a codebase's first request gets its share of the largest value, later ones nothing, and all get one when none is positive |
| `Schedule.MaximumValue` | src/schedule.rs:510-528 | the largest codebase value when it is positive |
| `Schedule.BulkAddToQueue` | src/schedule.rs:500-559 | the calls of the requests before the first failure are made, in order; done if and only if none fails |
| `Schedule.BatchRows` | src/queue.rs:197-208 | what each row of a batch is, and what the smallest priority then is |
| `Schedule.PlannedBatch` | src/schedule.rs:529-556 | a batch of new keys with a default offset that is not negative meets the conditions of the order theorems |
| `Schedule.BatchOrder` | src/schedule.rs:500-559 | into a non-empty queue: smallest priority and old rows unchanged, new rows ordered by truncated offset, then batch position |
| `Schedule.HandedOutInOrder` | src/queue.rs:109-182 | and so in any listing, and in what is handed out |
| `Schedule.EmptyQueueOrder` | src/queue.rs:197-208 | into an empty queue: that order if and only if the first offset is the smallest |
| `Schedule.EmptyQueueOutOfOrder` | src/queue.rs:197-208 | two accepted calls that are out of order |
| `Schedule.DoSchedule` | src/schedule.rs:1019-1070 | without command and candidate it fails and changes nothing; otherwise it makes one call of `add`, with the command given or a candidate's of the same codebase and campaign, the offset given or -1, and the duration given, or else the average of the pair, the codebase or the campaign, or 15 seconds; the default offset goes first in its bucket |
| `LogMigration.LogStore.GetLog` | src/logs/store.rs:122-147 | the compressed form is read before the plain one |
| `LogMigration.LogStore.ImportLog` | src/logs/store.rs:151-181 | the compressed form is replaced |
| `LogMigration.LogStore.DeleteLog` | src/logs/store.rs:184-195 | the form that would be read is removed |
| `LogMigration.MigrateRunLogs` | src/migrate_logs.rs:47-78 | wherever it stops, the stores are as after some steps of the state machine, only listed logs have changed, and each one that is stored with one content and listed often enough can be read; when done, these steps finish the run and such logs are moved; it is done unless a store operation failed |
| `LogMigration.UnlistedUntouched` | src/migrate_logs.rs:54-76 | logs that are not listed never change in either store |
| `LogMigration.MovableIsKept` | src/migrate_logs.rs:47-99 | under every interleaving, abort and restart a movable log can be read from one of the stores, and ends up as after one uninterrupted attempt |
| `LogMigration.LogIsMoved` | src/migrate_logs.rs:47-99 | in terms of the stored objects: readable at every point, and at the end compressed in the target and gone from the source |
| `LogMigration.ReliableIffMovable` | src/migrate_logs.rs:47-99 | that holds if and only if the forms of the log agree and are not more than the times it is listed |
| `Debdiff.IterSections` | src/debdiff.rs:11-41 | the loop computes the sections |
| `Debdiff.SectionsProper` | src/debdiff.rs:11-41 | no section has an empty or underlined line in its paragraph |
| `Debdiff.NothingLost` | src/debdiff.rs:11-41 | no line is lost, added or moved, but blank ones |
| `Debdiff.PrintThenParse` | src/debdiff.rs:11-185 | sections with good titles are read back from their print |
| `Debdiff.DashesPerCharacter` | src/debdiff.rs:19 | an underline has a dash for each byte |
| `Debdiff.RoundTrip` | src/debdiff.rs:11-185 | parsing, printing and parsing again gives the same sections if and only if the titles are good |
| `Debdiff.TwoEmptyLines` | src/debdiff.rs:11-185 | a text with two empty lines in a row that comes back with other sections |
| `Debdiff.WhiteIs` | src/debdiff.rs:26 | blank means all of Unicode's white space |
| `Debdiff.IterFields` | src/debdiff.rs:96-115 | all lines in order, cut where a line does not start with a space |
| `Debdiff.FieldsUnique` | src/debdiff.rs:96-115 | there is only one such way to cut the lines |
| `Debdiff.FieldsAtSpaces` | src/debdiff.rs:96-115 | a field goes on for as long as lines start with a space |
| `Debdiff.FilterLines` | src/debdiff.rs:52-94 | of each field, in order: all of it without a name, nothing of `Installed-Size` and `Version`, and of others the replaced lines if these still show a change |
| `Debdiff.SectionIsFiltered` | src/debdiff.rs:141-165 | a wdiff section is left with its filtered lines, or becomes the remark that there are no differences |
| `Debdiff.FilterBoring` | src/debdiff.rs:126-186 | the loops print the sections, each filtered so |
| `Debdiff.PrintSections` | src/debdiff.rs:176-185 | the printing loop computes the printed text |
| `Debdiff.FilteredIsEmpty` | src/debdiff.rs:126-279 | the filtered text is empty if and only if every titled section is a wdiff section of whose fields nothing but blank lines is to be kept |
| `ScanCache.CachePathsDiffer` | archive/src/scanner.rs:179-301 | no two entries of any kind share a cache path |
| `ScanCache.CachePathIs` | archive/src/scanner.rs:179-301 | what the cache paths are |
| `ScanCache.Scanner.WriteCache` | archive/src/scanner.rs:184-202 | a write that fails, has no effect or is cut short keeps the cache sound |
| `ScanCache.Scanner.LoadOrScanPackages` | archive/src/scanner.rs:207-242 | a success is the uncached scan, if and only if it was not read from a file cut short; always, as long as no cache write has been cut short; no path but its own is added to those |
| `ScanCache.Scanner.LoadOrScanSources` | archive/src/scanner.rs:273-296 | the same for sources |
| `ScanCache.Scanner.ScanDebContents` | archive/src/scanner.rs:153-177 | a success is always the uncached listing; an error has a cause |
| `ScanCache.ScanInTurn` | archive/src/scanner.rs:153-296 | over any sequence of scans of all three kinds, with failing cache writes, every answer is the uncached one or a failure while no write was cut short |
| `ContentsIndex.ByPath` | archive/src/contents.rs:50-58 | the reverse index: a package is under a path if and only if an entry of it ships the path |
| `ContentsIndex.FormatContents` | archive/src/contents.rs:46-68 | one line a path in order, with the packages that ship it in order |
| `ContentsIndex.IndexIsUnique` | archive/src/contents.rs:46-68 | there is only one such list of lines for given entries |
| `ContentsIndex.TextIsUnique` | archive/src/contents.rs:46-68 | and so only one text |
| `ContentsIndex.ReadsBack` | archive/src/contents.rs:60-68 | lines are read back from the text: split at newlines, packages after the last space, separated by commas |
| `ContentsIndex.TextReadsBack` | archive/src/contents.rs:46-68 | so every path of the entries is found once, in order, with all packages that ship it and no others |
| `ContentsIndex.PathColumn` | archive/src/contents.rs:63-67 | paths are padded to 55 characters |
| `ContentsIndex.LessIs` | archive/src/contents.rs:50-58 | the order of paths and packages is that of the first differing character |

## Left out

- AsyncRepository.GenerateRepository: removing a temporary file is taken to succeed (the program ignores an error there); directories are not represented, so one that is created stays unmentioned.
- Archive.GenerateRepository: signing, the database query for builds and the scanning that provides the indices' contents.
- Refinement.GenerationIsDetermined: by-hash files are compared without their modification times, which differ between any two runs.
- JobManager.GeneratorManager.CancelJob: cancelling only asks the task to stop; that a task may die at any point is a step of the protocol of its own.
- JobProtocol.SingleFlight: assumes triggers of one repository do not overlap, because the check, the spawning and the insertion are separate critical sections.
- Queue.Queue.Add: a call for an unknown codebase, campaign or change set, and an unknown bucket name, are database errors that the model does not have; `id` is not limited to 32 bits.
- Queue.Queue.NextItem: the repository address that comes with the row is only used for the host filter.
- Estimate.EstimateSuccess: the dependency check of runs that failed on missing dependencies is given as its answer, and details that cannot be parsed (a panic) do not occur.
- Schedule.DoScheduleRegular: the success chance is passed along, but the program does not use it for the offset.
- LogMigration.MigrateRunLogs: no log's name is that of another with `.gz` appended, and an import is all or nothing, as in the object store's own writer; the temporary file in between is left out.
- Debdiff.FilteredIsEmpty: the regular expressions are functions of the line or block, of which only is used that they bring in no newline.
- ScanCache.Scanner.LoadOrScanPackages: rewriting file names to the pool and parsing the scanned text.
- Job timestamps, the soft limit on concurrent jobs, and `start_cleanup_task`, which moves jobs without updating their status and is not started.
- `is_fresh` and on-demand refresh, whose guarantee needs that no run finishes between a database lookup and the Release write.
- The HTML and Markdown renderers of debdiffs, configuration loading, error tables, pagination: they would only add easy members.
- Compression, digests, tar and deb822 text formats, HTTP, database and subprocess plumbing.
