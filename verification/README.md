# Model of the indexer agent's upload, disk, watchdog and sync logic

loon-agent downloads torrents, stages and uploads them to Usenet in parallel parts, and reports to a
companion site. This project models the parts of it where a silent mistake costs data: the CRC and
yEnc pipeline with its worker pool, the disk ledger and the orphan sweep, the download watchdog, and
the streaming protocols around them (feed walk, PAR2 output, inventory, staging, manifest audit,
configuration file). Each theorem is stated for every input, every run or every reachable
state; a few single inputs stand beside the exact conditions to show what fails.

## How it is laid out

| files | what they model |
|---|---|
| `Crc32`, `CrcDivision`, `Gf2` | the CRC-32 of section 8 of RFC 1952 bit by bit, as a remainder of polynomials, and its combination by matrices over GF(2), in place on arrays |
| `YEnc`, `Article`, `Encoder`, `Parts` | body encoder and decoder, the printed article and its reader, the registry of per-part CRCs, the cut of a file into parts |
| `Upload`, `UploadSafety`, `UploadTrailers`, `UploadRegistry`, `UploadRuns` | dispatcher, FIFO channel, workers, condition variable and collector as a step relation; its invariants along every run |
| `UploadResults`, `UploadLiveness`, `UploadRetries`, `UploadDispatcher` | what `UploadToUsenet` promises; that it never hangs; exactly when it fails; what becomes of its dispatcher |
| `StaleEntry`, `Retry`, `CleanUp` | what an upload leaves in the registry, what that does to later ones, and when it leaves nothing |
| `Subject` | the subject line of a posted part and its reader |
| `Sums`, `DiskLedger` | reservations, the counter adjusted outside the lock, admission |
| `Paths`, `Sweep` | lexical paths as `path/filepath` computes them, the sweep and its keep-set |
| `Timers`, `Watchdog` | one timer rule against a predicate over the history of ticks; the three rules together; the seed phase |
| `FeedWalk`, `Par2`, `Inventory`, `Staging`, `Manifest`, `LayeredConfig` | one streaming or file protocol each |
| `Bytes`, `Text`, `Scanner`, `Wrappers` | numbers, strings, sorting, the line scanner's limit, `Option` |

Code that changes state is a class or a method with loops, proved against a function of its inputs or
of the old state; goroutines are a step relation, so that a theorem about runs covers every
interleaving. `dafny verify dfyconfig.toml` checks everything.

Where the code and its comments disagree, the model follows the code:

- `fitBlockSize` is documented to keep a release under 32768 slices. It divides with floor and lets a
  whole band of sizes through; `Par2.CeilingHeldExactly` gives the band. It also counts the release as
  one stream; `Par2.ReleaseFitsExactly` says when that is harmless.
- The comment on the registry says a later upload starts with fresh state. That does not hold after a
  failure, and not after every success: `CleanUp.CleansUpExactly` says when it does.
  `StaleEntry.LeftoverExact`, `Retry.RetryExact` and `Retry.ChainExact` say exactly when a leftover
  entry spoils a later upload.
- The counter is said to track the reservations. Between an unlock and the atomic add it does not;
  `DiskLedger.CounterReconciles` has the term that is missing.
- A check and its reserve share no lock. `DiskLedger.CheckSafeExactly` says exactly when a check is
  safe all the same; `DiskLedger.OverlappingChecksOvercommit` and `DiskLedger.ChecksInFlightOvercommit`
  show two ways in which it is not.
- An upload returns without waiting for its dispatcher, which can stay blocked for good;
  `UploadDispatcher.CanBeLeftBehindExactly` says for which files.
- The allowlist is said to keep every crash dump out. A process id of three digits passes as a part of
  a split archive; `Staging.CoreDumpsExact` says that nothing else does.
- A partial walk is never to close an inventory generation. The code looks at the ceiling, not at the
  entries it had to skip; `Inventory.UnreadableRowIsPruned` shows a row that goes, and
  `Inventory.NothingHiddenExactly` that the count of skipped entries is the right guard.
- An upload without connections reports success; `UploadResults.ExactWithWorkers` gives the condition.
- A directory is said to be safe from the sweep once its job is in the map. It is unless a sweep is
  already past its snapshot: `Sweep.SurvivesExactly`.
- The manifest error is meant to name a missing file; `Manifest.NamesLossExactly` says when it can.
- The config loader does not undo the escapes the writer makes; `LayeredConfig.FileRoundTripExact`
  says exactly which maps survive.
- The NZB's subject is called canonical, but the path in it is not made safe;
  `Subject.RecordedSubjectExact` says when it reads back.

## Model

| member | source | states |
|---|---|---|
| Crc32.TableRegisterIsRegister | services/upload_usenet.go:785 | the bit-by-bit register used as the specification is the one the table-driven program of section 8 of RFC 1952 reaches, for all data |
| Crc32.ShiftBitsLinear | services/upload_usenet.go:889-895 | feeding zero bits is linear over xor, which is why it has a matrix at all |
| Crc32.ChecksumConcat | services/upload_usenet.go:870-880 | the affine law: the CRC of a concatenation is the first CRC pushed through 8 zero bits per byte of the second, xor the second CRC |
| Crc32.ResidueIsConstant | services/upload_usenet.go:785 | any data followed by its own checksum, low byte first, has the checksum 0x2144df1c |
| CrcDivision.RegisterDivides | services/upload_usenet.go:785 | feeding data is long division: the start value and the message, moved up by their places, are the register plus a multiple of the generator, one quotient bit for each bit of data |
| CrcDivision.RemainderUnique | services/upload_usenet.go:785 | no other polynomial of degree below 32 is such a remainder |
| CrcDivision.ChecksumIsRemainder | services/upload_usenet.go:785 | a word is the checksum if and only if its complement is the remainder of the message on division by the generator of RFC 1952, with exponents 32, 26, 23, 22, 16, 12, 11, 10, 8, 7, 5, 4, 2, 1 and 0 |
| Gf2.TimesLinear | services/upload_usenet.go:934-945 | the matrix product is linear in its vector |
| Gf2.SquareComposes | services/upload_usenet.go:947-951 | squaring any matrix composes its map with itself |
| Gf2.SquareDoubles | services/upload_usenet.go:905-916 | the square of the n-zero-bits matrix is the 2n-zero-bits matrix |
| Gf2.OneBitMatrixShifts | services/upload_usenet.go:892-902 | the matrix the code starts from is the one-zero-bit operator on every register value |
| Gf2.OneBitMatrix | services/upload_usenet.go:897-902 | the loop builds that matrix: the polynomial, then the powers of two |
| Gf2.GF2MatrixTimes | services/upload_usenet.go:934-945 | the early-exit loop returns the full 32-column product |
| Gf2.GF2MatrixSquare | services/upload_usenet.go:947-951 | the target becomes the square of the source matrix, which is left alone |
| Gf2.Crc32CombineIEEE | services/upload_usenet.go:885-932 | for all byte strings a and b with these CRCs and this length, the result is the CRC of a followed by b; a length of zero or less returns the first CRC |
| Gf2.CombineIsConcat | services/upload_usenet.go:868-884 | combining two checksums gives the checksum of the concatenation, for every pair of byte strings |
| YEnc.EncodeBody | services/upload_usenet.go:833-854 | the byte loop with its running line length writes the recursive body grammar |
| YEnc.RoundTrip | services/upload_usenet.go:833-854 | dropping line ends and undoing escapes recovers every byte string |
| YEnc.LineGrammar | services/upload_usenet.go:834-854 | every body line is free of NUL, CR and LF, holds its escape pairs whole, escapes nothing that need not be, and starts with neither `.` nor `=y`; all but the last have 128 or 129 bytes |
| YEnc.StuffingIsIdentity | services/upload_usenet.go:732-746 | dot-stuffing (section 3.1.1 of RFC 3977) changes nothing where no line starts with a dot |
| YEnc.UnstuffInvertsStuff | services/upload_usenet.go:732-746 | the receiver of a dot-stuffed stream gets back what was stuffed, whatever it was |
| Article.ReadInvertsPrint | services/upload_usenet.go:829-861 | reading a posted article recovers part, total, line width, size, name, range, data and both CRCs, for every name on one line |
| Article.HeaderTellsWidth | services/upload_usenet.go:829-854 | the number after ` line=` is the width the lines of the body keep |
| Article.SurvivesNntp | services/upload_usenet.go:732-746 | a posted article needs no dot-stuffing and has no empty or dot-led line, so the wire carries exactly the printed bytes |
| Parts.CutFile | services/upload_usenet.go:264-308 | for any sequence of reads, short, failed or at the end of a truncated file, the jobs are a beginning of the file in order; on an unchanging file they are its numbered parts if and only if every read brings its whole part |
| Parts.PartsExactly | services/upload_usenet.go:267-304 | part k is the bytes from 716800 (k - 1) up to 716800 k or the end, and there are as many parts as that takes |
| Parts.KeyInjective | services/upload_usenet.go:85-91 | two uploads share a registry key only if name and size both agree, even when names contain NUL |
| Parts.FoldIsFileChecksum | services/upload_usenet.go:810-813 | folding a full registry in part order gives the CRC of the whole file |
| Parts.FullWhenCounted | services/upload_usenet.go:807-809 | the count in the wait loop is a sound guard: an agreeing entry of that size holds every part |
| Parts.FileCRCState.WholeFileCRC | services/upload_usenet.go:810-813 | the loop over all part numbers is the fold |
| Parts.MissingIsSkipped | services/upload_usenet.go:810-813 | a part that never registered leaves the fold as it is |
| Parts.RangesTile | services/upload_usenet.go:829-831 | the `=ypart` ranges read from the articles start at 1, meet without gap or overlap and end at the size |
| Parts.ArticlesRebuild | services/upload_usenet.go:246-304 | decoding the articles by number and joining them rebuilds the file, whatever whole-file CRC they carry |
| Encoder.PrintArticle | services/upload_usenet.go:829-861 | the buffer built header by header is the printed article, ready for the wire |
| Encoder.Registry.LoadOrCreateFileCRCState | services/upload_usenet.go:93-101 | an existing entry is returned, otherwise a fresh empty one is installed; other keys keep theirs |
| Encoder.Registry.RegisterPart | services/upload_usenet.go:794-799 | a part is in the entry of its name and size afterwards, on top of whatever was there, and no other entry is touched |
| Encoder.Registry.WaitAndFold | services/upload_usenet.go:801-819 | the final part folds as soon as the arriving parts complete the count and then drops the entry; short of that it emits nothing and keeps what arrived |
| Encoder.WaitEnds | services/upload_usenet.go:801-814 | if every missing part arrives, in any order and with repeats, the wait ends and the fold is the CRC of the file |
| Encoder.Registry.YEncodeChunk | services/upload_usenet.go:776-865 | one call in any state of the registry, with any parts arriving meanwhile: the article with the right trailer; a middle part stays registered, the final part waits, folds and drops the entry, a single part touches nothing, other files are not disturbed |
| UploadSafety.OrderKept | services/upload_usenet.go:264-308 | at every step the channel holds the next parts in order and workers hold only parts that left it |
| UploadSafety.BalanceKept | services/upload_usenet.go:403-545 | at every step each part that left the channel is in exactly one place: one worker, the results, the segments, or given up |
| UploadSafety.ExplainedKept | services/upload_usenet.go:452-531 | at every step a part given up, an early close or an early exit is accounted for by an error or a cancel |
| UploadSafety.HeldOnce | services/upload_usenet.go:403-431 | no two workers ever hold the same part |
| UploadTrailers.CountedSound | services/upload_usenet.go:801-814 | whatever order parts registered in, the CRC folded by the final worker is the file's |
| UploadTrailers.SoundKept | services/upload_usenet.go:794-821 | every step keeps all registry entries in agreement with the file and all written articles right |
| UploadRegistry.OnceKept | services/upload_usenet.go:447-448 | every step keeps that a part still being encoded has no article yet |
| UploadRegistry.DeliveredKept | services/upload_usenet.go:447-537 | every step keeps that each article is one of this file's parts and that whatever is posted, sent or collected has one |
| UploadRegistry.WiredKept | services/upload_usenet.go:93-101 | every step keeps that every entry that a worker or the registry refers to exists |
| UploadRegistry.HelpedKept | services/upload_usenet.go:794-809 | every step keeps that each part taken is registered or in the hands of a worker that will register it |
| UploadRegistry.FreshKept | services/upload_usenet.go:815-818 | started without an entry, every step keeps that once the final part is written the entry is gone and nobody can bring it back |
| UploadRuns.ReachedInvariant | services/upload_usenet.go:239-388 | all invariants hold in every state reachable by any interleaving; those that do not speak of CRC values hold whatever entry the upload found |
| UploadResults.TrailersAreRight | services/upload_usenet.go:72-101 | in every reachable state, every written article reads back as its part; only the final part carries crc32, and it is the CRC of the whole file; started fresh, the entry is gone after it |
| UploadLiveness.NeverStranded | services/upload_usenet.go:801-809 | whatever entry the upload found, whenever the final worker waits another worker holds an unregistered earlier part and can encode right now |
| UploadLiveness.EncodingStaysPossible | services/upload_usenet.go:447-448 | a possible encoding step cannot be taken away by any other goroutine, not even by a cancel |
| UploadLiveness.WaitingIsBounded | services/upload_usenet.go:807-809 | while somebody waits, each encoding step shortens a finite distance and no step lengthens it; at zero nobody waits |
| UploadLiveness.NeverStuck | services/upload_usenet.go:239-545 | no deadlock: in every reachable state some step other than a cancel, a read error or a failed post is possible, unless workers and collector are done and the dispatcher is too or blocks on a full channel |
| UploadLiveness.RankDrops | services/upload_usenet.go:239-545 | every step of every goroutine, a cancel apart, lowers one natural number, wake-ups and retries included |
| UploadLiveness.RunsAreBounded | services/upload_usenet.go:239-545 | no run, of whatever schedule and failures, has more steps than that number at its start |
| UploadLiveness.AlwaysFinishes | services/upload_usenet.go:310-388 | from every reachable state the upload can come to rest without cancel, error or failed post, so every schedule that keeps going ends |
| UploadLiveness.SucceedsUndisturbed | services/upload_usenet.go:239-388 | from every reachable state without cancel or failure, if nothing further happens to it, an upload with a worker succeeds and its dispatcher is done |
| UploadRetries.TrackedKept | services/upload_usenet.go:451-531 | every step keeps that a part being posted for the n-th time has had n - 1 failed posts, n at most 3, that one with three has failed the upload, and that a part not yet posted has none |
| UploadRetries.ErrorExactly | services/upload_usenet.go:376-531 | a run returns an error if and only if the context ended, a read failed, a login was refused, or some part had three failed posts; no part ever has more |
| UploadRetries.PostedAgain | services/upload_usenet.go:451-514 | a part that fails for the first or second time is posted again by the same worker, and the upload can still succeed |
| UploadDispatcher.LeftForGood | services/upload_usenet.go:264-305 | a dispatcher that blocks on a full channel when the upload has returned stays so in every continuation |
| UploadDispatcher.ChannelsAreBounded | services/upload_usenet.go:250-253 | neither channel ever holds more than twice as many as there are connections |
| UploadDispatcher.LeftBehindExactly | services/upload_usenet.go:264-305 | after the return, an open jobs channel is never closed again if and only if the dispatcher has read a part and the channel is full |
| UploadDispatcher.ClosesUnaidedExactly | services/upload_usenet.go:264-305 | after a return without cancel the dispatcher comes to its end by itself if and only if what it has still to send fits into the channel |
| UploadDispatcher.CanBeLeftBehindExactly | services/upload_usenet.go:250-305 | some run leaves the dispatcher behind if and only if the file has more parts than the channel has room |
| UploadResults.SegmentsAreExact | services/upload_usenet.go:316-387 | with a worker or an empty file, a return without error has each part number exactly once and an article for each; with an agreeing start it is the right article |
| UploadResults.ExactWithWorkers | services/upload_usenet.go:250-261 | every return without error is exact if and only if there is at least one connection or nothing to upload; the setting is not checked, and with none a whole file is reported as uploaded in no segments |
| UploadResults.UploadRebuildsFile | services/upload_usenet.go:239-388 | after a return without error, the posted articles decode to the file, whatever entry the upload found |
| UploadResults.FailureIsReported | services/upload_usenet.go:376-387 | after any of these, every later return of the upload is an error |
| StaleEntry.WrongStaysWrong | services/upload_usenet.go:810-813 | a wrong CRC for an earlier part can never be repaired by what is combined after it |
| StaleEntry.FoldDiffers | services/upload_usenet.go:810-813 | two registries that differ in the CRC of one part fold differently from that part on, whatever follows |
| StaleEntry.Overtaking | services/upload_usenet.go:794-819 | for every file and every stale part there is a run of two workers in which everything else is registered afresh and the final part folds the stale CRC |
| StaleEntry.OneWorkerIsRight | services/upload_usenet.go:794-819 | a single worker registers every earlier part again before the final one folds, so no leftover does harm |
| StaleEntry.LeftoverExact | services/upload_usenet.go:68-71 | for every file and every leftover of an earlier upload of its name and size, every run writes the right final article if and only if there is at most one worker or every leftover CRC is that of this file's part |
| Retry.KnownKept | services/upload_usenet.go:794-821 | every step keeps that what is registered is this file's part or was found, and that the registry maps to an entry with the final part only while that part's worker waits or has folded |
| Retry.LeftBehind | services/upload_usenet.go:68-71 | whatever an upload found and however it ended, it leaves nothing or parts before the last, of the right lengths, each with its CRC in this file or as it was found |
| Retry.RetryExact | services/upload_usenet.go:85-91 | after any upload that has ended, the next with the same key is right in every run if and only if it has at most one worker or what was left are the CRCs of its own parts |
| Retry.ChainExact | services/upload_usenet.go:68-91 | the same after any number of uploads with one key, each finding what the one before left; what is found are CRCs of parts of theirs |
| Retry.RetryOfSameFile | services/upload_usenet.go:68-71 | a file may be tried any number of times and is always right, as long as all uploads with its key since the registry was empty were of this file |
| CleanUp.SuccessLeavesEntry | services/upload_usenet.go:815-819 | with two workers and any part to be found, even a right one, a run succeeds and leaves a new entry, made by a worker that was overtaken |
| CleanUp.CleansUpExactly | services/upload_usenet.go:815-819 | every successful upload leaves nothing under its key if and only if it found nothing, or has several parts and either one worker or found an entry without parts |
| CleanUp.PassesOn | services/upload_usenet.go:276-283 | an upload can fail and hand on just what it found |
| CleanUp.RetryAfterForeignLeftover | services/upload_usenet.go:276-283 | so after a failed attempt that found a wrong CRC, a retry of the same file is not always right |
| Subject.SafeIsCanonical | services/upload_usenet.go:216-232 | the safe form of any title has no marker and only single blanks between words, and equals the title exactly when the title already is so |
| Subject.WordsSurvive | services/upload_usenet.go:221-232 | the words of the safe form are the runs of the title without white space, brackets, parentheses and double quotes, all of them and in order; a title without any becomes `release` |
| Subject.ReadInvertsPrint | services/upload_usenet.go:128-136 | a reader of the canonical line recovers release, file counter, name and part counter |
| Subject.PostedSubjectReads | services/upload_usenet.go:163-190 | no title and no file name can inject a spurious counter into a posted subject |
| Subject.RecordedSubjectExact | services/upload_usenet.go:202-206 | the subject recorded in the NZB, whose path is not made safe, reads back if and only if the path has no double quote |
| DiskLedger.AfterReservationsExact | services/disk_reserve_sweep.go:143-150 | the mixed signed and unsigned arithmetic is free minus reserved cut at zero, if and only if the free figure fits a signed word or nothing is reserved |
| DiskLedger.Ledger.ReserveDisk | services/disk_reserve_sweep.go:69-92 | a claim replaces the job's earlier one and the counter stays the sum of the map |
| DiskLedger.Ledger.ReleaseDisk | services/disk_reserve_sweep.go:95-109 | a release drops the job, unknown jobs are no error, and the counter stays the sum |
| DiskLedger.Ledger.Admit | services/network_torrent.go:439-457 | a download is let in if and only if 1.3 times its size fits beside what is reserved into the free bytes and, where there is a cap, beside what is used under the cap; the case of figures of 2^63 and more, and of a failed measurement, included |
| DiskLedger.ReserveThenRelease | services/disk_reserve_sweep.go:69-109 | after claim and release the job holds nothing, an earlier claim of its own included, and every other job's claim is untouched |
| DiskLedger.ReconciledKept | services/disk_reserve_sweep.go:69-109 | every atomic step keeps counter plus deltas in flight equal to the sum of the map |
| DiskLedger.CounterReconciles | services/disk_reserve_sweep.go:69-109 | under every interleaving of calls, including repeated claims for one job, the counter is the sum of the map whenever no delta is in flight |
| DiskLedger.StaysWithinExactly | services/disk_reserve_sweep.go:69-109 | from any state, whatever granted checks claim and jobs release, the reservations stay within capacity if and only if they do with every job holding the most it was granted |
| DiskLedger.CheckSafeExactly | services/network_torrent.go:439-457 | a check of a new job is safe whatever it asks for if and only if the counter it reads is not below that worst case |
| DiskLedger.CarefulRunsStayWithin | services/network_torrent.go:439-457 | in every run whose checks are made in such states the reservations never exceed a constant capacity below 2^63, however pairs and releases overlap |
| DiskLedger.SerialIsCareful | services/network_torrent.go:439-457 | check-then-reserve pairs that do not overlap, with releases anywhere between, are one way to make a run so |
| DiskLedger.CapacityKept | services/network_torrent.go:439-457 | every step of such pairs keeps counter, deltas in flight and the granted check together within capacity |
| DiskLedger.NeverOverCapacity | services/network_torrent.go:439-457 | over every such run the counter too stays within capacity and the unsigned subtraction never wraps |
| DiskLedger.RunsStayWithinCapacity | services/network_torrent.go:439-457 | so an agent that starts with nothing reserved and does not overlap its pairs stays within capacity, and its worst case does |
| DiskLedger.OverlappingChecksOvercommit | services/network_torrent.go:439-457 | without that condition it fails: for every capacity, two overlapping pairs reserve twice of it |
| DiskLedger.ChecksInFlightOvercommit | services/disk_reserve_sweep.go:69-80 | and for every capacity a check made while an earlier claim is unlocked but not yet added does the same, with one check at a time |
| Paths.ResolveIsClean | services/disk_reserve_sweep.go:299-303 | cleaning a path leaves no empty, `.` or inner `..` component |
| Paths.DirOfClean | services/disk_reserve_sweep.go:299-303 | the parent of a clean path is that path less one component |
| Paths.BaseExactly | services/disk_reserve_sweep.go:293 | the base of a path is its last component that is not empty; without any it is `.` or, with a slash, `/` |
| Sweep.NearestFamilyName | services/disk_reserve_sweep.go:291-304 | the walk up terminates and finds the nearest family component of any path, rooted or not |
| Sweep.LastFamilyIsNearest | services/disk_reserve_sweep.go:293-298 | nearest means the last component of a family, and none only when there is none |
| Sweep.ParentDiffers | services/disk_reserve_sweep.go:299-302 | the guard against an unchanging parent never fires |
| Sweep.FamiliesExactly | services/disk_reserve_sweep.go:319-337 | the names a sweep is about: three prefixes always, four more and `.7z` only at startup |
| Sweep.KeepOfJob | services/disk_reserve_sweep.go:270-308 | a job contributes exactly its two directory names, its nearest family directory and its stage directory |
| Sweep.BuildKeep | services/disk_reserve_sweep.go:244-310 | the keep-set is exactly what some job of the map protects, in whatever order jobs come |
| Sweep.SweepEntries | services/disk_reserve_sweep.go:316-347 | a sweep tries exactly the listed entries of its families that nobody protects and that, if there is a minimum age, are known to be at least that old |
| Sweep.BothShapesNameTheDirectory | services/disk_reserve_sweep.go:275-289 | both documented shapes of a downloaded path protect the same directory |
| Sweep.DirectorySurvives | services/disk_reserve_sweep.go:220-347 | a protected directory survives any number of sweeps interleaved with jobs in any way |
| Sweep.TargetedIsLost | services/disk_reserve_sweep.go:316-347 | a directory some sweep already has among its targets can be removed although a job protects it throughout |
| Sweep.SurvivesExactly | services/disk_reserve_sweep.go:220-347 | a protected directory survives every later run if and only if no sweep has it among its targets |
| Sweep.MadeAgainSurvives | services/disk_reserve_sweep.go:316-347 | a directory that was removed and made again is safe unless another sweep is after it |
| Sweep.RegisteredInTime | services/disk_reserve_sweep.go:244-310 | a job registered while no sweep is between snapshot and removals keeps its directories for as long as it stays registered, also those made only later |
| Sweep.OwnDirectoriesSurvive | services/disk_reserve_sweep.go:270-308 | a job so registered never loses dl-<job>, its stage directory or the directory its download names, over any run in which it stays in the map |
| Sweep.LateRegistrationLosesDirectory | services/disk_reserve_sweep.go:244-310 | a job that registers after the snapshot can lose its directory |
| Timers.RejectsWhenOverdue | services/network_torrent.go:984-996 | the next tick is rejected if and only if it is bad and a countdown still running started more than the timeout ago |
| Timers.RuleIsHistory | services/network_torrent.go:984-1008 | on every trace with a forward clock, the coded timer with its recovery count rejects exactly when the history predicate says so |
| Timers.WarningIsHistory | services/network_torrent.go:1100-1126 | an evaluated tick lists a warning exactly while a countdown runs, with the start of the oldest one plus the timeout |
| Timers.WarningDoesNotFlicker | services/network_torrent.go:998-1008 | from the start of the oldest countdown until a third good tick in a row, a reset or the rejection, every evaluated tick lists the very same moment |
| Watchdog.TickRule | services/network_torrent.go:984-1008 | one tick of the branching code decides and lists what the history says |
| Watchdog.KindsExactly | services/network_torrent.go:976-1093 | what each rule makes of a sample, in bytes and peers |
| Watchdog.FastIsNotSlow | services/network_torrent.go:976-1013 | a download that adds threshold MiB at every sample below 95 per cent, a boosted one any byte, is never listed or given up as slow |
| Watchdog.SlowIsGivenUp | services/network_torrent.go:976-1013 | one that adds less for longer than the timeout is given up |
| Watchdog.MovingIsNotStalled | services/network_torrent.go:1041-1070 | a download that adds bytes at every sample short of its end is never listed or given up as stalled |
| Watchdog.StalledIsGivenUp | services/network_torrent.go:1041-1070 | one that adds nothing for longer than the timeout is given up, however near its end |
| Watchdog.CompleteForgetsStall | services/network_torrent.go:1065-1070 | no countdown of the stall rule outlives a sample with all bytes there |
| Watchdog.PeersAreEnough | services/network_torrent.go:1073-1097 | a download with more peers than the threshold at every sample below 95 per cent is never listed or given up for its peers |
| Watchdog.FewPeersIsGivenUp | services/network_torrent.go:1073-1097 | one with no more than that for longer than the timeout is given up |
| Watchdog.Watch | services/network_torrent.go:930-1126 | over a whole download the verdict falls on the first tick the history condemns, none if there is none, and every earlier tick lists exactly the running countdowns of all three rules |
| Watchdog.SeedPhase | services/network_torrent.go:482-585 | seeding ends at the first tick that is past the deadline, has reached the ratio, or finds the swarm dead by its history; with no bound configured the deadline is a day |
| FeedWalk.PagesPerTick | services/offer_scraper_torznab.go:80-86 | a tick fetches at least one page and no more than either limit allows |
| FeedWalk.AppendReleases | services/offer_scraper_torznab.go:233-248 | a page adds exactly its titled items, in order |
| FeedWalk.ItemExactly | services/offer_scraper_torznab.go:233-248 | an item is emitted if and only if its title is not blank; its title is trimmed and not empty, its link wins over its enclosure |
| FeedWalk.TorznabScraper.Scan | services/offer_scraper_torznab.go:213-254 | a scan takes pages until one is empty, one fails or the limit is reached; it emits exactly the titled items between start and new cursor, or fails with the cursor where it was; it wraps only at the end of the feed |
| FeedWalk.SyncTick | services/offer_sync.go:212-236 | a tick neither skips nor repeats an item of the pass, and finishes a pass only with every item emitted |
| FeedWalk.ManyTicks | services/offer_sync.go:212-236 | over unboundedly many ticks with any page sizes and failures, what was emitted since the last wrap is exactly the titled part of the feed before the cursor; enough failure-free ticks always wrap |
| Par2.ScanLinesOrCR | services/upload_par2.go:474-494 | a token ends at the first CR or LF (a CR LF seen together counts as one break), the rest of a stream only at its end |
| Par2.TokenStep | services/upload_par2.go:474-494 | taking a token takes its line and nothing else that counts, also when a CR LF pair is cut apart |
| Par2.ParseProgress | services/upload_par2.go:432-449 | however the stream is cut into reads, the lines seen are exactly the non-blank pieces of the whole stream before the first of 64 KiB or more, and the captured output is these lines |
| Par2.CeilingHeldExactly | services/upload_par2.go:337-352 | the slice ceiling is kept if and only if the data is not strictly between 32768 and 32769 wanted slices |
| Par2.RescaleIsBest | services/upload_par2.go:346-352 | a rescaled size is the smallest multiple of 4 that keeps the data, as one stream, within the ceiling |
| Par2.FileSlicesBounds | services/upload_par2.go:246-263 | cut file by file, n files need at least the slices of the one stream and at most n - 1 more |
| Par2.ReleaseFitsExactly | services/upload_par2.go:263-267 | every release of n files with a given number of bytes keeps the ceiling at a slice size if and only if n slices and the remaining bytes, in whole slices, do |
| Par2.ProtectedExactly | services/upload_par2.go:250-254 | recovery files are left out, whatever the case of their extension, and nothing else is |
| Par2.ChooseBlockSize | services/upload_par2.go:230-267 | the size chosen for a directory, recovery files left out, misjudges the slices of n files by at most n - 1, and their slices never exceed that exact bound |
| Par2.TwoFilesExceed | services/upload_par2.go:263-267 | for every wanted size there is a release of two files that is rescaled to the ceiling and needs one slice more |
| Par2.CeilingMissedByOneByte | services/upload_par2.go:337-345 | the documented claim fails for a release one byte over 32768 articles |
| LayeredConfig.ReadBackExact | config/layered.go:96-117 | a value survives printing and parsing if and only if it is trimmed and unescaped as its quoting needs |
| LayeredConfig.QuotedExactly | config/layered.go:251-258 | a value is written in quotes if and only if it has a colon, a hash, a quote or a line end |
| LayeredConfig.QuoteDenotes | config/layered.go:253 | a quoted value is a Go string literal that denotes the value, whatever its characters |
| LayeredConfig.EntryReads | config/layered.go:251-258 | a printed line parses to its own key, whatever the value |
| LayeredConfig.ScannedFile | config/layered.go:102-103 | of a printed file the scanner hands out the header and the entries before the first of 64 KiB or more |
| LayeredConfig.LoadPrinted | config/layered.go:225-266 | loading a printed file gives those keys, each with its value as read back, and nothing from the header |
| LayeredConfig.ParsedKeyIsGood | config/layered.go:104-115 | no line whatsoever can load a key that is untrimmed, upper-case or holds a colon |
| LayeredConfig.FileRoundTripExact | config/layered.go:225-266 | writing a map and loading it gives it back if and only if every entry has a good key and a good value and fits the scanner, for all maps and write orders |
| LayeredConfig.Layered.LoadYml | config/layered.go:96-117 | later lines win, unreadable lines change nothing, and nothing after an overlong line is read |
| LayeredConfig.Layered.ApplyWeb | config/layered.go:212-219 | the web tier becomes the lower-cased new overrides with nothing left of the old ones, and a key reads as before unless it has an override that is not empty |
| LayeredConfig.OverrideAndReset | config/layered.go:160-173 | clearing the overrides brings back exactly the machine's own settings, whatever was overridden |
| LayeredConfig.Layered.Merge | config/layered.go:232-239 | exactly the allowed updates change the file tier, and exactly they are listed |
| LayeredConfig.UpdatesExactly | config/layered.go:60-78 | what an update can change: every key but the fourteen of the environment, in whatever case it is written |
| LayeredConfig.Layered.WriteYml | config/layered.go:225-270 | environment keys are never written, the list is sorted and exact, the file is the printed tier, and a disk error leaves the old file |
| LayeredConfig.SaveAndRestart | config/layered.go:225-270 | the next start reads a saved configuration back if and only if it is good |
| Staging.CoreDumpsExact | services/upload_obfuscate.go:88-146 | a crash dump is uploadable if and only if its process id has three digits |
| Staging.AllowlistIs | services/upload_obfuscate.go:96-113 | the five tables together are these 52 extensions |
| Staging.VolumesExactly | services/upload_obfuscate.go:115-133 | of the extensions of three characters, the listed ones and a digit or an `r` with two digits are uploadable, and no others |
| Staging.BookkeepingExactly | services/upload_obfuscate.go:77-79 | the torrent client's own files are those that begin with `.torrent.`, and none is uploadable |
| Staging.VisibleExactly | services/upload_obfuscate.go:183-203 | what is to be staged of a directory: files that are not empty, have an allowed name and lie in no extraction directory |
| Staging.CountStagedFiles | services/upload_obfuscate.go:183-203 | the audit's walk counts the files and bytes of the visible part of a tree, in any listing order |
| Staging.CopyDirectory | services/upload_obfuscate.go:341-390 | the walk, with any copy failing: on success every visible file has arrived and the audit agrees |
| Staging.CopyFiles | services/upload_obfuscate.go:320-390 | for a file or a directory, success means everything to be staged has arrived; into an empty destination a faithful copy of a directory passes its audit unless the destination is hidden from it, and then the destination is exactly what was to be staged |
| Staging.AuditCatchesLoss | services/upload_obfuscate.go:209-224 | with nothing added, the audit passes if and only if nothing was lost |
| Staging.HiddenKeepsExtension | services/upload_obfuscate.go:287-289 | a hidden name keeps its extension and its place on the allowlist |
| Staging.ObfuscateDirectory | services/upload_obfuscate.go:257-308 | the walk succeeds if and only if no copy fails, the names given out are all different and the audit can see the destination |
| Staging.ObfuscateFiles | services/upload_obfuscate.go:235-308 | the same for a file or a directory; on success it is a bijection that keeps bytes and extensions |
| Inventory.CollectResult | services/inventory_scan.go:122-146 | an untruncated walk has every row, a truncated one exactly the first maxFiles |
| Inventory.CollectTruncates | services/inventory_scan.go:122-125 | a walk is truncated if and only if some regular file, filtered or not, comes after the ceiling was reached |
| Inventory.RowsExactly | services/inventory_scan.go:97-151 | a complete walk reports a row if and only if the tree holds a readable regular file of that path and size, with no hidden or tooling directory on the way, that the filters want |
| Inventory.WalkDir | services/inventory_scan.go:97-151 | the walk goes through the tree in order, skips hidden and tooling directories, counts what it cannot read and stops everywhere once truncated |
| Inventory.ScanInventory | services/inventory_scan.go:82-168 | untruncated, every readable file that passes the filters is reported once, in path order; nothing else ever is |
| Inventory.BatchInventory | services/inventory_scan.go:224-237 | the batches are a partition in order, none empty, all but the last full, for any batch size |
| Inventory.MessageTaken | services/inventory_service.go:7-15 | an open request keeps every row and stamps its own; a closing one leaves the rows of the batches so far |
| Inventory.EarlyFinalForgets | client/inventory.go:63-69 | a closing request before the last batch deletes every file still to come |
| Inventory.NothingHiddenExactly | services/inventory_scan.go:97-106 | a walk can rule out files it did not see if and only if it skipped no entry: otherwise some tree that looks the same to it hides a file that passes the filters |
| Inventory.UnreadableRowIsPruned | services/inventory_service.go:158-185 | a walk that skipped an unreadable directory still closes the generation, and the row of a file that is there goes |
| Inventory.ReportRoot | services/inventory_service.go:135-195 | in every run the requests are a prefix of the batches under one id, `final` only on the last of a walk below the ceiling and after all others succeeded; a taken closing request leaves exactly the readable files, so a row of an existing file is lost only if the walk could not read it, and none is if it skipped nothing |
| Manifest.ManifestOf | services/upload_manifest.go:84-111 | counts, bytes and the sorted list of feature videos agree with one another and with the directory |
| Manifest.FeaturesExactly | services/upload_manifest.go:84-103 | a feature video has at least 1 MiB and one of eight extensions, in whatever case and directory |
| Manifest.FeaturesAreUploadable | services/upload_obfuscate.go:96-146 | no video that the audit counts is left out by the allowlist |
| Manifest.DiffManifests | services/upload_manifest.go:131-157 | the two-map diff is the map-free one: missing are the videos whose last namesake in the upload, if any, differs in size |
| Manifest.MissingCoversTheGap | services/upload_manifest.go:131-157 | with different names in the source, at least as many videos are named as the counts differ by |
| Manifest.CompareManifest | services/upload_manifest.go:219-232 | an unencrypted upload with fewer videos is refused, and with different source names the refusal names enough of them |
| Manifest.TwinHidesLoss | services/upload_manifest.go:115-123 | two equal-named, equal-sized source videos let a refusal name nothing |
| Manifest.NamesLossExactly | services/upload_manifest.go:161-184 | every refusal of this source names a missing video if and only if its names differ or two of one name differ in size |
| Manifest.LossIsCounted | services/upload_manifest.go:10-31 | when nothing was added, the counts differ if and only if a video was lost |

## Left out

- Sockets, TLS, NNTP replies, HTTP, SQL and the clock: each is a nondeterministic outcome or a parameter.
- Parts.CutFile: short reads and truncated files are modelled here; the step relation of the upload takes the reads to fill their parts, and its file does not change.
- Upload.Start: the number of connections is not negative (the channels of a negative size are not part of this model).
- MIME encoding of non-ASCII subjects, the other article headers and the choice of message ids.
- Floating point: the disk multiplier, speeds, percentages and ratios are exact reals, and byte counters are unbounded integers.
- Capacity theorems take the measured free space as constant and the check as successful; measurement errors are modelled in `DiskLedger.Ledger.Admit` only.
- Sweep.DirectorySurvives: the age filter appears as the set of names a snapshot finds too young; file times are not followed through the run.
- LayeredConfig.FileRoundTripExact: lower-casing is of ASCII letters, and the table of printable characters is a parameter.
- LayeredConfig.Layered.constructor: the environment tier and the writability probe are parameters; the settings report is not modelled.
- Par2.ParseProgress: the percentage pattern, the throttled callback and the scanner's limit on empty reads are not modelled, and trimming is any function that keeps blank lines blank.
- Par2.ChooseBlockSize: the tools' own limits other than the slice ceiling are not modelled.
- Staging.CopyFiles: hard links and copies are one operation.
- Staging.ObfuscateFiles: the destination starts empty; that tokens are distinct is a condition of the result, not an assumption.
- Inventory.ReportRoot: the site's rows are those of one root, its refusals of single paths are not modelled, and the walk's id is taken to be new (it is a time stamp with the root's base name).
- Inventory.ScanInventory: the title fields parsed from a path are not modelled.
- Watchdog.Watch: cancellation, the progress callback and its text are not modelled.
- FeedWalk.ManyTicks: cursor reads and writes succeed, and the feed does not change during the walk.
- Archive extraction, media probing, title patterns, cookies, block lists, the offline queue and the local web interface.
