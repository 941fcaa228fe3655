# OpenZEV: allocation, backups and sessions, modelled and proved

OpenZEV runs local electricity communities (ZEV). This project models three parts of its backend in Dafny and proves what
they promise:

- **Energy allocation and the analytics series** decide who is billed for which kWh: the split of each interval between the
  community's own production and the grid, the index of dated meter assignments, the community shares, civil days across
  clock changes, buckets, and the two aggregations of a series (ZEV-wide and attributed to meters and participants).
- **Backups**: the chunked authenticated envelope, the logical dump with its manifest and verifier, the restore of a whole
  instance or of one community (with the undo of media files), the job protocol of workers and sweeper, and retention.
- **Sessions and one-time credentials**: the session version, reset links and authenticator codes under interleaved steps
  and saves of stale account instances.

`dafny verify dfyconfig.toml` verifies everything. One module per file.

| modules | what they hold |
|---|---|
| `Outcomes`, `Bytes`, `Names`, `Lines`, `Ledger` | option and result, byte streams, names in order, JSON Lines members, sums over posted cells |
| `Split`, `SplitRounding` | the split in exact arithmetic, and under rounding |
| `Calendar`, `CivilTime` | months, years and weeks; days and buckets of a zone with summer time |
| `Windows`, `ReadModel` | meter assignments; totals, shares and split readings |
| `Series`, `SeriesLaws`, `SeriesScope`, `SeriesShares` | the two aggregations, their agreement, visibility and re-aggregation, and who gets which energy |
| `Envelope`, `EnvelopeLaws` | encryption and decryption of a stream, and what an attacker cannot change |
| `Registry`, `Tables`, `Sections` | the backed-up models, rows and inserts, which section holds which row |
| `References`, `ForeignKeys` | what deleting rows does to the rows that refer to them; the foreign keys of the schema with their actions |
| `Archive`, `Dump`, `Build`, `Verify` | writing an archive with its manifest, and verifying it |
| `Loader`, `InstanceRestore`, `InstanceLaws`, `Media` | loading in batches, the instance restore, media with undo |
| `Accounts`, `Logins`, `ZevClear`, `ZevRestore`, `ZevLaws`, `ZevUndo`, `ZevRoundTrip`, `ZevConflicts`, `ZevService`, `ZevFiles`, `ZevUndoPlan`, `ZevUndoChecks`, `ZevLinks` | the restore of one community |
| `Jobs`, `Retention`, `RetentionLaws` | the job protocol and the sweep |
| `Sessions` | session version, reset links, authenticator codes |

## Main results

1. **Two aggregations agree** (`SeriesLaws.SeriesAgree`): with full visibility and no filter, the attributed series summed over
   meters and participants is the ZEV-wide series, in every bucket and direction, for total, local and grid or feed-in. **And
   every cell is the right participant's** (`SeriesShares.CellIsSumOfPortions`, `SeriesShares.ParticipantTotal`): for every query
   and caller, a cell is the sum over the readings of its days and bucket, each split by its timestamp's factor, of the part that
   falls to the participant: all of it for the holder of a personal meter, the share by weight among those active that day for a
   community meter, and to nobody in an assignment gap or where nobody is active.
2. **Only what was sealed opens** (`EnvelopeLaws.OnlyGenuineFile`): under a genuine header that no other archive drew, what
   decryption has written is always a prefix of the original, and it succeeds exactly on the original frames; every truncation
   is refused. Without any assumption on the random prefixes, a file opens exactly when each of its frames comes, at its own
   position and finality, from an archive with its header, and what is written before a refusal are chunks of such archives
   (`EnvelopeLaws.OpensIffSpliced`). Encryption is under the first entry of the key setting that is not blank
   (`Envelope.EncryptStream`).
3. **An instance backup restores exactly** (`InstanceLaws.BackupRestoresExactly`), if and only if every backed-up row has a home.
   The clearing is never refused (`InstanceRestore.ClearIsNeverRefused`), and a row of any other table is as it was exactly when
   no chain of cascades leads it to a cleared row and it names none (`InstanceLaws.OtherRowUnchangedIff`). Foreign keys hold
   afterwards if they held in both databases (`InstanceLaws.BackupRestoresWhole`).
4. **Only the written archive passes** (`Verify.OnlyTheBuiltFilesPass`) against its manifest.
5. **A community restore is isolated, rows and files, if and only if its own-row record fits and no file of another community is
   overwritten** (`ZevFiles.RowsAndFilesIsolatedIff`). For the rows alone (`ZevLaws.RestoreIsIsolated`): whatever the archive
   holds, loading changes nothing outside the community beyond what deleting its rows does, exactly when the record in its own
   section is the community's or was already there. Protecting the logins of new managers afterwards writes rows of those
   accounts only, and nothing exactly when there are none.
   Every record's links are afterwards to the one account that answers today to the archive's reference with its id, and empty
   where there is none (`ZevLinks.RestoredLinks`).
6. **A community restore can be undone** by its safety backup. The second plan is permitted with force, and without force exactly
   when every record issued in the tables now was there before, an invoice in the same status (`ZevUndoPlan.UndoIsPermitted`). The
   second restore then loads without a clash, passes its counts and brings the community back (`ZevRoundTrip.UndoSucceeds`,
   `ZevUndo.SafetyBackupGivesBack`); foreign keys hold exactly when no row of the community named something the first restore
   took from outside it, and meter identities are as sound as before (`ZevUndoChecks.UndoPassesChecks`).
   `ZevRoundTrip.UndoIsExact` says exactly when every table is as it was, and `ZevFiles.FilesUndoneIff` when storage is.
7. **Whatever step fails, media come back** exactly when `Media.UndoExact` says so (`Media.RollbackRestores`): no new file was
   saved without being recorded, and no bytes that an earlier member had written were set aside over different ones.
8. **One claimant, one archive, one result** in every interleaving (`Jobs.OneClaimant`, `Jobs.OneArchive`,
   `Jobs.CompletedCarriesItsArchive`, `Jobs.ResultEndsItsClaimIff`); a job shows the last verdict (`Jobs.VerdictIsTheLast`);
   **retention keeps the newest**, by completion and creation times and whichever files are out of reach
   (`RetentionLaws.SweepByTime`, `RetentionLaws.SweepByTimeIff`, `RetentionLaws.AlwaysKeepsOne`).
9. **Refused once, refused for ever** (`Sessions.RefusedForever`); a reset link works once (`Sessions.ResetLinkWorksOnce`)
   and sets the password it was confirmed with (`Sessions.AppliedSetsPassword`); a session lasts until somebody is signed out
   (`Sessions.SessionLasts`).

## Where the code and its promises differ

Each of these is a lemma with the input that shows it, next to the exact condition under which the promise holds (for rounding,
a sufficient one).

- `backend/analytics/dataset.py:156-163` says the two 02:00 hours of the autumn change stay apart. `bucket_start` keeps them
  apart, but the accumulator's keys are datetimes of one time zone, which compare by wall clock, so the two hours share a row:
  `CivilTime.AutumnHoursMerge`, and exactly then `CivilTime.KeysMergeIff`. The series laws hold with these keys.
- `backend/allocation/split.py:52-54` says a slice can never exceed the draw. That holds exactly (`Split.ConsumptionIsLinear`) and
  fails after rounding: a draw of 9 out of 83 with enough solar gives a local part above 9 and a negative grid part
  (`SplitRounding.RoundedSliceExceedsDraw`).
- `AssignmentWindows` refuses some rows that share no day, when a window ends before it starts
  (`Windows.InvertedWindowRefused`); on well-formed windows it accepts exactly disjoint ones (`Windows.AcceptsIffDisjoint`).
- A finished job can be overwritten: the failure branches at `backend/backups/views.py:228` and `backend/backups/views.py:366-368`
  update without a status guard, so a delivery that arrived although it was reported as failed ends as failed
  (`Jobs.UnguardedFailureOverwrites`); no other step changes a finished row (`Jobs.TerminalChangesIff`).
- The media undo log misses a new file when an exception strikes after `save` and before the name is recorded, and two members
  that normalise to one name can defeat it (`Media.DuplicateNameDefeatsUndo`). `Media.RollbackRestores` gives the exact
  condition, which can be read off the members and the stored files before the call; with distinct names only the unrecorded
  file is left of it (`Media.DistinctNamesUndo`).
- A community restore compares the label of the own-row record but not its key, and the count afterwards looks for the
  community's own row, which is still there: an archive whose section for one community holds another one's row overwrites that
  row and goes through (`ZevLaws.ForeignRowOverwrites`). Exactly such a record, and only if it differs from what it overwrites,
  breaks the isolation of rows (`ZevLaws.RestoreIsIsolated`).
- The media step writes every name that a restored row refers to and never asks whether a row of another community holds it
  (`backend/backups/restore.py:388-406`). Invoice numbers are unique per community only (`backend/invoices/models.py:169`) and
  name the file, so after a community is purged another one can take its file names, and a genuine backup of the first then
  replaces the other's invoices (`ZevFiles.GenuineBackupOverwrites`; a whole run is `ZevFiles.SharedNameOverwrites`, in which the
  own-row record fits). A file held outside the community keeps its bytes exactly when no restored member stands for its name, or
  the last such member has those bytes (`ZevFiles.NameKeptIff`, `ZevFiles.FilesIsolatedIff`).
- Tables that are not backed up do not stay as they were: deleting runs the foreign keys' actions. An instance restore loses
  every notification (`InstanceLaws.NotificationsAreLost`), as well as login tokens, and empties references of backup jobs; a
  community restore loses notifications about its participants and forecast points of its meters. The exact rows are those of
  `InstanceLaws.OtherRowUnchangedIff` and `ZevLaws.OutsideRowUnchangedIff`; in a community restore accounts, credentials, audit
  events and access grants are never among them (`ZevLaws.StayingRowsAreUntouched`).
- A community restore can write rows of other communities: protecting a new manager's login revokes the onboarding links of all
  its participations, in whatever community (`Logins.OtherCommunitiesAreWritten`). What it may write is `Logins.OfAccount`, and it
  writes nothing exactly when the restore made nobody a manager without a protected login (`Logins.NothingWrittenIff`).
- A safety backup cannot always be restored without force: the first archive may have brought a sent or paid invoice, a contract
  or a delivered document that the safety backup lacks or holds otherwise, which the second plan refuses to take back. Exactly
  these records stand in the way (`ZevUndoPlan.UndoIsPermitted`).
- Undoing a community restore by its safety backup brings back the community, but not what deleting its rows took from outside
  it: rows that cascade to it, references to it, and issued contracts that had no community any more and that the restored
  archive also held. Every table is as before exactly when there was none of these, the own-row record fitted and no login
  was protected (`ZevRoundTrip.UndoIsExact`); the same decides whether a backup restored over its own tables changes anything
  (`ZevRoundTrip.OwnBackupChangesNothingIff`).
- A file header holds a random prefix of four bytes besides fixed settings (`backend/backups/crypto.py:222-233`), so two archives
  under one key can have the same header. Such a pair shares nonces and can be spliced at every position both have: the result
  opens to the start of one text and the rest of the other (`EnvelopeLaws.SharedHeaderSplices`). Exactly the splices of such archives open
  (`EnvelopeLaws.OpensIffSpliced`).
- Verification claims are told apart by their time alone: of two claims taken at one time, a verifier of the first that outlived
  it ends the second (`Jobs.EqualTimesMix`). A result ends the claim its verifier started under exactly when the job was not
  claimed again at the same time after that start (`Jobs.ResultEndsItsClaimIff`).
- `_verify_database_counts` cannot fail after a load (`InstanceLaws.CountsMustAgree`). The count per community can, and it is what
  keeps rows of another community in the archive's other sections out (`ZevLaws.LoadedRowsBelong`).

## Model

| member | source | states |
|---|---|---|
| `Split.SplitConsumption` | backend/allocation/split.py:35-78 | Succeeds exactly when 0 <= draw <= consumption and production >= 0; the two parts add up to the draw. |
| `Split.SplitProduction` | backend/allocation/split.py:81-111 | Succeeds exactly when 0 <= produced <= production and consumption >= 0. |
| `Split.ConsumptionIsLinear` | backend/allocation/split.py:72-78 | The local part is the pool factor times the draw, the grid part the remainder; both lie between 0 and the draw. |
| `Split.ProductionIsLinear` | backend/allocation/split.py:106-111 | The sold part is the pool factor times the output, and both parts add up to it and lie between 0 and it. |
| `Split.NoSplitRaises` | backend/allocation/split.py:64-71 | No split of non-negative readings against their own community totals is refused. |
| `Split.ConsumersShareThePool` | backend/allocation/split.py:72-78 | For any number of consumers, local parts add up to min(P, C) and grid parts to max(C - P, 0). |
| `Split.ProducersShareTheSales` | backend/allocation/split.py:106-111 | For any number of producers, local sales add up to min(P, C) and exports to max(P - C, 0). |
| `Split.CommunityBalance` | backend/allocation/split.py:35-111 | What consumers take locally is what producers sell locally, min(P, C), with grid draw and export the two excesses. |
| `SplitRounding.ConsumptionError` | backend/allocation/split.py:72-78 | With relative error u per operation the local part is within 2u + u^2 of exact, and grid is at least -(1 + u)(2u + u^2) times the draw. |
| `SplitRounding.GridNonNegative` | backend/allocation/split.py:72-78 | The rounded grid part is not negative when the pool with its rounding slack stays below the consumption. |
| `SplitRounding.PoolDrift` | backend/allocation/tests.py:122-130 | The rounded local parts of any number of consumers add up to the pool within a 2u + u^2 fraction. |
| `SplitRounding.ProductionError` | backend/allocation/split.py:108-111 | A producer's rounded parts add up to its output within 2u + u^2 when the excess of production is represented exactly. |
| `SplitRounding.ProductionErrorAny` | backend/allocation/split.py:108-111 | Without that condition the two parts are within three roundings of the output. |
| `SplitRounding.Context28Error` | backend/allocation/split.py:72-78 | Rounding to 28 significant digits has relative error 5e-28. |
| `SplitRounding.RoundedSliceExceedsDraw` | backend/allocation/split.py:52-54 | Draw 9 of 83 with at least 83 of production: the 28-digit local part exceeds 9 and grid is negative. |
| `Calendar.GregorianIncreases` | backend/analytics/dataset.py:174-177 | Gregorian month starts increase, so months and years cut time into consecutive pieces. |
| `Calendar.MonthLengths` | backend/analytics/dataset.py:174-177 | Every month of the Gregorian calendar has its length, February a day more in leap years. |
| `Calendar.MonthOf` | backend/analytics/dataset.py:174-175 | The month whose days contain the given one. |
| `Calendar.WeekStartIsMonday` | backend/analytics/dataset.py:156-178 | The first day of a week is a Monday, at most six days back. |
| `Calendar.YearStartIsJanuary` | backend/analytics/dataset.py:156-178 | The first day of a year is the first of its twelve months'. |
| `CivilTime.CivilDateIff` | backend/allocation/validity.py:47-86 | civil_date(ts) is d exactly when period_start_dt(d) <= ts < period_end_exclusive_dt(d). |
| `CivilTime.DayLength` | backend/allocation/validity.py:72-74 | A day is 23 hours when summer time begins, 25 when it ends, else 24. |
| `CivilTime.DaysTile` | backend/allocation/validity.py:57-86 | Every instant lies in exactly one day. |
| `CivilTime.CivilDateMonotone` | backend/allocation/validity.py:77-86 | civil_date never goes back, although wall-clock time does. |
| `CivilTime.WallRepeatsIff` | backend/allocation/validity.py:89-97 | Two instants share a wall clock exactly when they are the same time in the two copies of the autumn hour. |
| `CivilTime.WallRoundTrip` | backend/allocation/validity.py:47-54 | A wall clock read back gives its instant exactly outside the second copy of the autumn hour. |
| `CivilTime.BucketsAreFloors` | backend/analytics/dataset.py:156-178 | bucket_start is never after its argument, idempotent and monotone. |
| `CivilTime.SameBucketIff` | backend/analytics/dataset.py:156-178 | Two instants are in one bucket exactly when they are in the same quarter of an hour, hour, day, week, month or year. |
| `CivilTime.BucketsFactor` | backend/analytics/dataset.py:156-178 | A coarser bucket of a finer bucket is the coarser bucket (15min, hour, day, month, year; day, week). |
| `CivilTime.KeyIsTruncation` | backend/analytics/dataset.py:264-271 | A row's bucket key is the wall clock truncated to the granularity. |
| `CivilTime.KeysFactor` | backend/analytics/dataset.py:264-271 | Keys of coarser buckets are determined by keys of finer ones. |
| `CivilTime.KeysMergeIff` | backend/analytics/dataset.py:156-163 | Different buckets share a key exactly when they are sub-day buckets one hour apart across the autumn change. |
| `CivilTime.AutumnHoursMerge` | backend/analytics/dataset.py:156-163 | The two 02:00 hours of an autumn change have different buckets and one key. |
| `Windows.Build` | backend/allocation/windows.py:51-72 | The constructor succeeds exactly on accepted rows and then holds each meter's windows sorted; a refusal names a meter with clashing neighbours. |
| `Windows.WindowOn` | backend/allocation/windows.py:117-123 | The first window of the meter that covers the day, if any. |
| `Windows.SortedNeighboursDecide` | backend/allocation/windows.py:63-72 | Comparing neighbours after sorting decides all pairs. |
| `Windows.AcceptsIffCompatible` | backend/allocation/windows.py:51-72 | Rows are accepted exactly when no two windows of one meter clash. |
| `Windows.AcceptsIffDisjoint` | backend/allocation/windows.py:51-72 | On well-formed windows, rows are accepted exactly when no two windows of one meter share a day. |
| `Windows.InvertedWindowRefused` | backend/allocation/windows.py:63-72 | A window that ends before it starts is refused next to one it shares no day with. |
| `Windows.LookupIsTheCoveringRow` | backend/allocation/windows.py:117-169 | The lookup is the one row that covers the meter on the day, and there is at most one. |
| `Windows.PrefilterIsHarmless` | backend/allocation/windows.py:75-100 | Dropping rows that do not overlap the period keeps the rest accepted and changes no lookup inside the period. |
| `Windows.RowOrderIsIrrelevant` | backend/allocation/windows.py:51-72 | Neither acceptance nor a lookup depends on the order of the rows. |
| `ReadModel.KwhAtIsTotal` | backend/allocation/read_model.py:106-134 | The totals map answers every timestamp with the sum of its readings, absent ones with 0. |
| `ReadModel.GroupsKeepTotals` | backend/allocation/read_model.py:210-220 | Grouping readings by meter and timestamp keeps every timestamp's total. |
| `ReadModel.IterAllocatedReadings` | backend/allocation/read_model.py:164-244 | Yields each group split and assigned in order, or the first refusal. |
| `ReadModel.EligibleParticipantShares` | backend/allocation/read_model.py:60-103 | Per day of the period with eligible participants, their weights normalised; refuses exactly a day whose weights add up to 0. |
| `ReadModel.ActiveDuringIsEnough` | backend/allocation/read_model.py:84-97 | Filtering participants by the period changes nobody's eligibility on a day of it. |
| `ReadModel.SharesSumToOne` | backend/allocation/read_model.py:91-103 | With positive weights the shares of a day are positive and add up to 1. |
| `Series.ZevRows` | backend/analytics/dataset.py:296-324 | The ZEV-wide series: each cell is the sum over its bucket's timestamps. A scoped caller is refused exactly when some day's weights cannot be used, or some day with participants has fewer than the minimum, or no day has any. |
| `Series.AttributedRows` | backend/analytics/dataset.py:327-373 | Succeeds exactly when windows, weights and splits are all usable, and then is the attributed series. |
| `Series.AccumulateReading` | backend/analytics/dataset.py:347-373 | Adds one split reading's attributed parts to the rows the caller may see. |
| `Series.MinParticipants` | backend/analytics/dataset.py:185-187 | The smallest number of eligible participants on any day that has some. |
| `SeriesLaws.AttributedInFull` | backend/analytics/dataset.py:190-205 | The fractions a reading is attributed by add up to 1. |
| `SeriesLaws.InstantBalance` | backend/allocation/read_model.py:222-244 | At every timestamp the split readings add up to the ZEV-wide cell. |
| `SeriesLaws.BucketBalance` | backend/analytics/dataset.py:296-324 | The same per bucket. |
| `SeriesLaws.SeriesAgree` | backend/analytics/dataset.py:296-373 | The attributed series, summed over meters and participants, is the ZEV-wide series in every bucket and direction. |
| `SeriesLaws.SoundDataIsComputable` | backend/allocation/read_model.py:164-244 | Non-negative readings, positive weights and accepted assignments never make the attributed series fail. |
| `SeriesShares.CellIsSumOfPortions` | backend/analytics/dataset.py:190-210 | Every cell, for every query and caller, is the sum over the readings counted for its direction and bucket, on the columns of readings, assignments and participants: each split by its timestamp's factor, of it the portion of the row's participant, if the caller may see it and it passes the filters. |
| `SeriesShares.ParticipantTotal` | backend/analytics/dataset.py:190-210 | With full visibility and no filter, a participant's cells summed over meters, or nobody's, are the sum over the readings of the participant's portions. |
| `SeriesShares.AttributedPortion` | backend/analytics/dataset.py:190-210 | A personal reading goes to its holder, a community reading by weight to those active that day, anything else to nobody. |
| `SeriesShares.CountedIff` | backend/allocation/read_model.py:106-134 | The readings of a query are those of meters that measure the direction, taken on its civil days. |
| `SeriesShares.FoundIsHolder` | backend/allocation/windows.py:117-169 | On a day of the range, the assignment found is the one valid that day. |
| `SeriesShares.GroupsKeepSums` | backend/allocation/read_model.py:210-220 | Grouping keeps every additive sum over meter and timestamp, so no energy moves from one meter to another. |
| `SeriesShares.EnoughIff` | backend/analytics/dataset.py:185-187 | The rule by which ZEV-wide totals are withheld, counted on the participants' columns. |
| `SeriesScope.ScopedSeriesIsRestriction` | backend/analytics/dataset.py:94-110 | Without a meter filter, a participant-scoped series summed over meters is the full one restricted to the visible participants. |
| `SeriesScope.MeterNamedOnlyToItsHolder` | backend/analytics/dataset.py:340-373 | A scoped series names a meter only if a visible participant held it personally for a reading in the bucket. |
| `SeriesScope.CoarseSeriesIsRegroupedFine` | backend/analytics/dataset.py:264-271 | Re-aggregating a fine series gives the coarse one exactly. |
| `SeriesScope.CoarseZevSeriesIsRegroupedFine` | backend/analytics/dataset.py:309-319 | The same for the ZEV-wide series: every coarse cell is the sum of the fine cells whose bucket falls in it. |
| `Bytes.BigEndianRoundTrip` | backend/backups/crypto.py:184-190 | Counters and lengths that fit their width read back from their big-endian bytes. |
| `Bytes.MostSignificantFirst` | backend/backups/crypto.py:184-190 | The most significant byte comes first. |
| `Envelope.FindKey` | backend/backups/crypto.py:276-282 | A configured key with the fingerprint, or none has it. |
| `Envelope.ConfiguredInOrder` | backend/backups/crypto.py:95-105 | The configured keys are accepted exactly when every entry that is not blank is long enough, and are then those entries in the setting's order, each as often as it occurs. |
| `Envelope.SealStream` | backend/backups/crypto.py:238-248 | Writes the sealed chunks of the input, the last one marked final; refuses exactly inputs with more chunks than the counter counts. |
| `Envelope.EncryptStream` | backend/backups/crypto.py:208-248 | Encrypts under the first entry of the setting that is not blank; refuses exactly for a short key, no key, a chunk size out of range or a counter overflow. |
| `Envelope.ReadExactly` | backend/backups/crypto.py:192-196 | Exactly the bytes asked for, or a truncation error. |
| `Envelope.ReadSealed` | backend/backups/crypto.py:287-296 | One frame, the end of the stream, or the error of a malformed frame. |
| `Envelope.OpenStream` | backend/backups/crypto.py:298-314 | Writes and refuses exactly what the frame-by-frame reading with one chunk of lookahead does. |
| `Envelope.ReadHeader` | backend/backups/crypto.py:258-274 | The header and its raw bytes, or the error of a malformed one. |
| `Envelope.DecryptStream` | backend/backups/crypto.py:251-314 | Header, key selection by fingerprint, then the body. |
| `EnvelopeLaws.RoundTrip` | backend/backups/crypto.py:208-314 | Decryption gives back every plaintext for every legal chunk size, under any key list that still holds the key. |
| `EnvelopeLaws.NoncesDistinct` | backend/backups/crypto.py:188-190 | No two chunks of a stream share a nonce. |
| `EnvelopeLaws.WorldExists` | backend/backups/crypto.py:184-190 | The hypotheses on the cipher are satisfiable. |
| `EnvelopeLaws.OnlyGenuineOpens` | backend/backups/crypto.py:184-190 | Under a header no other archive drew, a chunk that opens at a position is the one sealed there, with the same finality. |
| `EnvelopeLaws.OnlyGenuineBody` | backend/backups/crypto.py:287-314 | What is written is a prefix of the original, and reading succeeds exactly on the original frames. |
| `EnvelopeLaws.OnlyGenuineFile` | backend/backups/crypto.py:251-314 | The same for a whole file with a genuine header that no other archive drew. |
| `EnvelopeLaws.OpensIffSpliced` | backend/backups/crypto.py:222-233 | With no assumption on the random prefixes, a file with an issued header opens exactly when its frames, each at its own position and finality, come from archives with that header; if it does not open, what was written are such chunks, none of them a last one. |
| `EnvelopeLaws.SharedHeaderSplices` | backend/backups/crypto.py:222-233 | Two archives that drew one prefix can be spliced at every position both have, and the splice opens. |
| `EnvelopeLaws.TruncationRefused` | backend/backups/crypto.py:192-196 | Every proper prefix of an encrypted file is refused. |
| `EnvelopeLaws.ForeignHeaderRefused` | backend/backups/crypto.py:184-186 | Under a header that was never issued nothing is written and reading fails. |
| `Registry.RegistryIsWellFormed` | backend/backups/registry.py:27-165 | Every model has one section, unscoped models name their community by a column, and parents stand before what reaches its community through them. |
| `Tables.InsertAllIff` | backend/backups/restore.py:280-287 | Rows can be inserted exactly when their keys are distinct and free; the tables then hold old and new rows, each under its key. |
| `Tables.CountAfter` | backend/backups/restore.py:506-512 | A table grows by exactly the rows of its model that were loaded. |
| `References.CollectIff` | backend/backups/restore.py:255-260 | A deletion collects exactly the rows from which a chain of cascading references leads to a deleted one. |
| `References.RemovalTwice` | backend/backups/restore.py:255-260 | Deleting one set after another leaves the tables, emptied references included, as deleting both at once does. |
| `References.DeleteSeqIs` | backend/backups/restore_zev.py:354-361 | A sequence of deletions that is not refused leaves what one deletion of all its rows leaves. |
| `References.OrderedDeletions` | backend/backups/restore.py:219-228 | Deleting model by model, dependants first, is never refused and loses only the deleted rows and outer rows that cascade to them. |
| `ForeignKeys.SchemaIsCoherent` | backend/inbox/models.py:50-88 | Emptying references changes exactly the columns set to null, and changes a row exactly when one of them names a deleted row. |
| `ForeignKeys.SchemaFits` | backend/invoices/models.py:85-86 | Every protected reference of the schema names a model loaded before its own; every reference of a backed-up row names a backed-up model; nothing kept by a community restore refers to anything it replaces. |
| `Sections.OneSectionPerRow` | backend/backups/archive.py:230-260 | No row is written to two sections. |
| `Sections.HomeIff` | backend/backups/registry.py:46-54 | A row is in some section exactly when it is an instance row, its community is backed up, or it has none and its model is kept without. |
| `Sections.PlanLists` | backend/backups/restore.py:200-216 | The load plan names every section of the backup once. |
| `Sections.StreamIsHomedRows` | backend/backups/archive.py:230-260 | The records of all sections are the rows that have a home, each once. |
| `Lines.RecordsRoundTrip` | backend/backups/archive.py:168-190 | Reading a JSON Lines member gives back the records written. |
| `Lines.NewlinesAreRecords` | backend/backups/archive.py:515-527 | A member has as many newlines as records. |
| `Archive.HashingWriter.Write` | backend/backups/archive.py:101-120 | Forwards, digests and measures the same bytes. |
| `Archive.HashingWriter.CopyFrom` | backend/backups/archive.py:205-207 | Copies everything left in a stream, block by block. |
| `Archive.Writer.JsonMember` | backend/backups/archive.py:163-166 | Adds one member with its digest and size. |
| `Archive.Writer.JsonlMember` | backend/backups/archive.py:168-190 | Adds one member holding the rows of all parts in order, described by digest, size, record count and per-model counts. |
| `Archive.Writer.MediaMember` | backend/backups/archive.py:192-209 | Copies a stored file once; reports a missing one. |
| `Archive.PerModelIsTally` | backend/backups/archive.py:177-188 | The recorded per-model counts are those of the rows written, apart from models without rows. |
| `Dump.WriteSection` | backend/backups/archive.py:230-256 | The section member reads back as exactly the section's rows, each once; no other member changes. |
| `Dump.WriteSections` | backend/backups/archive.py:230-256 | The same for a list of sections, with their counts. |
| `Dump.ListAccounts` | backend/backups/archive.py:255-268 | One reference to every account among the ids that exists, as it is now. |
| `Dump.CollectIds` | backend/backups/archive.py:216-227 | The accounts that any row of the community points at. |
| `Dump.ReferencedIff` | backend/backups/archive.py:216-227 | The accounts a backup refers to are exactly those named by a row of the community's sections. |
| `Dump.WriteMedia` | backend/backups/archive.py:270-292 | The community's media members are the stored files its rows refer to, byte for byte. |
| `Build.WriteInstance` | backend/backups/archive.py:230-238 | Every instance section and every section of rows without a community is written. |
| `Build.WriteZev` | backend/backups/archive.py:241-302 | Sections, account references and media of one community are written; nothing outside its directory changes. |
| `Build.BuildArchive` | backend/backups/archive.py:322-392 | Refuses exactly a scope that does not fit the community given; otherwise the archive is complete for its scope and vouched for member by member. |
| `Verify.ExpectedIff` | backend/backups/archive.py:456-472 | The list of required names is exactly the sections and account lists of the scope. |
| `Verify.Measure` | backend/backups/archive.py:508-516 | Digest, size and newlines read block by block are those of the whole member. |
| `Verify.VerifyOpenArchive` | backend/backups/archive.py:475-542 | Accepts exactly the archives that pass: nothing unlisted, nothing required missing, every member intact, counts agreeing. |
| `Verify.PassingMeans` | backend/backups/archive.py:475-542 | An accepted archive, member by member: listed and present, with the digest, size and number of lines recorded for it, and every section count its file's. |
| `Verify.BuiltPasses` | backend/backups/archive.py:356-392 | Every archive the writer builds passes. |
| `Verify.OnlyTheBuiltFilesPass` | backend/backups/archive.py:475-542 | With an injective digest, against the manifest of a built archive exactly its own members with its own bytes pass. |
| `Loader.Database.BulkCreate` | backend/backups/restore.py:280-287 | One INSERT: all rows, or none when a key is taken. |
| `Loader.Database.Append` | backend/backups/restore.py:289-303 | A change of model or a full batch writes what is pending; written and pending rows are the stream so far. |
| `Loader.Database.LoadMember` | backend/backups/restore.py:273-320 | Succeeds exactly when all lines read, all rows are allowed, the counts are the recorded ones and no key clashes; batches hold one model, at most 1000 rows, and concatenate to the records. |
| `InstanceRestore.ClearOrderLists` | backend/backups/restore.py:219-228 | The order of clearing names every backed-up model once. |
| `InstanceRestore.DependantsFirst` | backend/backups/restore.py:219-228 | Of two models in load order, the later one is cleared before the earlier one. |
| `InstanceRestore.Clear` | backend/backups/restore.py:255-260 | Deletes exactly the backed-up rows and the export jobs, with what cascades to them, or is refused where a protected row remains. |
| `InstanceRestore.ClearIsNeverRefused` | backend/backups/restore.py:255-260 | Whatever the tables hold, no deletion of the clearing is refused. |
| `InstanceRestore.LoadAll` | backend/backups/restore.py:479-484 | Loads the planned sections in order, or fails exactly when one of them cannot be loaded. |
| `InstanceLaws.CountsMustAgree` | backend/backups/restore.py:506-512 | After clearing and loading, every table holds exactly what was loaded into it. |
| `InstanceLaws.RestoreDatabase` | backend/backups/restore.py:475-487 | One transaction: the tables become the loaded ones, or stay as they were. |
| `InstanceLaws.BackupRestoresExactly` | backend/backups/restore.py:434-512 | Restoring an instance backup into any database is accepted and reproduces every backed-up table, keys included, if and only if every backed-up row had a home; every other table keeps exactly the rows that do not cascade to a cleared one, with references to lost rows emptied. |
| `InstanceLaws.BackupRestoresWhole` | backend/backups/restore.py:475-490 | If foreign keys held when a complete backup was taken and hold now, they hold after it is restored. |
| `InstanceLaws.OtherRowUnchangedIff` | backend/backups/restore.py:255-260 | A row of another table is as it was exactly when no chain of cascades leads it to a cleared row and it names none. |
| `InstanceLaws.NotificationsAreLost` | backend/notifications/models.py:22-25 | An instance restore loses every notification, whose recipient is an account. |
| `InstanceLaws.RestoreInstance` | backend/backups/restore.py:434-503 | Whatever fails, the database is as it was, and storage too exactly when the undo log can be exact at that point; on success rows and referenced media are the archive's. |
| `InstanceLaws.RestoreFiles` | backend/backups/restore.py:485-501 | The media step with its undo, which also covers a failure after the last file: of the sequences or the commit. |
| `InstanceLaws.ListMediaOf` | backend/backups/restore.py:391-394 | The media members of one community by ascending path. |
| `InstanceLaws.ListMedia` | backend/backups/restore.py:388-394 | The media members of every community in the manifest, in its order. |
| `Names.AscendingIsUnique` | backend/backups/restore.py:393 | There is one ascending list of a set of names, so the order of the members is determined. |
| `Names.LessIff` | backend/backups/restore.py:393 | The order of names is by code points: equal up to a place where one ends or has the smaller character. |
| `Media.MediaUndo.Keep` | backend/backups/restore.py:351-356 | Sets a file's bytes aside. |
| `Media.MediaUndo.Rollback` | backend/backups/restore.py:358-372 | Removes what was created and writes back what was replaced. |
| `Media.RestoreMedia` | backend/backups/restore.py:379-411 | With an exception possible at any step, storage and log are those of a run up to that step. |
| `Media.RollbackRestores` | backend/backups/restore.py:338-411 | Rolling back after an exception at any step returns storage to its contents before if and only if no new file was saved without being recorded and every name kept after an earlier item wrote it originally held the bytes kept. |
| `Media.DistinctNamesUndo` | backend/backups/restore.py:394-406 | When no two members normalise to one name, only the unrecorded new file is left of that condition. |
| `Media.RestoredFiles` | backend/backups/restore.py:391-411 | On success each referenced name holds the bytes of the last member written under it and every other name is untouched. |
| `Media.DuplicateNameDefeatsUndo` | backend/backups/restore.py:394-406 | Two members of one normalised name leave the first one's bytes after a rollback, so the undo is exact only if those were there before. |
| `Accounts.ResolveAccounts` | backend/backups/restore_zev.py:193-215 | Maps every reference to the one account with its email, else its username, else to none, and lists the unresolved. |
| `Accounts.ResolvesIff` | backend/backups/restore_zev.py:203-210 | With unique accounts a reference resolves to an account exactly when it has the email, or nobody has it and it has the username. |
| `Accounts.EmailMovedRelinks` | backend/backups/restore_zev.py:203-210 | An account whose email moved to another one is relinked to the other. |
| `Accounts.RelinkIsIdentityIff` | backend/backups/restore_zev.py:364-378 | A row survives relinking exactly when each account it names is linked to itself. |
| `Logins.NewlyManagingIff` | backend/backups/restore_zev.py:512-517 | The accounts to protect, on their columns: no independent login required, and a role of issuer or representative in the community held by a party of theirs or of one of their participations. |
| `Logins.ProtectAllFrame` | backend/zev/services.py:277-309 | Protecting accounts writes only those accounts, their credentials, keys and codes and the onboarding links of their participations; it creates no row, deletes only credentials, and keeps emails, usernames and references. |
| `Logins.ProtectAllSignsOut` | backend/zev/services.py:302 | Every unprotected account among them ends with a higher session version. |
| `Logins.ProtectAllRevokes` | backend/zev/onboarding.py:49-56 | Every onboarding link of a protected account's participations is revoked, whichever community it belongs to. |
| `Logins.OtherCommunitiesAreWritten` | backend/zev/services.py:304 | Protecting the new managers of one community changes live onboarding links of every community they take part in. |
| `Logins.NothingWrittenIff` | backend/backups/restore_zev.py:512-525 | The step writes nothing at all exactly when the restore made nobody a manager without a protected login. |
| `ZevClear.CommunityStable` | backend/backups/restore_zev.py:347-361 | While the community is cleared, every row that is left keeps its community: what it reaches it through is left too. |
| `ZevClear.ClearZev` | backend/backups/restore_zev.py:347-361 | Deletes exactly the community's restored rows and the orphaned contracts the backup holds, with what cascades to them, model by model as the code queries them; refused exactly when at some turn a row that protects its target refers to a lost one. |
| `ZevClear.StayingIsUntouched` | backend/backups/restore_zev.py:347-361 | No account, credential, audit event, access grant, instance row or community row is deleted or written by the clearing. |
| `ZevRestore.LoadZevRow` | backend/backups/restore_zev.py:381-395 | Writes the community's own row in place; refuses anything but one such record. |
| `ZevRestore.Apply` | backend/backups/restore_zev.py:398-419 | The own row, then every restored section with accounts relinked, or a failure for a stated reason. |
| `ZevRestore.VerifyCounts` | backend/backups/restore_zev.py:422-428 | Every restored model holds as many of the community's rows as were loaded. |
| `ZevRestore.ProtectAccounts` | backend/backups/restore_zev.py:512-525 | Protects exactly the newly managing accounts, one after the other, or fails exactly when one of them is refused. |
| `ZevRestore.RestoreZevRows` | backend/backups/restore_zev.py:487-526 | One transaction: cleared, relinked, loaded, logins protected, counted and admissible, or nothing changed. |
| `ZevLinks.RestoredLinks` | backend/backups/restore_zev.py:364-378 | After every restore that goes through, each record of the archive is there with nothing but its links changed: an empty link empty, any other to the one account that answers today to the archive's reference with its id, or empty if there is none. |
| `ZevLinks.CandidateIff` | backend/backups/restore_zev.py:193-215 | The candidates of a reference are the accounts that answer to it by email, or by username if nobody has the email. |
| `ZevClear.ShippedSuits` | backend/backups/registry.py:77-165 | The shipped registry and foreign keys meet what the community laws ask of them. |
| `ZevLaws.LoadedRowsBelong` | backend/backups/restore_zev.py:422-428 | Every row loaded belongs to the community, because its rows are counted afterwards. |
| `ZevLaws.RestoreIsIsolated` | backend/backups/restore_zev.py:347-428 | Whatever the archive holds, a restore that goes through leaves every row outside the community as deleting its rows leaves it, if and only if the own-row record is the community's or was already there; login protection then writes rows of newly managing accounts only, and nothing exactly when there are none. |
| `ZevLaws.ForeignRowOverwrites` | backend/backups/restore_zev.py:381-395 | An archive whose own-row record is another community's overwrites that community's row and goes through. |
| `ZevLaws.StayingRowsAreUntouched` | backend/backups/restore_zev.py:347-361 | An isolated load leaves accounts, credentials, audit events, access grants, instance data and other communities' own rows as they were. |
| `ZevLaws.OutsideRowUnchangedIff` | backend/metering/models.py:646-647 | A row outside the community is as it was, and still outside, exactly when no chain of cascades leads it to a deleted row and it names none. |
| `ZevLaws.OrphanedContract` | backend/backups/restore_zev.py:347-353 | An issued contract without a community, of which the archive has no record, is there afterwards column for column. |
| `ZevUndo.GivenBackIff` | backend/backups/restore_zev.py:398-419 | A later restore of a backup gives the community back as it was exactly when relinking leaves each of its rows alone. |
| `ZevUndo.SafetyBackupGivesBack` | backend/backups/restore_zev.py:193-215 | Over whatever the tables have become, that is exactly when every account it names still answers to its email, or to its username if nobody has that email; login protection afterwards stays in its frame. |
| `ZevRoundTrip.UndoSucceeds` | backend/backups/restore_zev.py:487-526 | Restoring any archive and then the safety backup: clearing for the second restore is not refused, it loads without a clash, passes its counts, and leaves the first one's tables with the community as it originally was. |
| `ZevRoundTrip.UndoIsExact` | backend/backups/restore_zev.py:487-526 | After both, every table is as it was if and only if neither protected a login, the first archive's own-row record fitted, and deleting the community's rows took nothing from outside it. |
| `ZevRoundTrip.OwnBackupChangesNothingIff` | backend/backups/restore_zev.py:431-544 | Restoring a community's backup over the tables it was taken from changes nothing at all exactly when it protects no login and deleting the community's rows takes nothing from outside it. |
| `ZevConflicts.ReadFacts` | backend/backups/restore_zev.py:137-188 | Invoice statuses, contracts, documents, meter ids and price sources of the archive, nothing missing or added. |
| `ZevConflicts.Evaluate` | backend/backups/restore_zev.py:226-313 | Blocked exactly by a hard conflict (a meter owned elsewhere, a price source missing, an export or another restore under way, a login to set up), or by an overridable one without force; lists exactly the conflicts there are. |
| `ZevConflicts.PermittedMeans` | backend/backups/restore_zev.py:272-309 | Without hard conflicts, on the columns: no export of the community and no other restore of it is queued or running, and every price source the archive's tariffs and invoice evidence name exists. |
| `ZevConflicts.IssuedRecordsSurvive` | backend/backups/restore_zev.py:241-270 | Without force, every sent or paid invoice keeps its status and every contract and delivered document is still there. |
| `ZevConflicts.MetersStayApart` | backend/backups/restore_zev.py:272-281 | No meter id or secondary meter id of a restored point equals either id of another community's point. |
| `ZevService.Plan` | backend/backups/restore_zev.py:450-476 | A restore is permitted exactly for a sound archive of the community, of this schema, without unresolved conflicts. |
| `ZevService.RestoreZev` | backend/backups/restore_zev.py:431-544 | The safety backup is a complete backup of the community before the first write; on any failure the database is as it was, and storage exactly when the undo log can be exact; on success tables and media are those of the replacement. |
| `ZevFiles.NameKeptIff` | backend/backups/restore.py:391-406 | A stored name keeps its bytes exactly when no restored member stands for it or the last such member has those bytes. |
| `ZevFiles.RowsAndFilesIsolatedIff` | backend/backups/restore_zev.py:498-529 | A restore that went through leaves rows and files outside the community alone, beyond what deleting its rows does, if and only if the own-row record fits and no file a row outside holds is written with other bytes. |
| `ZevFiles.UnsharedNamesFit` | backend/backups/restore.py:399-401 | It is enough that no restored row shares a file name with a row outside. |
| `ZevFiles.ShippedMediaScoped` | backend/backups/registry.py:77-165 | In the shipped registry, rows with files name their community by a column and are restored with it. |
| `ZevFiles.GenuineBytes` | backend/backups/archive.py:270-292 | Restoring a genuine backup writes, under exactly the names it holds a file for, the bytes it was taken with. |
| `ZevFiles.BackedUpNameIff` | backend/backups/archive.py:270-292 | A backup holds a file for exactly the normalised, stored names in the file columns of the community's invoices, credits and documents. |
| `ZevFiles.GenuineBackupOverwrites` | backend/zev/purge.py:133-135 | A genuine backup replaces the file of a row outside the community that has taken one of its file names meanwhile. |
| `ZevFiles.SharedNameOverwrites` | backend/invoices/models.py:169 | A whole run: the community is gone, its archive has one invoice, another community's invoice holds that file name; the restore goes through, the own-row record fits and the other's file is replaced. |
| `ZevFiles.FilesUndoneIff` | backend/backups/restore_zev.py:528-529 | After any archive and then the safety backup, storage is as it was if and only if every name the first restore changed is one the safety backup holds a file for. |
| `ZevUndoPlan.UndoIsPermitted` | backend/backups/restore_zev.py:241-281 | The plan of the second restore: permitted with force when no meter clashed and nothing ran; without force exactly when every record issued in the tables now was in the original ones, an invoice with the same status. |
| `ZevUndoPlan.SecondHard` | backend/backups/restore_zev.py:272-309 | The second plan's hard conflicts are those the original tables raise, at rows that were not lost. |
| `ZevUndoPlan.OwnHardIff` | backend/backups/restore_zev.py:272-309 | Over its own tables, a community's own backup meets a hard conflict exactly where a meter clashes or an export or restore runs. |
| `ZevUndoPlan.SecondSoft` | backend/backups/restore_zev.py:241-270 | The conflicts that force overrides are exactly the issued records of today that the original tables lack or hold in another status. |
| `ZevUndoPlan.ShippedPlanFits` | backend/backups/restore_zev.py:114-134 | The shipped registry and foreign keys meet what the second plan relies on. |
| `ZevUndoChecks.UndoneIsWholeIff` | backend/backups/restore_zev.py:527 | Foreign keys hold in the undone tables exactly when no row of the community named something lost from outside it. |
| `ZevUndoChecks.UndoPassesChecks` | backend/backups/restore_zev.py:503-527 | The same after login protection, for any first archive whose own-row record fits; and the community's meter identities are as sound as before. |
| `ZevUndoChecks.ShippedNamesNoCredential` | backend/accounts/models.py:302-422 | No foreign key of the schema names a credential, so login protection leaves none dangling. |
| `Jobs.JobTable.ClaimJob` | backend/backups/tasks.py:158-162 | A claim succeeds exactly on a queued row, and takes it to running. |
| `Jobs.JobTable.PublishJob` | backend/backups/tasks.py:225-244 | Publishing succeeds exactly on a running row. |
| `Jobs.JobTable.MarkFailed` | backend/backups/tasks.py:105-111 | Failing succeeds exactly on a row in the expected status. |
| `Jobs.JobTable.FailStalled` | backend/backups/retention.py:140-166 | Exactly the rows that still have the status they were seen in fail, and the report counts them. |
| `Jobs.StalledIff` | backend/backups/retention.py:140-150 | A sweep reads exactly the listed jobs that are queued or running, in the status they have. |
| `Jobs.OneClaimant` | backend/backups/tasks.py:345-349 | In every run a job is claimed at most once and by one worker, and no two workers work on it. |
| `Jobs.OneArchive` | backend/backups/tasks.py:158-162 | In every run at most one archive is stored for a job. |
| `Jobs.CompletedCarriesItsArchive` | backend/backups/tasks.py:225-244 | In every run a completed row carries the one archive stored for it, by its one claimant. |
| `Jobs.TerminalChangesIff` | backend/backups/views.py:224-228 | A finished row changes exactly when it is completed and the unguarded failure branch hits it. |
| `Jobs.TerminalStays` | backend/backups/tasks.py:413-422 | Without that branch a finished row keeps status and archive for ever. |
| `Jobs.UnguardedFailureOverwrites` | backend/backups/views.py:224-228 | A run in which a completed backup ends as failed. |
| `Jobs.OneResultPerClaim` | backend/backups/tasks.py:510-566 | Verification claims and their ends balance, and results never exceed claims. |
| `Jobs.ResultEndsItsClaim` | backend/backups/tasks.py:545-565 | In every run a published verification result ends the very claim its verifier started under, provided no other claim of the job was taken at the same time. |
| `Jobs.ResultEndsItsClaimIff` | backend/backups/tasks.py:545-565 | In every run a published verification result ends the claim its verifier started under if and only if the job was not claimed again at the same time after that start. |
| `Jobs.EqualTimesMix` | backend/backups/tasks.py:562-565 | Two claims taken at one time: the verifier of the first, given up meanwhile, ends the second. |
| `Jobs.VerdictIsTheLast` | backend/backups/tasks.py:562-565 | In every run a job shows the verdict of the last verification that ended with one; one given up by the sweep counts as failed. |
| `Jobs.ClaimedForVerificationIff` | backend/backups/tasks.py:510-518 | A verification is claimed exactly for a completed backup that still has its file and is not being verified. |
| `Jobs.DeletedIsNeverVerified` | backend/backups/tasks.py:510-518 | A backup whose file was deleted is never claimed for verification again. |
| `Retention.ExpiredPks` | backend/backups/retention.py:110-119 | Exactly the expired backups that are not in use. |
| `Retention.FindBeyondRetention` | backend/backups/retention.py:122-137 | Exactly the backups beyond their destination's limit, per kind, that are not in use. |
| `Retention.BeyondRetentionIff` | backend/backups/retention.py:122-137 | A routine backup is beyond retention exactly when the limit is set, at least that many newer ones of its kind exist, and it is not in use. |
| `Retention.BeyondRetentionBounds` | backend/backups/retention.py:122-137 | With ties: beyond retention if the limit's number of newer ones of its kind exist, and only if as many exist that are not older. |
| `Retention.BackupTable.Sweep` | backend/backups/retention.py:169-201 | Expiry then retention, both under the snapshot of used backups, skipping artifacts that cannot be deleted. |
| `RetentionLaws.ExpiryAndRetentionDisjoint` | backend/backups/tasks.py:92-102 | No backup is deleted by both, since only safety backups expire. |
| `RetentionLaws.SweepSurvivors` | backend/backups/retention.py:122-137 | After a sweep a routine backup is gone exactly when its destination has a limit, at least that many newer ones of its kind existed there, it was not in use and its file could be reached. |
| `RetentionLaws.SweepBounds` | backend/backups/retention.py:122-137 | The same with ties, as two bounds. |
| `RetentionLaws.SweepByTime` | backend/backups/retention.py:122-137 | On completion times alone: a sweep deletes a routine backup only if as many others of its kind there as are kept were completed no earlier, so never the last one; it spares a deletable one only if fewer were completed later. |
| `RetentionLaws.SweepByTimeIff` | backend/backups/retention.py:130 | Where no two share completion and creation time, it deletes exactly if as many are ahead by them as are kept. |
| `RetentionLaws.SweepExpires` | backend/backups/retention.py:110-119 | A safety backup is deleted exactly when it has expired, is not in use and its file can be reached. |
| `RetentionLaws.SweepExpiresByDate` | backend/backups/retention.py:110-119 | A safety backup, on its columns, is gone after a sweep exactly when its date has come, nothing reads it and its file can be reached. |
| `RetentionLaws.SafetyBackupLasts` | backend/backups/tasks.py:92-102 | A safety backup at a saved destination lasts as many days as are configured when it completes, or for ever without. |
| `RetentionLaws.SecondSweepDeletesNothing` | backend/backups/retention.py:169-201 | A repeated sweep under the same snapshot, with the same files out of reach, changes nothing. |
| `RetentionLaws.AlwaysKeepsOne` | backend/backups/retention.py:122-137 | Over any run of completions and sweeps, a kind that once had a backup at a destination keeps one. |
| `Sessions.AccountRow.Save` | backend/accounts/models.py:128-168 | Saving an instance never writes the session version or the login requirement, nor a password that was not set through it. |
| `Sessions.AccountRow.RevokeSessions` | backend/accounts/session_revocation.py:61-70 | Increments the stored version. |
| `Sessions.AccountRow.ConfirmReset` | backend/accounts/views_security.py:243-285 | Succeeds exactly when the link still resolves on the locked row; then the password is the new one, the session version one higher, and no other column differs. |
| `Sessions.LinkResolvesIff` | backend/accounts/password_reset.py:47-74 | A link resolves exactly on an active account with an address that may be reset and whose address, password and version are those it was issued for. |
| `Sessions.AppliedSetsPassword` | backend/accounts/views_security.py:266-276 | A step that applies a link sets the password it was given, signs every session out and changes nothing else. |
| `Sessions.ResetGoesThroughIff` | backend/accounts/views_security.py:243-276 | A link of today, opened and confirmed with nothing in between, goes through exactly when the account may be reset. |
| `Sessions.LateUpgradeKeepsNewPassword` | backend/accounts/models.py:105-116 | Upgrading a hash that was checked before a reset changes nothing after it. |
| `Sessions.VersionGrowsOverRuns` | backend/accounts/models.py:128-168 | Over every run of logins, revocations, resets and stale saves the session version never decreases. |
| `Sessions.RefusedForever` | backend/accounts/session_revocation.py:27-39 | A token refused for its version is refused after every continuation. |
| `Sessions.RevokeRefusesAll` | backend/accounts/session_revocation.py:61-70 | After a revocation every token issued before is refused for ever. |
| `Sessions.SessionLasts` | backend/accounts/session_revocation.py:27-39 | A token issued to a client that has just loaded the account is current through every run that signs nobody out, unless it is a participant's and an independent login is required. |
| `Sessions.ProtectedLogin` | backend/zev/services.py:288-308 | Protecting a login ends with no password from a participant's link, signs out, and requires an own login unless the account is only invited. |
| `Sessions.NamedColumnsOnly` | backend/accounts/models.py:128-168 | Saving named columns writes those and no others, and never the session version. |
| `Sessions.ResetLinkWorksOnce` | backend/accounts/password_reset.py:47-74 | No reset link is applied twice in any run. |
| `Sessions.RevokedLinkStaysDead` | backend/accounts/password_reset.py:47-74 | A reset link issued before a revocation, in whatever state, resolves in no later state. |
| `Sessions.StaleSavesAreHarmless` | backend/accounts/models.py:128-168 | However stale the instances clients have loaded and edited, saving them in any order brings back neither an old password nor an old login requirement. |
| `Sessions.MatchingStep` | backend/accounts/models.py:336-347 | The first step of the window whose code matches, or none matches. |
| `Sessions.TotpDevice.CheckCode` | backend/accounts/models.py:349-374 | Accepts exactly a matching step later than the last one used, and records it. |
| `Sessions.AcceptedStepsIncrease` | backend/accounts/models.py:349-374 | Over any run the accepted steps strictly increase, so none is accepted twice (section 5.2 of RFC 6238). |

## Left out

- SplitRounding.GridNonNegative: gives a sufficient condition for a non-negative rounded grid part, not a necessary one, because whether a part rounds up depends on the digits of each operand.
- SplitRounding.ProductionError: assumes that the excess of production over consumption is represented exactly; `SplitRounding.ProductionErrorAny` drops this for one more rounding.
- SeriesShares.CellIsSumOfPortions: is stated for readings that are not negative and data that can be allocated, since the code refuses the rest.
- CivilTime.BucketsFactor: days before the first day of the model's calendar are outside it.
- Windows.RowOrderIsIrrelevant: is stated for windows that do not end before they start.
- Retention.BeyondRetentionIff: assumes that no two routine backups of a kind share both completion and creation time, by which the code orders; the order of such ties is the database's, and `Retention.BeyondRetentionBounds` bounds what any order gives.
- RetentionLaws.SecondSweepDeletesNothing: the same assumption, since a tie read in another order can put another backup beyond the limit.
- Jobs.ResultEndsItsClaim: assumes distinct claim times, without which it is false (`Jobs.EqualTimesMix`); `Jobs.ResultEndsItsClaimIff` gives the exact condition.
- ZevLaws.RestoreIsIsolated: is stated for tables whose foreign keys hold.
- ZevRoundTrip.UndoSucceeds: is stated for a second restore whose login protection is not refused; an account whose managing access has no credentials of its own is refused by `validate_account_login`. The plan and the checks of the second restore are `ZevUndoPlan.UndoIsPermitted` and `ZevUndoChecks.UndoPassesChecks`.
- ZevRoundTrip.UndoIsExact: the rows that the two runs write about themselves, their job rows and audit entries (`backend/backups/tasks.py:310-325`), are outside the transaction it speaks of.
- ZevUndoChecks.UndoPassesChecks: is stated for a first archive whose own-row record fits, since another community's own row could refer to anything.
- EnvelopeLaws.OnlyGenuineFile: assumes that no other archive under the key drew the same header; `EnvelopeLaws.OpensIffSpliced` drops this.
- ZevService.RestoreZev: evaluates the plan once; the second evaluation under the row lock sees the same tables in a sequential model, and the dry run, which writes nothing, is not modelled for one community.
- ZevService.Plan: whether a managing account has no login to protect enters as one opaque refusal.
- InstanceLaws.RestoreInstance: the schema comparison, the emptiness test and the database constraints enter as parameters (for foreign keys see `InstanceLaws.BackupRestoresWhole`); what reconciling the sequences writes and the audit entry are not modelled, only that it may fail.
- ZevRestore.RestoreZevRows: `protect_account_login` is an opaque write with the frame of `Logins.Protects`; the meter identities and the database constraints are one opaque check of the result.
- Sessions.AccountRow.Save: the branch that protects the login of an account gaining privileges (`backend/accounts/models.py:141-166`) is not modelled, since `protect_account_login` is opaque.
- Envelope.EncryptStream: the random nonce prefix is a parameter; ciphers, key derivation and fingerprints are abstract functions, with the laws stated where they are used (AEAD as in section 2 of RFC 5116, nonces as in section 8.2 of NIST SP 800-38D). Fingerprints of configured keys are taken as distinct although the code shortens them to 16 hexadecimal digits.
- Verify.VerifyOpenArchive: the structure checks of `read_manifest`, identifiers that are not UUIDs and members the ZIP reader cannot read are not modelled; the order and truncation of the failure list are not either.
- Media.RestoreMedia: `save` is atomic and the rollback's own deletes and saves do not fail.
- ReadModel.GroupsKeepTotals: the order in which the database yields groups is that of first occurrence.
- Foreign keys of Django's own tables other than the admin log (groups and permissions of accounts) are not modelled; RESTRICT refuses like PROTECT, which is the same here because nothing that cascades to a party or a building restricts one.
- The JSON, ZIP and Django serializer formats are abstract codecs that give back what was encoded; many-to-many columns and `_safe_media_name` are abstract too.
- Case-insensitive comparison of emails is one folding function for both the lookup and the unique constraint.
- Time zones are reduced to two offsets, UTC+1 and UTC+2, that change at 01:00 UTC; days are numbered and months follow the Gregorian calendar.
- Readings and shares are exact numbers outside `SplitRounding`; the final rounding to 0.001 kWh, names, sorting and rendering of rows are presentation.
- `build_series`' request limits, `local_pool_kwh`, `proportional_share`, `participant_at` and `is_held_by` would only add easy members.
- Encrypted secrets, storage backends, Celery, mail, audit recording, schedules, health probes, permissions, OAuth, WebAuthn and impersonation are not modelled.
- Manual deletion of an artifact and a sweep racing a new restore are not modelled; the set of backups in use is the snapshot a sweep reads at its start.
- A whole-instance restore reloads account rows and is kept apart from the session model.
