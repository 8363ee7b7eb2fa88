# hamboom operations: models and proofs

Dafny models of the scripts that keep hamboom's data, and of the small evaluators and gates beside
them, with proofs of what they keep over whole runs. `dafny verify dfyconfig.toml` checks everything.
Paths and lines below are the repository's.

## What is modelled

**Durability.** `ObjectStore` is a bucket: a mutable map whose put refuses a wrong length.

- `Sweep`, `SweepProtocol`: the orphan sweep, first as the code over two stores, then as any number
  of sweeps interleaved with uploads, commits, soft deletes, purges and crashes under explicit time.
  The comment at scripts/sweep-orphans.ts:30-32 says that reading rows before listing objects rules
  out false orphans. Order alone does not: a blob uploaded before the listing and committed after the
  row read is listed and unreferenced. `SafeExactlyWithEnoughGrace` says when every interleaving is safe,
  for all parameters: if and only if three things hold. The grace period exceeds the latest commit, plus
  the gap between row and clock reads, plus the clock difference, less one millisecond. No key is put
  again while a sweep has it condemned. And neither a purge nor a second commit takes the last ready row of a
  blob that a deduplicating commit has picked and not yet written: that commit's update asks for the row's id
  alone (apps/api/src/routes/assets.ts:164-166), so the steps let any commit repoint a row that is ready
  already. Only the first is a setting. Asset keys are fresh for every
  upload, but the snapshot compactor puts before it records
  (apps/realtime/src/persistence/compactor.ts:167-195) under a key made of board and sequence number, so a
  compaction that died in between is put again under the same key; and asset deduplication reads its
  twin in one statement and updates in a later one (apps/api/src/routes/assets.ts:143-168).
  `RewritesAreUnsafe` and `UnsparedPicksAreUnsafe` show the runs, for every grace period. What the steps
  condemn is what the code's plan calls an orphan (`CondemnsIsFate`).
- `Purge`: the four counts as the joins the script runs, the rows `purge` removes with their cascades, told
  by dates alone (a row without a date on itself or its board never goes), and how purge and sweep compose
  in both buckets. A file that a template or a surviving export job names,
  or a snapshot that a version of a surviving board names, has a foreign key without a delete rule; such a
  purge fails as a whole, and `PurgeRunsIffNothingPinned` gives the condition.
- `Mirror`, `MirrorReport`, `MirrorChain`, `MirrorLimits`: the incremental mirror, what it reports, and its
  chain of dated manifests. Every listed key the source still has is recorded once or reported as failed. A run
  tells if it completes and its manifest is the newest by name. Nothing makes stamps go forward: a run that
  completes under an older stamp than some manifest's leaves that manifest the newest and counts like a
  crash. Over all histories with a given pattern of runs that do not tell, the manifest is true after every
  run that tells if and only if no two that do not, one right after the other, come before one that does
  (`TrueExactlyWithoutPairs`); over write-once keys it is true after every run. A rewrite of equal size is
  skipped.
- `Restore`, `RestoreChecks`, `RestoreVerify`, `RestoreRoundTrip`, `RestoreWhole`: the restore, its six checks,
  which damage turns which checks red in every healthy world, to the mirror before a restore and to the target
  before a verify-only pass; and mirror-then-restore as the identity. The mirror of a quiet source is true if
  and only if what the skip rule takes up is (`MirrorIsTrueIff`). End to end, `RestoreUndoesRun` takes one run
  over two quiet sources, reads its manifest back and restores either bucket; with keys written once
  `RestoreAfterAnyHistory` has that after any history of runs and crashes.
- `Stamps`, `Retention`, `RetentionShared`: the time label, `pruneList` and histories of backups, with runs that die
  between dump and manifest or inside the prune. The label's string order is time order. A lone dump counts
  among the `keep`, so min(n, keep) whole pairs remain exactly if none of the newest runs died before its
  manifest (`WholePairsIff`). The prune list covers everything under `pg/` and does not tell databases
  apart: `PruneMixesDatabases` is a concrete loss and `OwnBackupSurvivesIff` the condition for one prune. Over
  histories, `LaterTakesAll` says what is left: once `keep` backups of the database that sorts last were
  written, every whole run leaves its newest `keep`, the backup just written, and nothing else.
- `Migrate`, `MigrateProtocol`, `MigrateConvergence`, `MigrateAlone`: the migration runner, then any number of
  sessions dying anywhere, or failing at a statement for a passing reason such as their own lock timeout. A
  session left alone ends, within two steps a file and three more, where the run as one function does.

**Evaluators and generators.**

- `Spdx`: the licence expression parser, its mutable cursor, and a verdict semantics over trees,
  following the precedence of section D.4.5 of SPDX Specification 2.3. `WITH` is a token like any other
  to the parser, so reading stops at the first one: `WithCutsTheExpression` says what is judged, and
  `JudgedRightIff` which expressions come out right whatever is approved: those whose part before the
  first WITH has the same alternatives, which for licences named once means that none follows a WITH.
  `NeverTooGoodIff` is the half a gate owes: when no expression passes for better than it is. On the script's
  own lists, `MIT WITH e AND GPL-3.0-only` is allowed.
- `SourceText`: `stripComments` against a declarative cut of the text into code, strings and comments.
- `Proxy`: the nginx locations and their gate, with the gate's segment relation and nginx's raw string
  prefixes kept apart. `/metrics` is excluded from the proxy, yet begins with the prefix `/me`, so the
  gate is silent and nginx passes the URL on (`ExclusionIsNotKept`); `ExclusionIsKeptIff` is the condition,
  and `LimitIff` the one for a rate limit.

**Fixpoints and logs.**

- `Workspace`: the closure of relative imports, the installed workspaces, and the gate over both.
- `Billing`: invoice rounding and the exact gap to the forbidden second path.
- `Staff`, `StaffProtocol`: the staff flag, its audit rows and the step-up window under concurrent
  transactions. `/admin/step-up/verify` writes its stamp without looking at `is_staff` again, so a request
  admitted before a revoke may write after it, and a later grant keeps that stamp (`StaleStepUpPasses`).
  Looking at `is_staff` would not be enough: the stamp is the time its transaction began, which may lie
  before a grant it waited for (`WaitingStampPasses`). `StaleIffNotCurrent` says exactly when a pass rests
  on a step-up no later than the latest grant.

`Text` holds strings as the scripts order them.

Premises used where they are needed and named in the contracts: bucket names hold no slash; a listing
yields each key once; the manifest's JSON reads back as written; a run completes and its manifest is the newest
(`Tells`), where a result is about such runs; keys written once (`WriteOnce`, `OnceWritten`) or put again as
`Params.rewrites` says; rows of picked blobs spared by purges and by other commits (`Params.sparesPicks`); clocks
within a stated skew. Hashes, the Yjs decoder, import extraction and the database's acceptance of a piece of SQL
are arbitrary given functions; where two contents must hash apart, the contract names just those two.

## Model

| member | source | states |
|---|---|---|
| ObjectStore.Store.PutObject | packages/storage/src/memory-object-store.ts:82-102 | stores the whole body or, when its length is not the announced one, nothing |
| ObjectStore.Store.HeadObject | packages/storage/src/memory-object-store.ts:44-54 | size and date of the stored object, None when there is none |
| ObjectStore.Store.GetObject | packages/storage/src/memory-object-store.ts:34-37 | the stored bytes, None when there are none |
| ObjectStore.Store.DeleteObject | packages/storage/src/memory-object-store.ts:39-42 | removes that key and nothing else |
| Sweep.PlanSweep | scripts/sweep-orphans-core.ts:32-64 | every listed key lands in exactly the list its reference, presence and age call for, in listing order, orphans with true age and size; nothing changes |
| Sweep.DeleteOrphans | scripts/sweep-orphans-core.ts:73-80 | deletes the plan's orphans and nothing else |
| Sweep.PlanByGuards | scripts/sweep-orphans-core.ts:43-61 | a plan in milliseconds and rows: what is counted as referenced, and which listed keys are of unknown age, too young, orphaned, or in no list because they vanished |
| Sweep.FaithfulPlanSweeps | scripts/sweep-orphans-core.ts:32-80 | deleting a faithful plan leaves exactly the keys that no guard condemns |
| Sweep.SweepBuckets | scripts/sweep-orphans.ts:110-143 | without `--delete` both buckets are unchanged; with it each loses exactly its orphans |
| Sweep.SweepLeaves | scripts/sweep-orphans-core.ts:43-61 | a key survives iff it is referenced, undated or younger than the grace period, and survives untouched |
| SweepProtocol.StepKeepsInv | scripts/sweep-orphans.ts:110-143 | under the three conditions the safety invariant is kept by every step of users and sweeps |
| SweepProtocol.CondemnsIsFate | scripts/sweep-orphans-core.ts:43-61 | the interleaved steps condemn a key iff the plan over the same bucket, rows and clock calls it an orphan |
| SweepProtocol.CondemnedIsSettled | scripts/sweep-orphans-core.ts:44-60 | a key a sweep condemns has no row and its time to get one is over |
| SweepProtocol.SufficientGraceIsSafe | scripts/sweep-orphans.ts:110-143 | under the three conditions no row ever names a blob that a sweep deleted and nobody put again, over every interleaving |
| SweepProtocol.ShortGraceIsUnsafe | scripts/sweep-orphans.ts:102-143 | with less grace a run deletes a blob whose row was committed in time, for every such parameter choice |
| SweepProtocol.RewritesAreUnsafe | apps/realtime/src/persistence/compactor.ts:167-195 | keys put again at any time: a condemned snapshot is put again, recorded and then deleted, for every grace period |
| SweepProtocol.UnsparedPicksAreUnsafe | apps/api/src/routes/assets.ts:143-168 | a blob picked for deduplication is purged, swept and then named by the commit, for every grace period |
| SweepProtocol.SafeExactlyWithEnoughGrace | scripts/sweep-orphans.ts:102-143 | all runs are safe if and only if the grace period outlasts commit delay, read gap and clock difference, no condemned key is put again, and purges and other commits spare picked blobs |
| Purge.PurgeRunsIffNothingPinned | apps/api/migrations/0001_init.sql:176-216 | both deletes succeed iff no going file is still named by a template or by a job that stays that long, and no going snapshot by a version of a board that stays |
| Purge.FilesCountedOnce | scripts/purge-deleted.ts:67-72 | the left join with OR has as many rows as there are files that go, by their own date or their board's |
| Purge.Database.CountPurgeable | scripts/purge-deleted.ts:50-79 | the rows of the four queries, joins and all, are as many as the boards, updates, snapshots and files whose own date or board's date is long enough past |
| Purge.GoingByDates | scripts/purge-deleted.ts:50-79 | what goes, in dates: a board whose date is more than that many days past, a file by its own date or its board's, snapshots and updates by their board's |
| Purge.Database.Purge | scripts/purge-deleted.ts:87-94 | all or nothing; the tables lose exactly what was counted, which is what those dates say, and keep their references |
| Purge.UndatedStays | scripts/purge-deleted.ts:90-93 | no purge takes a row that has no date on itself or its board |
| Purge.CascadeCompletes | scripts/purge-deleted.ts:90-93 | the two deletes with their cascades remove exactly the going rows and leave no row without its board |
| Purge.PurgeThenSweepAssets | scripts/purge-deleted.ts:81-94 | after purge, an aged asset survives the sweep iff a file row naming it survived the purge |
| Purge.PurgeThenSweepSnapshots | scripts/purge-deleted.ts:81-94 | after purge, an aged snapshot blob survives the sweep iff a snapshot row naming it survived the purge |
| Purge.OrderMatters | scripts/purge-deleted.ts:31-32 | in either bucket a sweep before the purge takes none of the blobs the purge orphans; the orders agree iff it orphans no aged blob there |
| Mirror.MirrorKeysDiffer | scripts/backup-run.ts:81-82 | two objects share a mirror key iff bucket and key agree |
| Mirror.MirrorBucket | scripts/backup-run.ts:135-201 | result and target are those of visiting every sighting in order under the skip, dry-run, failure and size rules |
| Mirror.RecordedEntriesAreBacked | scripts/backup-run.ts:150-198 | every entry recorded is in the mirror with its size and hash, whatever the source did during the run |
| Mirror.CutRunLeavesHalfBacked | scripts/backup-run.ts:150-198 | a run cut anywhere leaves each entry of the newest manifest backed, missing or of another size, so the next run does not skip it wrongly |
| Mirror.WriteOnceStaysTrue | scripts/backup-run.ts:156-166 | over write-once keys mirror and entries stay true, nothing is lost |
| MirrorReport.SightingAccounted | scripts/backup-run.ts:150-198 | a listed key that the source has: reported as failed iff it is not known, the run is real, and its body vanished, has another length, or was refused or not acknowledged; otherwise exactly one entry with the right size and hash |
| MirrorReport.GoneIsSilent | scripts/backup-run.ts:150-152 | a key gone when asked for is neither recorded nor reported |
| MirrorReport.CountersAreExact | scripts/backup-run.ts:162-198 | copied and skipped add up to the entries, skipped is the number of known keys, and entries and failures together are the keys that were there |
| MirrorReport.TargetHolds | scripts/backup-run.ts:169-196 | the target holds the body of each key whose put went through, acknowledged or not, and of every other key what it held |
| MirrorChain.LatestStorageManifest | scripts/backup-run.ts:101-112 | the greatest manifest key and its decoded manifest, None iff there is none |
| MirrorChain.ManifestKeysSortInTime | scripts/backup-run.ts:104-107 | with the scripts' stamps greatest by name is latest in time |
| MirrorChain.RunStorageMirror | scripts/backup-run.ts:213-258 | both buckets visited against the newest manifest, then one manifest with exactly their entries; a dry run writes nothing |
| MirrorChain.WrittenIsNewest | scripts/backup-run.ts:244-256 | the written manifest is the one the next run reads, as it was written |
| MirrorChain.CompletedRunIsTrue | scripts/backup-run.ts:213-258 | a run that completes with the newest manifest leaves it true, even after one run that crashed or did not tell |
| MirrorChain.CrashedRunIsHalfTrue | scripts/backup-run.ts:231-242 | one run that crashes, or completes under an older stamp, leaves the newest manifest half true |
| MirrorChain.ChainHolds | scripts/backup-run.ts:213-258 | over any number of runs, no two adjacent ones that crash or do not tell: the newest manifest is true after every run that tells |
| MirrorChain.WriteOnceSurvivesCrashes | scripts/backup-run.ts:156-166 | over write-once keys the newest manifest is true after every run, crashes and older stamps in any order |
| MirrorLimits.TwoCrashesCanFoolTheChain | scripts/backup-run.ts:157-166 | for every pattern with two runs in a row that do not tell and one that tells after them, a history that fits it and ends that run with a false manifest |
| MirrorLimits.TrueExactlyWithoutPairs | scripts/backup-run.ts:135-258 | all histories of a pattern of runs that crash or complete under an older stamp keep the manifest true after every other run iff the pattern has no such pair |
| MirrorLimits.EqualSizeRewriteIsMissed | scripts/backup-run.ts:157-166 | a rewrite of equal size is skipped and vouched for with the old hash; MirrorIsTrueIff gives the condition |
| Restore.CopyEntries | scripts/restore-storage-core.ts:126-174 | the target after the loop, and each failure list: exactly the keys of the entries that fail that way, in order |
| Restore.CheckRows | scripts/restore-storage-core.ts:208-231 | exactly the rows without bytes, and exactly those whose bytes do not open to their state vector, in order |
| Restore.RestoreAndVerify | scripts/restore-storage-core.ts:107-268 | the target it leaves and the six verdicts, none skipped |
| RestoreChecks.EntryChecksMean | scripts/restore-storage-core.ts:115-201 | what the four checks on entries are green about, in the manifest's entries and the objects found for them |
| RestoreChecks.RowChecksMean | scripts/restore-storage-core.ts:205-264 | what the two checks on rows are green about: rows where there are entries, each with its bytes, or opening to its state |
| RestoreChecks.NoRowsNoChecks | scripts/restore-storage-core.ts:202-204 | a bucket without a catalogue passes both checks on rows |
| RestoreChecks.TargetMeans | scripts/restore-storage-core.ts:126-174 | what a restore leaves at a key: the mirror's bytes where an entry got through, else what was there |
| RestoreChecks.GreenIsRestored | scripts/restore-storage-core.ts:176-201 | count, size and integrity green: every entry in scope is in the target with size and hash |
| RestoreChecks.ChecksAreExact | scripts/restore-storage-core.ts:107-268 | all six green iff the scope is non-empty, all entries are restored and every row in scope, at least one, opens |
| RestoreChecks.RestoreVerdictIsTheMirrors | scripts/restore-storage-core.ts:145-174 | without an empty target the restore's verdict is exactly about the mirror's bytes |
| RestoreChecks.VerifyAfterGreen | scripts/restore-storage-core.ts:136-144 | a verify-only pass after a green restore is green and changes nothing |
| RestoreChecks.SameSizeCorruption | scripts/restore-storage-core.ts:192-201 | exactly {integrity} red, and {opens} with it iff a row in scope names the object and the bytes do not open to its state |
| RestoreChecks.WrongLength | scripts/restore-storage-core.ts:153-164 | exactly {size} red; for a catalogued object {catalog, opens} too |
| RestoreChecks.LostObject | scripts/restore-storage-core.ts:146-150 | exactly {count} red; for a catalogued object {catalog, opens} too |
| RestoreChecks.UnknownRow | scripts/restore-storage-core.ts:243-264 | a row the mirror never saw: exactly {catalog, opens} |
| RestoreChecks.EmptyCatalogue | scripts/restore-storage-core.ts:239-264 | no row in scope beside a non-empty mirror: exactly {catalog, opens} |
| RestoreChecks.EmptyScope | scripts/restore-storage-core.ts:115-123 | no entry in scope: exactly {vacuous}, with {catalog, opens} when rows are in scope |
| RestoreChecks.FaithfulRubbish | scripts/restore-storage-core.ts:217-230 | any bytes mirrored truly: exactly {opens} red if some row naming them does not open to its state, otherwise nothing |
| RestoreVerify.VerifyLocalises | scripts/restore-storage-core.ts:136-144 | a verify-only pass over a target with one object lost, cut, grown or altered: exactly the checks that answer for it |
| RestoreRoundTrip.FreshSkipsNothing | scripts/backup-run.ts:155-166 | a mirror without a previous manifest skips no key, so no skip of it is wrong |
| RestoreRoundTrip.WriteOnceSkipsAreTrue | scripts/backup-run.ts:155-166 | over write-once keys every skip leaves the source's own bytes and hash |
| RestoreRoundTrip.QuietVisits | scripts/backup-run.ts:150-198 | what a mirror of a quiet source records and holds for every key, skipped or copied |
| RestoreRoundTrip.QuietMirror | scripts/backup-run.ts:150-198 | a failure-free mirror of a quiet source records every key truly and holds its bytes |
| RestoreRoundTrip.MirrorIsTrueIff | scripts/backup-run.ts:156-166 | every entry and all bytes are the source's iff each skipped object has the source's bytes and its hash in the manifest |
| RestoreRoundTrip.RestoreUndoesMirror | scripts/restore-storage-core.ts:97-174 | mirror then restore gives exactly the source under the prefix, with count, size and integrity green |
| RestoreWhole.RestoreUndoesRun | scripts/backup-run.ts:213-258 | one completed run over two quiet sources, its manifest read back as the newest: either bucket restores to exactly its source under the prefix, with count, size and integrity green, if what the run skips is right |
| RestoreWhole.RestoreAfterAnyHistory | scripts/restore-storage-core.ts:97-174 | with keys written once the same holds after any history of runs and crashes, whatever the run skips |
| Stamps.Gregorian | scripts/backup-common.ts:67-72 | the calendar behind the order: days before a year in closed form, and the lengths of the months |
| Stamps.UnitsOfTime | scripts/backup-common.ts:66-72 | a day, an hour, a minute and a second are as long as they are |
| Stamps.StampShape | scripts/backup-common.ts:67-72 | the two replacements turn the ISO string into the dashed label without its fraction |
| Stamps.StampOrderIsTimeOrder | scripts/backup-common.ts:66-72 | labels compare as strings exactly as their instants do in seconds; equal iff the same second |
| Retention.PruneMeaning | scripts/backup-common.ts:152-156 | a key goes iff its stem is not protected and `keep` or more distinct stems sort after it |
| Retention.PairsStayTogether | scripts/backup-common.ts:152-156 | a dump and its manifest go or stay together and the just-written pair stays, for any keys and `keep` |
| Retention.RunDbBackup | scripts/backup-run.ts:270-373 | an empty dump writes nothing; else what is left is that of an attempt: whole, dead after its dump, or dead in its prune, wherever the store fails; without `--prune` every other key stays as it was, a run that ends well leaves its own pair, and it ends well iff the store fails nowhere before its last deletion |
| Retention.PruneAfter | scripts/backup-run.ts:356-364 | the deletion loop removes exactly the keys too old, or some of them if a deletion fails, and ends well iff none does |
| Retention.UnprunedKeepsAll | scripts/backup-run.ts:356-361 | without `--prune`, after any attempts, dead ones among them, every dump is there, with its manifest iff its run wrote one |
| Retention.UnprunedLeavesOthers | scripts/backup-run.ts:356-361 | and nothing else in the bucket has changed |
| Retention.NewestRemain | scripts/backup-run.ts:312-364 | after any attempts, dead ones among them, the newest min(n, keep) dumps are there, each with its manifest iff its run wrote one, and nothing else after a whole run |
| Retention.WholePairsIff | scripts/backup-run.ts:312-364 | min(n, keep) whole pairs remain iff none of the newest runs died between dump and manifest |
| Retention.LatestRunsRemain | scripts/backup-run.ts:290-364 | the same in time: what is left is that of the latest runs of one database |
| Retention.OwnBackupSurvivesIff | scripts/backup-run.ts:356-364 | with other databases' stems under the prefix, a backup survives iff too few of theirs sort after it |
| Retention.PruneMixesDatabases | scripts/backup-common.ts:152-156 | a newer backup of one database goes because an older one of another sorts later |
| RetentionShared.LaterOutlast | scripts/backup-run.ts:312-364 | two databases under the prefix: the newest `keep` by name of the one that sorts last outlast every run of either, dead ones among them |
| RetentionShared.LaterTakesAll | scripts/backup-run.ts:312-364 | once `keep` of its backups were written, a whole run of either leaves exactly its newest `keep` and the backup just written |
| RetentionShared.EarlierDatabaseLosesAll | scripts/backup-run.ts:290-364 | the same by the databases' names: of the one that sorts first no backup stays but one just written |
| Migrate.CollectMigrations | scripts/migrate.ts:86-114 | all files, by directory then name, each once; refused iff a name is in two directories, and the name it gives is one |
| Migrate.SqlFiles | scripts/migrate.ts:86-114 | a migration file is a name with something, or nothing, before `.sql` |
| Migrate.Database.Migrate | scripts/migrate.ts:176-214 | database and outcome are those of one run over the list: skip, refuse an edit, apply in its own transaction |
| MigrateProtocol.StepKeepsExclusive | scripts/migrate.ts:158-166 | at most one session is past the lock, after every step |
| MigrateProtocol.LedgerIsAlwaysTruth | scripts/migrate.ts:199-210 | the effects are the ledger's SQL in the ledger's order, no name twice, in every reachable state |
| MigrateProtocol.KeptAlways | scripts/migrate.ts:179-214 | what a session has passed stays recorded with its checksum |
| MigrateProtocol.ExactlyOnce | scripts/migrate.ts:158-214 | over any interleaving and crashes no file's SQL takes effect twice, and a session that ended well has all its files recorded as they are |
| MigrateConvergence.RunKeepsInv | scripts/migrate.ts:182-214 | sessions of one list keep the applied files a prefix of it |
| MigrateConvergence.SameEnd | scripts/migrate.ts:182-214 | starting again part way ends in the same database |
| MigrateConvergence.FinalIff | scripts/migrate.ts:182-214 | a run changes nothing iff no file is left or the next one is refused |
| MigrateConvergence.Converges | scripts/migrate.ts:158-214 | from every reachable state, passing failures included, one undisturbed run ends where a single uninterrupted run would; that database is there iff no file is left or the next is refused, and after every session that ended well |
| MigrateAlone.AloneReachesEnd | scripts/migrate.ts:158-214 | a session inside, or waiting for a free lock, ends if nobody disturbs it |
| MigrateAlone.AloneEndsAsRunAll | scripts/migrate.ts:158-214 | its steps, one by one, give the database and the outcome of the run as one function, and free the lock |
| MigrateAlone.LeftAloneConverges | scripts/migrate.ts:158-214 | from every reachable state, such a session, part way or not, leaves the database a single uninterrupted run would |
| MigrateConvergence.LockNeedsALiveHolder | scripts/migrate.ts:152-166 | a dead session leaves the lock free |
| Spdx.Parser.ParseAtom | scripts/license-check.ts:145-154 | verdict and cursor of the atom function; ends although the cursor may pass the end |
| Spdx.Parser.ParseAnd | scripts/license-check.ts:156-163 | verdict and cursor of the AND function |
| Spdx.Parser.ParseOr | scripts/license-check.ts:165-172 | verdict and cursor of the OR function |
| Spdx.VerdictIsBestAlternative | scripts/license-check.ts:99-108 | a verdict at least that good iff some disjunctive clause is that good in all its licences |
| Spdx.MeaningIsMonotone | scripts/license-check.ts:99-108 | approving more never makes an expression worse |
| Spdx.ParseUndoesPrint | scripts/license-check.ts:145-174 | every token of a printed tree is consumed and its verdict returned, whatever follows |
| Spdx.WithCutsTheExpression | scripts/license-check.ts:138-174 | with WITH inside, the verdict is that of what precedes the first one |
| Spdx.LateWithIsHarmless | scripts/license-check.ts:138-174 | no licence after a WITH: the cut verdict is the expression's |
| Spdx.EarlyWithMisjudges | scripts/license-check.ts:138-174 | each licence named once and one of them after a WITH: some approval of licences, not only the script's, is misjudged |
| Spdx.JudgedRightIffNoEarlyWith | scripts/license-check.ts:138-174 | with each licence named once: judged right under every approval iff no licence follows a WITH |
| Spdx.SameMeaningIff | scripts/license-check.ts:99-108 | two expressions mean the same under every approval iff neither has an alternative that asks less than every one of the other |
| Spdx.JudgedRightIff | scripts/license-check.ts:138-174 | for every expression: judged right under every approval iff its part before the first WITH has the same alternatives in that sense |
| Spdx.NeverTooGoodIff | scripts/license-check.ts:138-174 | for every expression: never judged better than it is, under any approval, iff each alternative of what precedes the first WITH asks at least as much as one of the whole |
| Spdx.Dangling | scripts/license-check.ts:145-172 | an operator or parenthesis with nothing after it, and one that is never closed |
| Spdx.OperatorsInAnyCase | scripts/license-check.ts:156-172 | spelling operators in other letters changes no verdict |
| Spdx.SmallLetters | scripts/license-check.ts:156-172 | two names and an operator in any letters: the worse, or the better, of the two |
| Spdx.UpperTable | scripts/license-check.ts:156-172 | which letters count as one |
| Spdx.SpaceTable | scripts/license-check.ts:127-138 | which characters are white space |
| Spdx.SpacesAround | scripts/license-check.ts:127-138 | white space around an expression changes no verdict |
| Spdx.LookupTable | scripts/license-check.ts:31-66 | exactly the listed names are allowed, exactly the others listed need review, all else is denied |
| Spdx.PlusIsDropped | scripts/license-check.ts:110-121 | a plus at the end of a name is not looked at |
| Spdx.WithIsSetAside | scripts/license-check.ts:110-121 | of a name with an exception, in any letters and spacing, only the name is looked up |
| Spdx.RefusedIsDenied | scripts/license-check.ts:127-136 | the texts refused before any token is read |
| Spdx.RepeatedNameIsHarmless | scripts/license-check.ts:138-174 | with a licence named twice an early WITH may be judged right under every approval |
| Spdx.WithHidesADenial | scripts/license-check.ts:31-174 | on the script's lists `MIT WITH e AND GPL-3.0-only` is allowed although the expression means denied |
| Spdx.TokensAreTakenWhole | scripts/license-check.ts:110-121 | the WITH handling of classifyId never applies to a parser token |
| Spdx.ClassifyExpression | scripts/license-check.ts:127-175 | the refusals, then the parse from token 0 |
| Spdx.ClassifyUndoesRender | scripts/license-check.ts:127-175 | on the text of any tree the verdict is the tree's meaning, or that of its cut |
| SourceText.LexIsWellLexed | scripts/source-text.ts:13-51 | the executable cut is a correct cut of the whole text |
| SourceText.WellLexedIsLex | scripts/source-text.ts:13-51 | there is no other correct cut |
| SourceText.StringsSurvive | scripts/source-text.ts:20-36 | every string literal comes through verbatim and in order |
| SourceText.NoCommentRemains | scripts/source-text.ts:37-46 | no comment in the output, none made by joining either |
| SourceText.StripIsIdempotent | scripts/source-text.ts:13-51 | stripping twice is stripping once |
| SourceText.AnyCorrectCutGivesOutput | scripts/source-text.ts:13-51 | any correct cut without its comments is the output |
| SourceText.StringPasses | scripts/source-text.ts:20-36 | a literal in any of the three quotes passes whole, escapes and all |
| SourceText.LineCommentGoes | scripts/source-text.ts:37-40 | two slashes hide the rest of the line but not its end |
| SourceText.BlockCommentGoes | scripts/source-text.ts:41-46 | a slash and a star hide all to the first star and slash, or to the end |
| SourceText.CodePasses | scripts/source-text.ts:47-49 | every other character of code passes |
| SourceText.StripComments | scripts/source-text.ts:13-51 | the loop over cursor and quote computes the cut text without its comments |
| Proxy.NamesAreExact | scripts/infra-check-proxy.ts:87-116 | location names are the prefixes plus the other zone keys, each as often as listed |
| Proxy.NamesInOrder | scripts/infra-check-proxy.ts:87-116 | prefixes first in order, then the other zones in order, whatever the order of the lists |
| Proxy.NoDuplicateLocation | scripts/infra-check-proxy.ts:85-105 | names are distinct iff the prefixes are, for any zones |
| Proxy.BlockMeaning | scripts/infra-check-proxy.ts:87-116 | a block carries a limit iff its name is a zone key, and then that zone |
| Proxy.ReachesApiIff | scripts/infra-check-proxy.ts:45-51 | a URL goes to the api iff a generated name begins it that is longer than every hand-written one that does |
| Proxy.CheckPrefixesAgainstRoutes | scripts/infra-check-proxy.ts:126-182 | silent iff routes and lists fit; each kind of problem is there iff it has offenders, and lists exactly them |
| Proxy.RouteWithoutMethod | scripts/infra-check-proxy.ts:134 | a route without a space is its URL |
| Proxy.UrlAfterMethod | scripts/infra-check-proxy.ts:134 | else its URL is what follows the method and the space |
| Proxy.FitsInPaths | scripts/infra-check-proxy.ts:41-43 | what the gate asks, in paths: a name reaches a URL that is the name or goes on with a slash after it |
| Proxy.SilentGateRoutes | scripts/infra-check-proxy.ts:126-182 | silent gate: every registered URL that is not excluded reaches the api, unless hand-written locations as long as every covering prefix begin it |
| Proxy.LimitHolds | scripts/infra-check-proxy.ts:103-116 | a URL under a zone key is limited unless a prefix strictly extending that key begins it |
| Proxy.LimitIff | scripts/infra-check-proxy.ts:103-116 | a served URL is limited iff some zone key begins it and no prefix that begins it is longer than that key |
| Proxy.SegmentVersusString | scripts/infra-check-proxy.ts:42-43 | a prefix covers a URL iff it begins it and the URL does not run on without a slash |
| Proxy.RelationsAgreeIff | scripts/infra-check-proxy.ts:41-51 | segment and string matching agree iff no URL runs on past a name |
| Proxy.ExclusionIsNotKept | apps/web/src/api-prefixes.ts:68-73 | a silent gate and an excluded `/metrics` that nginx routes to the api through `/me` |
| Proxy.ExclusionIsKeptIff | scripts/infra-check-proxy.ts:136-148 | a URL stays off the api iff every prefix and zone key that begins it is met by a hand-written location at least as long |
| Workspace.JoinUndoesSplit | scripts/check-workspace-deps.ts:200-207 | joining a path's segments gives the path back |
| Workspace.WalkIsPlain | scripts/check-workspace-deps.ts:203-206 | a resolved path has no `.` and no `..` |
| Workspace.ClimbingClamps | scripts/check-workspace-deps.ts:203-206 | any number of leading `..` stops at the root |
| Workspace.SiblingTarget | scripts/check-workspace-deps.ts:200-208 | `./x` in a file points at x beside it |
| Workspace.ParentTarget | scripts/check-workspace-deps.ts:200-208 | `../x` in a file points at x in the directory above, the root's being the root |
| Workspace.ClosureOf | scripts/check-workspace-deps.ts:191-211 | ends on cyclic imports too; the sorted least set of readable files holding the entries and closed under imports |
| Workspace.ReachedIff | scripts/check-workspace-deps.ts:191-211 | reached is: a readable entry, or a readable file some reached file's specifier points at |
| Workspace.NeighboursAreReached | scripts/check-workspace-deps.ts:200-208 | a reached file that imports a readable one beside or above it reaches it |
| Workspace.EntriesAreASet | scripts/check-workspace-deps.ts:191-211 | order and repetition of entries do not matter, nor do unreadable ones |
| Workspace.ImageWorkspaces | scripts/check-workspace-deps.ts:225-248 | exactly the least set with the api, the root's workspaces and their dependencies |
| Workspace.InstalledIff | scripts/check-workspace-deps.ts:225-248 | installed is: the api, a workspace the root depends on, or one an installed workspace depends on |
| Workspace.OwnerOfIff | scripts/check-workspace-deps.ts:214-219 | a file belongs to a workspace iff it lies inside a directory under `apps` or `packages`, else to the root |
| Workspace.DeclaresIff | scripts/check-workspace-deps.ts:266-284 | a package is declared iff it is among its owner's `dependencies`, or is the workspace itself |
| Workspace.CheckProductionClosure | scripts/check-workspace-deps.ts:254-292 | exactly the problems of the listed files; none iff each file is owned inside the image and its imports declared |
| Workspace.Gate | scripts/check-workspace-deps.ts:191-292 | silent iff every file reachable from the scripts is in order |
| Workspace.InstalledStays | scripts/check-workspace-deps.ts:225-248 | adding dependencies uninstalls nothing |
| Workspace.GreenStaysGreen | scripts/check-workspace-deps.ts:254-292 | adding a dependency to any manifest never turns a green file red |
| Billing.PercentOf | scripts/billing-probe-math.ts:54-56 | within half a rial of the true ratio, a half going up |
| Billing.AmountsBalance | scripts/billing-probe-math.ts:58-78 | subtotal - discount + vat = total, nothing negative, discount within the subtotal |
| Billing.TotalNeverFalls | scripts/billing-probe-math.ts:58-78 | the total never falls as price or seats rise, under any coupon |
| Billing.FullPrice | scripts/billing-probe-math.ts:66-78 | without a coupon, or with an empty one, nothing is taken off and the total is the price with its VAT |
| Billing.PercentageOff | scripts/billing-probe-math.ts:66-78 | a percentage takes off its share to the nearest rial, at most all, and wins over a fixed amount beside it |
| Billing.AmountOff | scripts/billing-probe-math.ts:66-78 | a fixed amount is taken off as it is, up to the subtotal |
| Billing.FullPriceDrift | scripts/billing-probe-math.ts:58-92 | without a discount the gap is the VAT's rounding alone |
| Billing.PercentDrift | scripts/billing-probe-math.ts:58-92 | the gap between the two paths, exactly, from the two remainders |
| Billing.DriftIsBounded | scripts/billing-probe-math.ts:58-92 | the gap is in [-1, 1] for VAT up to 50 and in [-2, 1] up to 100 |
| Billing.PathsAgreeIff | scripts/billing-probe-math.ts:58-92 | for which remainders the paths agree |
| Billing.DriftIsTight | scripts/billing-probe-math.ts:58-92 | each bound is reached, and -2 already at VAT 51 |
| Billing.CappedCouponDrift | scripts/billing-probe-math.ts:66-78 | a fixed coupon within the subtotal: the gap is the VAT's rounding alone |
| Billing.ExcessCouponDrift | scripts/billing-probe-math.ts:81-92 | a fixed coupon above the subtotal: the gap is the excess with its VAT, without bound |
| Staff.Database.SetStaff | scripts/admin-grant-staff.ts:65-98 | flag and audit row change together or not at all; a no-op writes nothing; a revoke clears the step-up, a grant keeps it |
| Staff.ProceedIff | apps/api/src/admin-guard.ts:56-138 | who passes both guards: live, active, staff, with a stamp inside the window and its tolerance |
| Staff.RefusedIff | apps/api/src/admin-guard.ts:97-138 | 428 iff he is live, active and staff without a stamp in the window; 403 iff he is not live, active and staff |
| StaffProtocol.RunOk | scripts/admin-grant-staff.ts:65-98 | the invariant over flag, log and stamp is kept over every run |
| StaffProtocol.FlagReplaysLog | scripts/admin-grant-staff.ts:71-97 | over any run each user's rows alternate from a grant on and the flag is the last of them |
| StaffProtocol.RowIffFlagChanges | scripts/admin-grant-staff.ts:77-96 | an event adds a user's row iff it changes his flag |
| StaffProtocol.StaleIffNotCurrent | apps/api/src/routes/admin.ts:238-265 | a pass rests on a step-up no later than the latest grant iff it was written while the user was not staff or by a transaction begun no later than his grant |
| StaffProtocol.NoStaleStepUp | apps/api/src/admin-guard.ts:97-138 | step-ups written to staff only, by transactions begun after their grant: nobody passes on one older than it |
| StaffProtocol.StaleStepUpPasses | apps/api/src/routes/admin.ts:238-265 | a run of the code as written: the stamp is written after a revoke and passes after the next grant, strictly later |
| StaffProtocol.WaitingStampPasses | apps/api/src/routes/admin.ts:254-258 | a run in which every stamp is written to staff, and one taken before the latest grant passes |
| StaffProtocol.WindowInTrueTime | apps/api/src/admin-guard.ts:88-97 | nobody passes later than the window plus both clocks' errors in true time |
| StaffProtocol.FreshIsAccepted | apps/api/src/admin-guard.ts:69-97 | clocks within the tolerance of each other never turn a fresh step-up away |

## Left out

- Regular expressions in `importsIn`, `relativeImportsIn` and `packageOf`, JSON, SHA-256 and the Yjs codec: given
  functions of the text or bytes.
- PostgreSQL, S3, pnpm, `pg_dump`, network, streaming and console reports: only the store, lock and transaction
  behaviour that the scripts rely on.
- Argument parsing and normalising (`numberArg`, `resolveDays`, `parsePrune`, `parseArgs`, `normalizePhone`): what
  they yield is a parameter here.
- Spdx.UpperTable: the English letters; no other letter's upper case makes a word an operator.
- Content types, ETags and the wording of check details and problems.
- `referencedKeys` reads `files` and `board_snapshots` only; blobs named by `templates.doc_storage_key`
  (apps/api/migrations/0001_init.sql) are outside what it protects, and outside this model.
- Purge.Database.Purge: foreign keys of boards, files, snapshots, updates, export jobs, versions and templates only;
  `interval` arithmetic is days of 24 hours.
- Stamps.StampOrderIsTimeOrder: years 0 to 9999, which `toISOString` writes in four digits.
- Billing.PercentOf: exact integer rounding and whole percentages; IEEE doubles agree only while base times percent
  stays in the safe integer range.
- MigrateConvergence.Converges: one list for all sessions; different lists are covered by ExactlyOnce. A migration
  file with its own COMMIT is not modelled.
- Mirror.MirrorBucket: a store that acknowledges a put and then shows nothing, or another length, under the key;
  the script's look after each put (scripts/backup-run.ts:189-195) is in the method but always finds what was put.
- Retention.RunDbBackup: likewise its look after the upload (scripts/backup-run.ts:339-345).
- Migrate.CollectMigrations: a directory that fails to read for another reason than not existing is not modelled.
- Proxy.ReachesApiIff: exact (`=`) and `^~` locations of the hand-written configuration are not modelled; zone blocks
  are listed in code-unit order, where the script uses `localeCompare`, which changes the text only.
- `checkNginxFile` (an equality of texts), the layout of the generated text, the records that `rangesFrom`,
  `countRows` and `readMigrations` fill, and the other claims of check-workspace-deps.ts.
- Staff.Database.SetStaff: `updated_at`, the actor and the metadata of audit rows; the row's time is that of its
  commit, where the database's own column holds the start of the transaction.
- The `rt-*`, `billing-probe-*` (but the arithmetic), `db-*` and `infra-probe-*` scripts drive services whose code
  they do not hold.
