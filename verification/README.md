# FanJam: what its protocols and algorithms keep

FanJam serves convention schedules. Organizers edit a NocoDB base; a Rust server in Cloudflare Workers reads it, caches it, and looks after one Neon Postgres project for each environment; a Vue client with an edge worker and a service worker shows it. This project models the parts of that system whose correctness does not show in any one function, and proves what they keep.

`dafny verify dfyconfig.toml` checks all of it.

| file | models |
|---|---|
| `Remote.dfy`, `Wrappers.dfy` | calls that can succeed, fail, or take effect although their caller sees an error |
| `Neon.dfy` | the Neon project of an environment: its content, snapshots, branches, backups, restores and rollbacks |
| `Database.dfy` | the config tables and the NocoDB bases in one database, with the SQL statements as functions |
| `Migrations.dfy` | the migrator: base creation and the one-migration-per-rollback loop |
| `Admin.dfy` | the admin operations over that project and the part of the key-value store that caches where the data is |
| `RefreshCache.dfy` | the persistent and the edge cache with their background refreshes, as interleaved steps |
| `ClientSync.dfy` | conditional requests between the client's stored data and the API |
| `Keys.dfy`, `KeyValue.dfy`, `Cache.dfy` | the formatted string keys, the flat key-value store under them, and what it caches for the admin operations |
| `Listings.dfy` | listing keys by prefix, page by page, while others delete, add and change entries |
| `Links.dfy`, `Domains.dfy` | public IDs and custom domains: two pairs of maps written one key at a time |
| `EdgeWorker.dfy`, `Routing.dfy` | path patterns, hostname resolution and the redirect to a custom domain |
| `TextOrder.dfy`, `Divisions.dfy`, `TimeStamps.dfy`, `StableSort.dfy`, `Schedule.dfy`, `Days.dfy`, `Grouping.dfy` | reading whole tables, ordering events, splitting dates into days, grouping by time |
| `Utf8.dfy`, `Notification.dfy`, `Encoding.dfy` | shortening text by byte offsets; a 32-bit hash on doubles |

How it is modelled. Every remote call is `Remote.Wire.Call`, about whose reply nothing is assumed, so each method is proved for every pattern of failures, lost replies included. The wire counts the calls that did not succeed, apart from those whose failure the caller tolerates, and with it each operation also promises to fail for no other reason than a failed call or one it names, and not to succeed after a failed call. A failing migration may leave the NocoDB side of the database in any state. Admin requests are atomic with respect to each other, as the server accepts (`server/src/router.rs:40-51`). The cache is different: there the steps of requests and background tasks interleave freely over all isolates, and the results are about all runs. Objects the source updates in place are classes; each of their methods states its new state, and the invariants are `Valid()`.

What the code does and its comments do not say. The model follows the code; the members in parentheses show it.

- A restore that takes effect and then ends in an error, a lost reply or a failing wipe, leaves a cached base ID in place. It is right exactly if the backup has the same base (`PostRestoreBackup`, `TwoBases`).
- A task that is yet to write an older value can bring it back after a later refresh has completed; only if there is none do answers converge (`ConvergesIffNoOldWriter`).
- Unreadable data in the browser's storage is meant to be cleared and fetched again (`client/src/composables/useRemoteData.ts:248-257`), but its tag is kept and sent, so if it is the tag of the current value the client shows nothing for as long as that value stays (`RemoteData.Load`, `NeverShown`). `Load` also states when the data of another environment stays on display after a switch: exactly if it was there, this environment's is not stored, and the fetch fails, but not with a 404 that no alias explains.
- Nothing stops an environment from taking the client's own hostname as its custom domain. Its app is then out of reach (`OwnHostnameHidesTheApp`); `RedirectLandsHome` gives the exact condition.
- Names and IDs are not checked for colons. The wipe for one environment takes an entry of another exactly when that one's name, with a colon, begins with the first one's name and `:cache:`, or their keys coincide (`CacheScanWithColons`, `WipeTakesAnothersEntryIff`); at such a pair of names it deletes the other's ID (`ColonsWipeAnothersId`).
- A crash between two writes of a domain request can leave an environment claiming a domain that another one then gets, and moving on, it takes that domain away from the other. A request takes another's domain exactly if `Takes` holds of the maps before it (`DomainIsKeptIffNotTaken`, `OthersAreKeptIffNoneTaken`); over a run, an environment keeps its domain exactly if no request takes it (`DomainStaysIffNeverTaken`). It happens (`CrashesCanOrphanADomain`), but not if each crashed request is repeated before the next one (`RepeatingKeepsInverse`).
- A day ends one second before midnight, so a date within that second may repeat its day (`DaysAreDistinctIffNoLateRepeat`, `SubSecondsRepeatADay`).
- The comment on the notification text promises at most `max_chars` characters; there can be one more (`FitsIffShortOrSeveralWords`).

## Model

| member | source | states |
|---|---|---|
| Neon.NamesAreDistinct | server/src/neon.rs:111-139 | a reserved snapshot name is never that of another kind nor one that archive collection could pick |
| Neon.Project.LookupDefaultBranch | server/src/neon.rs:381-388 | finds the default branch, and it alone, whatever branches restores left behind; it is taken to be there |
| Neon.Project.LookupSnapshot | server/src/neon.rs:291-320 | a snapshot of that name if and only if there is one |
| Neon.Project.TryDeleteSnapshot | server/src/neon.rs:196-210 | at most that snapshot goes, and it is gone if the call succeeds; a bad request is not an error |
| Neon.Project.RenameSnapshot | server/src/neon.rs:390-419 | changes the name and keeps what was captured |
| Neon.Project.CreateSnapshot | server/src/neon.rs:468-500 | captures the current content under a name that was free; no other kind's live snapshot changes |
| Neon.Project.PostRestore | server/src/neon.rs:421-447 | the content becomes that of the snapshot, live snapshots stay, whether or not a new branch takes the default one's place |
| Neon.OnlyArchivedGone | server/src/neon.rs:353-364 | losing archived snapshots touches no live one |
| Neon.Project.DeleteSnapshotRestoreBranches | server/src/neon.rs:227-257 | removes only branches left by restores, never the default one; after success none is left |
| Neon.Project.GarbageCollectArchivedSnapshots | server/src/neon.rs:353-364 | whatever fails, only archived snapshots go and every live one stays what it was |
| Neon.Project.SoftDeleteSnapshotWithName | server/src/neon.rs:366-379 | success leaves no live snapshot of that kind; other kinds keep theirs |
| Neon.Project.CreateBackup | server/src/neon.rs:449-466 | at most one live snapshot of each kind at any time; success makes the one of this kind hold the current content; other kinds untouched under any failure; without a failed call it succeeds and no archived snapshot is left |
| Neon.Project.RestoreToSnapshot | server/src/neon.rs:421-447 | success puts the snapshot's content on the default branch; failure leaves the old content or that one; branches of earlier restores are gone then, and no more than two are left by this one |
| Neon.Project.RestoreBackup | server/src/neon.rs:502-533 | success puts back exactly what the last backup of the kind captured and keeps the replaced content in the manual-restore snapshot; without a live snapshot nothing changes; failure leaves one of the two contents, and with a live snapshot is due to a failed call |
| Neon.Project.Begin | server/src/neon.rs:535-551 | the checkpoint a rollback will use holds the content at the start, and no other kind of snapshot is disturbed |
| Neon.Project.End | server/src/neon.rs:551-560 | a failed operation whose rollback succeeds leaves the content of the checkpoint; a failed rollback is told apart |
| Database.Newest | server/src/sql.rs:64-78 | the row that the descending order by sequence puts first |
| Database.SetBaseRefusesIffKnown | server/src/sql.rs:54-62 | inserting a base fails if and only if its ID is taken, and the one inserted last is the current one |
| Database.NewestMigrationComesFirst | server/src/sql.rs:114-142 | the row the query gives is the first by sequence and then version of those that join, and there is one if and only if any does |
| Database.RecordedVersionIsApplied | server/src/sql.rs:114-142 | the join's newest migration is the number of migrations that ran to completion on the base |
| Database.SetMigrationRecordsIffBaseIsKnown | server/src/sql.rs:90-112 | the insert-select records a version if and only if the base ID is that of the row, and otherwise succeeds having changed nothing |
| Database.MigrationThenRecord | server/src/noco/migrate.rs:108-126 | a completed migration with its record leads from one consistent database to the next version |
| Database.NewBase | server/src/sql.rs:54-62 | creating a base and recording it makes an empty database consistent at the initial version |
| Database.BaseDeletedThenRow | server/src/sql.rs:80-88 | deleting the base and then its row, which cascades to its migrations, empties the database |
| Database.KnownOrAbsent | server/src/sql.rs:64-142 | in a consistent database a base ID either names the recorded base at the recorded version or no base at all |
| Migrations.MigrationsKeepRequiredTables | server/src/noco/migrations/n4.rs:28-39 | no migration changes the ID of a required table, dropping only the optional one |
| Migrations.Run | server/src/noco/migrations/mod.rs:23-39 | unknown versions change nothing; success applies exactly that migration to that base; failure may wreck the NocoDB side but not the config tables |
| Migrations.TablesAtEachVersion | server/src/noco/migrations/mod.rs:23-39 | which tables a base has after each migration: from the second on all required ones |
| Migrations.EachMigrationNeeds | server/src/noco/migrations/mod.rs:23-39 | what each of the five migrations needs of the tables |
| Migrations.NextMigrationCanRun | server/src/noco/migrations/mod.rs:23-39 | each migration finds in the tables the ones before it left what it needs |
| Migrations.RunAndRecord | server/src/noco/migrate.rs:108-127 | the operation under rollback runs and records exactly the next migration or says there is none; on a base as its migrations left it, only a failed call makes it fail |
| Migrations.Step | server/src/noco/migrate.rs:108-135 | one pass either runs and records exactly the next migration, finds nothing left, or leaves the database as it was, a failed rollback aside |
| Migrations.Pass | server/src/noco/migrate.rs:108-135 | a pass takes the base from one version on the way to the next, or leaves it |
| Migrations.ApplyMissing | server/src/noco/migrate.rs:108-138 | the loop ends; on every exit but a failed rollback the base is at a version on the way with nothing half applied, at the latest one on success, and every content that came into the project on the way is such a version too |
| Migrations.Migrate | server/src/noco/migrate.rs:65-139 | for every start version, failing call and partial effect: recorded version equals migrations applied, each missing one ran once and in order, table IDs of required tables are unchanged, no inconsistent content enters a snapshot, the pre-migration backup holds the content before, and on a base as its migrations left it only a failed call makes it fail |
| Migrations.LatestIsTheFifth | server/src/noco/migrations/mod.rs:23-39 | a base at the latest version went through migrations 1 to 5, in this order |
| Migrations.CreateBaseAndRow | server/src/noco/base.rs:51-61 | creating the base, adding its user and recording it gives a base at the initial version, or an error |
| Migrations.CreateBase | server/src/noco/migrate.rs:77-92 | creation under rollback: a base at the initial version, or, a failed rollback aside, the database as it was |
| Migrations.CreateBaseAndMigrate | server/src/noco/migrate.rs:77-139 | from an empty database: a base at the latest version with all required tables, or, only if a call failed, an error that leaves the database empty or consistent |
| Admin.Environment.DeleteCache | server/src/kv.rs:424-443 | each of the cached base ID and tables is left or gone, both are gone after a complete wipe |
| Cache.Wipe | server/src/kv.rs:424-443 | the wipe of the key-value store does to the environment's base ID and tables what the admin operations take it to do, and nothing to those of others |
| Admin.Environment.FromEnvName | server/src/store.rs:249-307 | the base ID, cached or not, is that of the row; a missing token, configuration or row is an error of its own |
| Admin.Environment.GetTableIds | server/src/store.rs:338-365 | the table IDs, cached or listed, are those a fresh listing of the current base gives for all required tables |
| Admin.Environment.GetTables | server/src/store.rs:318-365 | the same from the environment alone, between any operations |
| Admin.Environment.BackUp | server/src/neon.rs:449-466 | the live snapshot of the kind holds the current content; only a failed call makes it fail |
| Admin.Environment.PostBackup | server/src/store.rs:441-458 | the deployment backup holds the current content |
| Admin.Environment.ApplyMigration | server/src/store.rs:460-489 | migrates exactly the recorded base from its recorded version; unless the rollback fails, a consistent database stays consistent and the cached table IDs stay right although it does not clear them |
| Admin.Environment.MigrateFrom | server/src/store.rs:460-489 | this for the base that was found |
| Admin.Environment.MigrateAt | server/src/store.rs:460-489 | and from the recorded version |
| Admin.ProgressKeepsConsistent | server/src/noco/migrate.rs:108-138 | migrations not left half done keep a consistent database consistent and the cached tables right |
| Admin.MigrationKeeps | server/src/store.rs:460-489 | after a migration the cache is as right as before, a failed rollback aside |
| Admin.Environment.DeleteBase | server/src/store.rs:491-534 | success empties the database with its former content in the deletion backup and nothing stale cached; failure other than of the rollback changes nothing |
| Admin.Environment.BackUpAndWipe | server/src/store.rs:491-510 | before anything is deleted the current content is in the deletion backup and nothing is cached |
| Admin.Environment.DeleteUnderRollback | server/src/store.rs:511-533 | the deletion under rollback empties the database or leaves it as it was |
| Admin.Environment.DeleteBaseAndRow | server/src/noco/base.rs:63-72 | deletes base and row; a base that is not there is an error |
| Admin.Environment.DropOrphanedRow | server/src/router.rs:369-398 | an existing base is an error that changes nothing, and there is no such error without one; after success there is no row |
| Admin.Environment.PostBase | server/src/router.rs:345-413 | at most one base: creation succeeds only on an empty database, at the latest version, and otherwise changes nothing; a missing token or configuration is an error of its own |
| Admin.Environment.CreateWhereNoneIs | server/src/router.rs:400-413 | the creation behind those checks: a base at the latest version, or, only if a call failed, an error; a failed rollback aside, the database is consistent |
| Admin.Environment.PostRestoreBackup | server/src/router.rs:483-523 | success restores the last backup of the kind, keeps the replaced content and leaves nothing stale cached; if nothing was restored, the cache is as good as before; if a restore takes effect and then ends in an error, what it did not wipe of the cache is right if and only if the backup has the base whose ID is cached, or the tables that are |
| Admin.Environment.RestoreContent | server/src/neon.rs:502-533 | the restore itself: the content is the old one or the backup's, and the cache can be relied on exactly as far as it fits it |
| Admin.TwoBases | server/src/router.rs:483-523 | an environment in which everything is right and whose backup has another base, for which the condition fails |
| Admin.Environment.Perform | server/src/router.rs:40-51 | one operation: what it has done if it succeeds (`Done`), that it succeeds if it can (`IsPossible`) and no call fails, which backups it may replace, and that consistency and the agreement of the cache survive every end but a failed rollback and a restore that took effect, ended in an error, and brought back another base or other tables |
| Admin.Environment.PerformProtected | server/src/router.rs:345-481 | this for creation, deletion, migration and backup |
| Admin.Environment.RunAll | server/src/router.rs:40-51 | over every sequence of admin operations with failures anywhere: at most one base row in every content; unless a rollback fails, base and row together in every content and every snapshot; the cached base ID right unless a restore took effect, ended in an error and brought back another base, and, if no rollback failed either, the cached tables right unless it brought back other tables; a backup that no operation replaces stays what it is; each operation that succeeds has done what it is for, and without a failing call each succeeds that can |
| Admin.Environment.Recover | server/src/router.rs:483-523 | whatever happens after a consistent backup, failed rollbacks included, restoring it brings back that consistent database with nothing stale cached |
| Admin.Environment.DeleteThenRestore | server/src/store.rs:491-534 | delete the base, do anything but delete one, restore the deletion backup: the database is what it was, unless a call failed |
| Admin.Environment.BackUpThenRestore | server/src/store.rs:441-458 | back up, do anything but back up, restore the deployment backup: the database is what it was at the backup, unless a call failed |
| Admin.Environment.MigrateThenRestore | server/src/store.rs:460-489 | migrate, do anything that migrates no base, restore the migration backup: the database is what it was before the migration, unless a call failed |
| RefreshCache.RefreshKeysAreDistinct | server/src/store.rs:195-199 | the text in the in-flight set stands for one environment and endpoint |
| RefreshCache.ProvenanceKept | server/src/store.rs:112-243 | every step keeps: whatever is cached, on its way or answered was held by NocoDB for that key when it was fetched |
| RefreshCache.LockKept | server/src/store.rs:190-221 | every step keeps: a key is in an isolate's in-flight set if and only if exactly one refresh of it runs there |
| RefreshCache.WarmRequestIsAnsweredAndRefreshed | server/src/store.rs:188-221 | a warm request is answered with the stale value and leaves exactly one refresh of its key running, starting none if there is one |
| RefreshCache.ColdRequestIsAnswered | server/src/store.rs:222-240 | a request that finds its key in neither cache is answered with what NocoDB holds when it has been fetched, whatever happens until then |
| RefreshCache.EdgeServesAsLongAsItLasts | server/src/cache.rs:136-152 | an edge entry is served as fresh until at most a second is left of its time to live, and never after that |
| RefreshCache.OrderKept | server/src/store.rs:159-213 | every step keeps: the KV writes of the refreshes of a key in an isolate are in fetch order |
| RefreshCache.InvariantAlways | server/src/store.rs:96-245 | the three together over every interleaving |
| RefreshCache.EveryRun | server/src/store.rs:96-245 | from an empty cache, every answer was held earlier by NocoDB, and one marked fresh is younger than the configured time to live plus the delay from its fetch to its put |
| RefreshCache.SettledAnswersAreCurrent | server/src/store.rs:112-243 | once nothing older is left anywhere, all answers are NocoDB's value until it changes |
| RefreshCache.ChangeOutlastsEdge | server/src/cache.rs:136-152 | a value may change at any time, and the edge cache answers with another one no longer than the time to live of its entry |
| RefreshCache.TaskCompletes | server/src/store.rs:144-240 | a task whose own fetch and puts succeed, be it a refresh, a cold request or an announcement's, carries the current value on its way, whatever else happens in between in any isolate, webhooks and wipes included, but a change of the value |
| RefreshCache.EndSettles | server/src/store.rs:409-438 | its end leaves nothing but the current value anywhere: both caches filled, or, for an announcement, KV filled and the edge cache of the environment emptied |
| RefreshCache.WipeAndPurgeSettle | server/src/router.rs:483-523 | wiping the cached data of an environment and purging its edge cache leaves nothing but what tasks on their way bring back |
| RefreshCache.ConvergesWithoutOldWriter | server/src/store.rs:112-243 | if no other value is on its way to a cache, both caches are settled when it completes, and answers stay current |
| RefreshCache.ConvergesIffNoOldWriter | server/src/store.rs:112-243 | for any number of isolates, with cold requests, webhooks and wipes at any time: a refresh, cold request or announcement task started after the last change, once completed, makes every later answer NocoDB's value if and only if no task is yet to write another value of the key when it starts |
| RefreshCache.OldWriterAnswers | server/src/store.rs:112-243 | what a task has yet to write to a cache, whatever its state, can end up in an answer |
| RefreshCache.OldWriterSpoils | server/src/store.rs:112-243 | if there is such a task with another value, a run completes the new task and then answers with the old value |
| RefreshCache.Converges | server/src/store.rs:112-243 | so a request or webhook that starts a task when no other value of the key is on its way to a cache makes every later answer NocoDB's value once that task completes |
| ClientSync.Respond | server/src/cache.rs:29-113 | a stale answer has no tag and is never withheld, a fresh one carries the tag of its value, and 304 is only ever a fresh answer's |
| ClientSync.WeakPrefixIsIgnored | server/src/cache.rs:115-119 | the comparison ignores the weak prefix and nothing else |
| ClientSync.TagsMatchIffValuesEqual | server/src/cache.rs:115-119 | weak comparison (section 8.8.3.2 of RFC 9110) of tags is equality of values |
| ClientSync.RemoteData.ScheduleRetry | client/src/composables/useRemoteData.ts:125-133 | exponential delays, at most five |
| ClientSync.RetryDelays | client/src/composables/useRemoteData.ts:112-133 | 1.5, 3, 6, 12 and 24 seconds |
| ClientSync.RemoteData.Reload | client/src/composables/useRemoteData.ts:136-219 | the stored tag is absent or that of the stored value; a reload does to what is stored and shown what `Reloaded` says; after 304 the server's value is stored, and shown exactly if anything was |
| ClientSync.FailuresKeepData | client/src/composables/useRemoteData.ts:155-219 | what is shown goes if and only if a 404 says that the environment is gone; an error is shown only then or where nothing is shown, and stored data is not lost |
| ClientSync.OfflineChangesNothing | client/src/composables/useRemoteData.ts:211-219 | any number of failing reloads leave what is shown and stored as it is |
| ClientSync.RemoteData.Load | client/src/composables/useRemoteData.ts:226-268 | the server's value ends up on display if and only if the client does not hold unreadable data under that value's tag; readable data stored for this environment is on display after any fetch that fails but a 404 that no alias explains, and no failing fetch loses it; data of another environment stays on display if and only if it was, this one's is not stored, and the fetch fails other than with such a 404 |
| ClientSync.NeverShown | client/src/composables/useRemoteData.ts:246-257 | a client with nothing to show that holds unreadable data under the tag of a value has nothing to show after any number of reloads if and only if the server gave that value, and not a stale one, each time |
| Keys.ParseKey | server/src/kv.rs:20-101 | every key can be read back to what it stands for |
| Keys.KeysAreDistinct | server/src/kv.rs:20-101 | the key builders are injective and pairwise disjoint for colon-free names and IDs |
| Keys.CacheScan | server/src/kv.rs:85-101 | the cache prefix selects one environment's cache entries and nothing else |
| Keys.SubscriptionScan | server/src/kv.rs:77-83 | the subscription prefix selects one environment's subscriptions and nothing else |
| Keys.AliasScan | server/src/kv.rs:162-182 | the alias prefix selects aliases only, and stripping prefix and suffix gives the alias |
| Keys.CacheScanWithColons | server/src/kv.rs:85-101 | with colons in names, the scan for one environment finds an entry of another if and only if that one's name, with a colon, begins with the first one's name and `:cache:` |
| Keys.ColonsMixEnvironments | server/src/kv.rs:85-101 | two environments for which that is so |
| Keys.BuildersAreSound | server/src/kv.rs:20-101 | the builders meet what the store's operations need |
| KeyValue.GetCommutes | server/src/kv.rs:210-218 | reading the flat store is reading a record of separate typed maps |
| KeyValue.PutCommutes | server/src/kv.rs:199-208 | so is writing |
| KeyValue.DeleteCommutes | server/src/kv.rs:246-252 | and deleting |
| KeyValue.CacheKeysFitOnePage | server/src/kv.rs:425-434 | the first page of the scan is all of it, as the comment assumes |
| KeyValue.WipeCommutes | server/src/kv.rs:424-443 | for names without colons, a wipe of the flat store, complete or not, is one of the typed maps, which loses what is cached for the environment only |
| KeyValue.WipeTakesAnothersEntryIff | server/src/kv.rs:424-443 | with colons in names, a complete wipe for one environment takes an entry of another if and only if its name begins as said or their keys coincide |
| KeyValue.ColonsWipeAnothersId | server/src/kv.rs:424-443 | a wipe that, from a store with another environment's ID, deletes that ID |
| KeyValue.WipeOfTablesAndBaseId | server/src/kv.rs:440-441 | what a wipe means for the cached tables and base ID that the admin operations rely on |
| KeyValue.KvStore.Get | server/src/kv.rs:210-218 | a get under the formatted key is a lookup in the typed maps |
| KeyValue.KvStore.Put | server/src/kv.rs:199-208 | a put changes one entry of the typed maps |
| KeyValue.KvStore.Delete | server/src/kv.rs:246-252 | a delete removes one entry of the typed maps |
| KeyValue.KvStore.ListCache | server/src/kv.rs:425-434 | the listing holds scanned keys only, and all of them if they fit one page |
| KeyValue.KvStore.GetIdEnv | server/src/kv.rs:115-131 | an ID resolves if and only if it is the current one of the environment it was given to, as `Links.Resolve` has it |
| KeyValue.KvStore.Wipe | server/src/kv.rs:424-443 | in terms of keys: deletes nothing but the scanned keys, the tables and the base ID, and on success all of them |
| KeyValue.KvStore.DeleteCache | server/src/kv.rs:424-443 | for names without colons: removes nothing but one environment's cached data, tables and base ID, and on success all of them |
| KeyValue.KvStore.DeleteKeys | server/src/kv.rs:425-438 | the listing and the loop delete scanned keys only, all of them on success if they fit one page |
| Listings.PageAdvances | server/src/kv.rs:514-536 | after a page that is not the last, short or empty as it may be, the keys found are up to its cursor, and among them are those that were there throughout |
| Listings.LastPageFindsTheRest | server/src/kv.rs:533-536 | after the last page none of those is missing |
| Listings.AfterPage | server/src/kv.rs:514-536 | the two together for one pass of the loop, each found key with a value it had meanwhile |
| Listings.Namespace.GetValues | server/src/kv.rs:521-532 | a key that vanished between listing and reading is skipped, any other is read |
| Listings.Namespace.ListAll | server/src/kv.rs:505-540 | over any number of pages, full, short or empty, and with keys deleted, added and changed at any time, the loop ends: every key under the prefix that is there throughout is found, none twice, each with a value it had meanwhile |
| Listings.SubscriptionsFound | server/src/kv.rs:77-83 | the keys found under an environment's prefix are exactly those of its subscriptions |
| Listings.Namespace.ListSubscriptions | server/src/kv.rs:505-540 | while the store holds typed entries: values of different subscriptions of the environment, and of every one that is there throughout |
| Listings.AliasOfKey | server/src/kv.rs:171-181 | stripping prefix and suffix inverts the key builder |
| Listings.AliasesOfKeys | server/src/kv.rs:171-182 | the two filters keep exactly the aliases of the listed keys |
| Listings.AliasesAreTyped | server/src/kv.rs:162-196 | the pairs listed are alias entries with targets they had |
| Listings.Namespace.GetTargets | server/src/kv.rs:184-193 | each alias that is there throughout, and targets they had meanwhile only |
| Listings.Namespace.ListAliases | server/src/kv.rs:162-196 | one page only: alias entries with targets they had, and every one that is there throughout if the page is complete, as it is when pages are filled and the aliases fit one |
| Links.ResolvesExactlyCurrent | server/src/kv.rs:115-131 | in sound links exactly one ID resolves to each linked environment |
| Links.PutKeepsSound | server/src/router.rs:122-143 | a link request keeps current IDs resolvable, cut short or not, exactly when it does not take over another environment's current ID |
| Links.PutSwitchesAtOnce | server/src/router.rs:122-143 | until its last write a request changes nothing visible; then the new ID works, the old one does not, others are unaffected |
| Links.EveryRunIsSound | server/src/router.rs:122-143 | over any run of requests with crashes, IDs not taken over |
| Links.LastPutResolves | server/src/router.rs:122-143 | at the end of any run without takeover, the ID put last works |
| Links.LinkStore.PutLink | server/src/router.rs:122-143 | the handler makes a first part of its two writes, both on success, and fails only if a call failed |
| Domains.CrashKeepsSafe | server/src/router.rs:221-292 | a request that crashes after any write leaves every resolving domain resolving to an environment that claims it |
| Domains.CompleteKeepsInverse | server/src/router.rs:221-292 | a completed request keeps the two maps mutually inverse |
| Domains.CompleteTakesEffect | server/src/router.rs:221-292 | also in maps crashes left behind, a completed request gives the environment that domain and no other, or none, and leaves other environments' claims alone (for their domains see the next rows) |
| Domains.DomainIsKeptIffNotTaken | server/src/router.rs:221-292 | a request, cut short or not, leaves a domain of another environment alone if and only if it is not the one it takes, which the maps before it tell |
| Domains.OthersAreKeptIffNoneTaken | server/src/router.rs:221-292 | a completed request leaves all domains of other environments alone if and only if it takes none |
| Domains.NoneTakenWhenInverse | server/src/router.rs:221-292 | in mutually inverse maps no request takes a domain |
| Domains.DomainStaysIffNeverTaken | server/src/router.rs:221-292 | over any run of others' requests with crashes, an environment keeps its domain if and only if none of them takes it |
| Domains.RetryRepairs | server/src/router.rs:221-292 | in any maps, repeating a crashed request ends where it would have ended without the crash |
| Domains.RepeatCompletes | server/src/router.rs:221-292 | so does repeating it through any number of crashes |
| Domains.RepeatedRunIsCrashFree | server/src/router.rs:221-292 | a run in which each crashed request is repeated ends like the run without crashes |
| Domains.RepeatingKeepsInverse | server/src/router.rs:221-292 | if each crashed request is repeated before the next one, the maps stay mutually inverse and no domain is ever taken |
| Domains.EveryRunIsSafe | server/src/router.rs:221-292 | over arbitrarily many requests and crashes, every resolving domain resolves to an environment that claims it |
| Domains.CrashFreeRunsKeepInverse | server/src/router.rs:221-292 | over any run without crashes the maps stay mutually inverse |
| Domains.CrashesCanOrphanADomain | server/src/router.rs:237-249 | a run in which a domain is taken, a crash two requests earlier being the cause |
| Domains.PutWrites | server/src/router.rs:221-259 | the maps after each of the writes of a put |
| Domains.DeleteWrites | server/src/router.rs:275-292 | the maps after each of the writes of a deletion |
| Domains.DomainStore.PutEnvDomain | server/src/router.rs:221-259 | the handler makes a first part of the planned writes, all on success, refuses exactly the domains of other environments, and otherwise fails only if a call failed |
| Domains.DomainStore.DeleteEnvDomain | server/src/router.rs:275-292 | the same for deletion |
| EdgeWorker.EscapedTextIsLiteral | client/worker/index.ts:154 | inside any pattern, escaped text stands for exactly itself |
| EdgeWorker.AppPathMeaning | client/worker/index.ts:156 | an ID is read off a path if and only if the path is its mount point or lies below it |
| EdgeWorker.FilePathMeaning | client/worker/index.ts:158-162 | a path is read as an attachment if and only if the regular expression accepts it, with the ID between prefix and optional slash |
| EdgeWorker.ManifestPathMeaning | client/worker/index.ts:164-167 | the same for the manifest |
| EdgeWorker.ServiceWorkerAcceptsMounted | client/src/sw.ts:25-30 | the service worker's pattern accepts exactly the paths that one of the two ways of mounting the app reads as an attachment |
| Routing.Fetch | client/worker/index.ts:425-535 | the handler with its assigned variables, failed lookups included, routes as the specification whose properties follow |
| Routing.MeaningIsContent | client/worker/index.ts:158-167 | which paths below a prefix are attachments, the manifest, and neither |
| Routing.CustomHostServes | client/worker/index.ts:451-503 | so it does from the root of a mapped hostname |
| Routing.DefaultHostServes | client/worker/index.ts:445-503 | below its mount point on a default hostname, an app without a known domain answers the paths of attachments with these, those of the manifest with that, and all others with the page |
| Routing.OtherAnswers | client/worker/index.ts:433-463 | the script for its path, Not Found exactly on hostnames that are not mapped or cannot be looked up, and the client without an environment exactly on default hostnames without an ID in the path |
| Routing.TargetParses | client/worker/index.ts:474-475 | the redirect's location, read as a URL, has the custom domain as host and the rest of the path and query |
| Routing.StrippingKeepsMeaning | client/worker/index.ts:158-167 | below the stripped mount point a path asks for the same attachment, manifest or page |
| Routing.RedirectLandsHome | client/worker/index.ts:437-487 | there is a redirect if and only if the configuration can be looked up; it leads to the same environment, mounted at the root, without another redirect, asking for the same, if and only if the hostname can be looked up, the domain is not the client's own, the reverse map agrees, and the path is not the analytics script's |
| Routing.RedirectTaken | client/worker/index.ts:465-485 | an environment with a domain is redirected to it, or served in place if its configuration cannot be looked up |
| Routing.RedirectLandsHomeWhenInverse | server/src/router.rs:295-314 | with mutually inverse maps, if and only if the domain can be looked up and is not the client's own |
| Routing.OwnHostnameHidesTheApp | client/worker/index.ts:437-487 | an environment that claims the client's own hostname has its start page redirected to the home page |
| Schedule.FetchPage | server/src/noco/data.rs:33-38 | what is assumed of NocoDB's pages |
| Schedule.ListRecords | server/src/noco/data.rs:19-50 | the loop ends with the whole table, each row once and in order, or, if and only if a call failed, with an error |
| Schedule.KeptExactly | server/src/noco/data.rs:255-286 | which records become events |
| Schedule.ScheduleShows | server/src/noco/data.rs:255-312 | an event is in the schedule as often as the table has a shown record of it with a start, provided its end, if any, is readable and not before a readable start, and not otherwise |
| Schedule.ScheduleIsCompleteAndOrdered | server/src/noco/data.rs:255-312 | a permutation of the kept events, lexicographic by start and end with an absent end first, equal times in the table's order, because the second sort keeps the first |
| Schedule.ScheduleIsInTimeOrder | server/src/noco/data.rs:305-309 | with times in the layout of one NocoDB column, the schedule is in order of time, by start and then end, although the sorts compare text |
| TimeStamps.ReadText | server/src/noco/data.rs:270-274 | reading that layout and writing it are inverse |
| TimeStamps.NumbersAreDecimal | server/src/noco/data.rs:270-274 | each further digit takes ten times what the others stand for and adds its own |
| TimeStamps.StampsAreTimes | server/src/noco/data.rs:270-274 | every second of every day of the calendar can be read, and nothing else can |
| TimeStamps.OffsetsOfZones | server/src/noco/data.rs:270-274 | which texts are offsets, and of how many seconds |
| TimeStamps.DaysOfYear | server/src/noco/data.rs:270-274 | the days before each month |
| TimeStamps.GregorianYears | server/src/noco/data.rs:270-274 | the days before a year, year by year, are those of the Gregorian count |
| TimeStamps.WestIsLater | server/src/noco/data.rs:270-274 | what a zone to the west adds |
| TimeStamps.SecondsBetween | server/src/noco/data.rs:270-274 | times of one zone differ by 86,400 seconds for each day between them, and by their clocks |
| TimeStamps.DigitsSortAsNumbers | server/src/noco/data.rs:308-309 | digits of one width sort as text like their numbers |
| TimeStamps.StampsSortByLocalTime | server/src/noco/data.rs:308-309 | stamps sort as text by the local time they show, then by their offset |
| TimeStamps.StampsSortByTime | server/src/noco/data.rs:308-309 | with one offset, stamps sort as text like the times they stand for |
| TimeStamps.StampsSortAgainstTimeIff | server/src/noco/data.rs:308-309 | with different offsets they do not if and only if the offsets differ by more than the clocks |
| StableSort.SortRefines | server/src/noco/data.rs:307-309 | a stable sort refines the order its input was in |
| StableSort.SortIsStable | server/src/noco/data.rs:307-309 | ties stay in the order they came in |
| Days.MidnightStartsTheDay | client/src/utils/time.ts:80-97 | with a constant offset the guess and its correction give the start of the local day |
| Days.ConstantOffsetIsACalendar | client/src/utils/time.ts:99-109 | a day's interval covers its dates but for those in its last second |
| Days.DatesToDayNames | client/src/utils/time.ts:118-152 | the nested loop over a shared index ends, and gives the days of the first uncovered dates |
| Days.DaysAreDistinctIffNoLateRepeat | client/src/utils/time.ts:118-152 | days never go back, and never repeat if and only if no date in a day's last second follows another of that day |
| Days.SplitHasTheDaysOfDates | client/src/utils/time.ts:118-152 | the days are exactly the local days of the dates |
| Days.EachDateInOneDayIffNoneIsLate | client/src/utils/time.ts:118-152 | every date lies in exactly one interval if and only if none is in the last second of its day |
| Days.WholeSecondsSplitIntoTheirDays | client/src/utils/time.ts:118-152 | constant offset and whole seconds: exactly the distinct local days, increasing, each date in exactly one |
| Days.SubSecondsRepeatADay | client/src/utils/time.ts:99-109 | half a second before midnight a day comes twice |
| Grouping.GroupByTime | client/src/utils/time.ts:154-182 | one group for each key, in order of first values, under what the first of them resolves to |
| Grouping.KeysAreDistinct | client/src/utils/time.ts:171-173 | no key has two groups |
| Grouping.GroupsConserveValues | client/src/utils/time.ts:167-181 | no value is lost or repeated |
| Grouping.GroupsAreInOrder | client/src/utils/time.ts:160-165 | each group is in order of time, and so are the groups |
| Grouping.FlatteningRestoresIffContiguous | client/src/utils/time.ts:154-182 | the groups one after the other are the sorted values if and only if equal keys are contiguous in time |
| Grouping.GroupByTimeConserves | client/src/utils/time.ts:154-182 | all of this for unsorted values |
| Utf8.BoundariesAreOffsets | server/src/push/notification.rs:65-71 | text may be sliced exactly at the byte offsets of its characters |
| Utf8.SliceAtOffset | server/src/push/notification.rs:71 | slicing there gives the characters before |
| Utf8.DecodeEncode | server/src/push/notification.rs:59-68 | reading characters off encoded text gives the text |
| Notification.TruncateAtWordBoundary | server/src/push/notification.rs:57-78 | the byte-offset program never panics and computes the character-level specification |
| Notification.TrimCutsWhitespace | server/src/push/notification.rs:58 | trimming cuts whitespace and nothing else off both ends, and all of it |
| Notification.WhitespaceCharacters | server/src/push/notification.rs:74 | the 25 characters with the White_Space property of Unicode |
| Notification.KeptEndsAtAWord | server/src/push/notification.rs:71-77 | a window is kept up to its last run of whitespace, or in full if it has none |
| Notification.TruncatedKeepsWholeWords | server/src/push/notification.rs:54-78 | short text is unchanged; long text becomes a nonempty beginning of itself, cut before the window's last run of whitespace if it has any, and an ellipsis |
| Notification.FitsIffShortOrSeveralWords | server/src/push/notification.rs:54-56 | the promised length holds if and only if the text is short or its window contains whitespace |
| Notification.TwoWords | server/src/push/notification.rs:57-78 | what becomes of any two words of printable ASCII with a space between them |
| Encoding.Djb2Hash | client/src/utils/encoding.ts:2-12 | up to 4,194,000 code units the double accumulator is exact and the result is the polynomial 5381·33^n + Σ c_i·33^(n-1-i) modulo 2^32 (sections 7.1.6 and 7.1.7 of ECMA-262) |
| Encoding.RoundsToNearest | client/src/utils/encoding.ts:2-12 | rounding to a double gives a nearest multiple of the spacing of doubles of that size, and an even one of two |
| Encoding.PolynomialIsDjb2 | client/src/utils/encoding.ts:2-12 | which is the hash on a 32-bit accumulator |
| Encoding.KnownHashes | client/src/utils/encoding.ts:2-12 | the hashes of no text, "a" and "ab" |

## Left out

- Encoding.Djb2Hash: says nothing about strings of more than 4,194,000 code units, for which the accumulator may lose its last bits.
- RefreshCache.ConvergesIffNoOldWriter: takes KV to be strongly consistent, so that a read sees the last write; the real one is eventually consistent, and an old value can be read for some time after a write. The persistent cache is not monotonic, since cold requests and the announcement webhook bypass the in-flight set.
- Admin.Environment.RunAll: after a rollback that itself failed, of the content it left only the bound of one base row is known, until a backup is restored.
- Neon.Project.LookupDefaultBranch: a project without a branch of the default name, an error, is not modelled.
- Admin.Environment.DropOrphanedRow: deleting a base in NocoDB behind the server's back is not an operation of the model; the branch for it is modelled, but with consistent content it is not reached.
- Routing.RedirectLandsHome: hostnames are compared as they are; lower-casing and other normalisation by the URL parser is not modelled, nor percent-encoding.
- Schedule.ListRecords: the table does not change while it is read.
- Schedule.ScheduleIsInTimeOrder: fractions of a second and other layouts of RFC 3339 are not read; nothing is known to put different offsets into one column.
- Days.WholeSecondsSplitIntoTheirDays: zones have a constant offset; across a transition to or from daylight saving time neither midnight nor the next day need be right. Hour 24 of some date formatters is not modelled, nor the texts of weekday and date.
- The NocoDB and Neon APIs beyond their effect: a fetch is one atomic read, a snapshot captures and a restore replaces the content; columns, views, hooks and records of migrations are an arbitrary value.
- One edge cache with one address for each environment and endpoint; the real one is per data centre, and old IDs of an environment are addresses of their own until their entries expire.
- Background tasks that the platform kills before they finish, which would keep their key in the in-flight set.
- The content of the tag: hashing is an injective function.
- Switching environments while a fetch is in flight, two reloads at once, and the navigation to the target of an alias.
- Listings.Namespace.ListAll: that the service ends every listing after some number of pages is assumed, and that the keys others use meanwhile are finitely many.
- Chains of aliases, which nothing keeps from being cyclic.
- Flattening Markdown for a notification, and the names of people and tags of an event, which would add only easy members.
- Authentication, CORS, HTML rewriting, the manifest's fields, push encryption, Vue views and deployment.
