# Maintenance scripts, startup patching and clients of YourFinanceWORKS, verified

This project models the parts of YourFinanceWORKS that keep state over several steps and must survive
being interrupted, repeated or interleaved, and proves what they keep. One file stands for one source
file (the plugin loader has two); `Collections.dfy` and `Decimal.dfy` hold what they share.

- `DuplicateClients.dfy`: merging clients with the same name and email, group by group. Whatever groups
  have been committed, the tables are a closed-form function of the initial tables: invoices follow to
  the oldest client, contact fields are the first non-empty ones, money is conserved.
- `PluginRegistry.dfy`, `SidecarRetry.dfy`: the plugin loader's derived registries, and the retry thread
  interleaved step by step with readers that take the same lock.
- `EmailMigration.dfy`: the transaction that makes client emails unique, and exactly when it commits.
- `SchemaPatch.dfy`: adding missing columns at every startup, cut short anywhere, by any number of
  processes, while the application keeps writing.
- `DataRepair.dfy`: flagging, recovering and clearing cells that do not decrypt.
- `JsonExposure.dfy`: the recursive finder of encrypted-looking strings, the sanitiser, and how the one
  sees the other's result.
- `TokenCache.dfy`: the token cache in memory and file, over all runs of any number of clients.
- `PagedSearch.dfy`: the batched search with early exit, on fixed and on growing collections.
- `LicenseKeys.dfy`: allocating key versions from file names.

Each module ends its specification with a part that tells the main results once more in the tables' own terms:
columns, literal field and file names, seconds, addresses. These statements spell their conditions out instead of
naming the definitions that the operations share, and so say what those definitions mean.

Code that changes state is a class with `modifies` methods; each method is tied to a function of the old
state, and the lemmas speak about that function. Failures are inputs: a budget of statements that
succeed, the number of the failing statement, or a set of failing updates. Proving something for all
values of such an input covers every point of failure.

## Assumptions

- Money is exact (`real`). Database columns compare as plain text; with column encryption switched on the
  grouping query would compare ciphertexts, which is outside the model.
- A transaction works on a copy that is installed by the commit or dropped. `ALTER TABLE` keeps other
  sessions out of the table until its transaction ends (PostgreSQL).
- Every invoice and every client note initially points at an existing client.
- A query result whose order the database does not fix is any sequence with the right elements.
- `is_likely_encrypted_data` is an arbitrary predicate that is false on the marker `[ENCRYPTED]`.
- The encryption service is abstract; only decrypt-after-encrypt is assumed. Re-encryption draws a nonce.
  Where a second repair run is concerned, also that a ciphertext is longer than the scan's threshold of 20
  characters and that no other tenant's key authenticates it (`Authenticated`).
- In the key directory a name that can be written can be unlinked, and no versioned name is itself a link.
  (If the unlink of an old link failed, the fallback copy would write through it into the old versioned key.)
- A server page is the requested stretch of the collection, clipped to it.
- Server and client share one clock in the token cache. No monotone clock is needed.

## Results that say more than the documentation

- Merging duplicates deletes the notes of the removed clients (`notes` cascades), while invoices survive
  because they are repointed before the delete. `MergedFor` states both, `LostNoteExample` is a case. The
  script's printed count exceeds what was deleted exactly when a turn fails after one of its removals, for
  instance in its commit (`PrintedIsDeletedIff`, `OvershootExample`).
- The email migration does not always succeed: it commits exactly when no generated address is already
  kept by another client (`CollisionExample` is a case where one is). It can never succeed twice. Where a
  unique index is enforced already, as the current model class declares, the default addresses must be free too.
- `test_discover_skips_private_dirs` in `api/tests/test_plugin_loader.py` expects folders with a leading
  underscore to be skipped. The code normalises the id first, so they are found; the model follows the code.
- Whether the column patching can ever complete is decided by the initial tables. A step whose foreign key
  refers to a missing table fails at every later startup, and no missing column listed behind it is ever added;
  a tenant without an `expenses` table gets none at all (`WithoutExpensesNothingIsAdded`).
- A registry listing copies the list and looks the directories up later, so an entry can be shown with the
  directory of another plugin: exactly when that plugin is the last registration of the id at look-up time.
- The repair of corrupted cells always re-encrypts for tenant 1, whatever tenant it runs for, and clears
  cells whose value under another key is empty. In a run for another tenant everything that is not cleared is
  flagged again by the next one (`SecondRunIff`).
- The audit-log pass misses strings three or more keys deep in a field that has none two keys deep.
- The verdict of `_load_token_from_file`, with its five-minute buffer, is ignored by its caller; the
  recorded expiry is what keeps handed-out tokens alive, provided logins take at most five minutes.
- On a growing collection the search misses matching records appended behind a short page; its result is the
  requested window of all matches if and only if none before the window's end was missed (`GrowingWindowIff`).

## Model

| member | source | states |
|---|---|---|
| DuplicateClients.EveryCommit | api/scripts/cleanup_duplicate_clients.py:53-114 | after any number of groups in any order, the tables are the initial ones with exactly those groups merged: heirs, contact fields, invoices, notes, totals |
| DuplicateClients.MergeAllEffect | api/scripts/cleanup_duplicate_clients.py:73-109 | merging one group keeps the other clients, gives the survivor the first non-empty contact values and the sum of the money, moves the invoices, drops the removed clients' notes |
| DuplicateClients.MergeOneConservesMoney | api/scripts/cleanup_duplicate_clients.py:102-109 | total balance and total paid amount, missing counted as 0, survive every single merge |
| DuplicateClients.MergeExtends | api/scripts/cleanup_duplicate_clients.py:94-106 | absorbing one more client keeps "first non-empty in id order" and "sum of the amounts" |
| DuplicateClients.MergeGroupExtends | api/scripts/cleanup_duplicate_clients.py:57-113 | groups found up front can be merged one after the other: one more is merged, nothing else changes |
| DuplicateClients.UntouchedGroup | api/scripts/cleanup_duplicate_clients.py:40-63 | a group not merged yet still has exactly its initial clients, unchanged |
| DuplicateClients.MergedIsConsistent | api/scripts/cleanup_duplicate_clients.py:75-77 | at every commit each invoice and remaining note points at an existing client |
| DuplicateClients.OldestSurvive | api/scripts/cleanup_duplicate_clients.py:60-67 | after a complete run the survivors are exactly the smallest ids of the initial groups, and no two share name and email |
| DuplicateClients.PreviewPredictsCleanup | api/scripts/cleanup_duplicate_clients.py:155-180 | announced = deleted = clients minus distinct (name, email) pairs; a second run finds no group |
| DuplicateClients.QueryInColumns | api/scripts/cleanup_duplicate_clients.py:40-49 | the answered rows are the pairs of name and email that several clients share, each once and with its count |
| DuplicateClients.OthersAreLeftAlone | api/scripts/cleanup_duplicate_clients.py:57-60 | merging a group leaves every client of another name or another email unchanged |
| DuplicateClients.LoneClientsSurvive | api/scripts/cleanup_duplicate_clients.py:40-60 | a client that shares name and email with nobody survives every run unchanged, however far it gets |
| DuplicateClients.CleanupInColumns | api/scripts/cleanup_duplicate_clients.py:40-113 | after a complete run: who survives, that no two survivors agree in name and email, and what each holds, column by column |
| DuplicateClients.LinksInColumns | api/scripts/cleanup_duplicate_clients.py:73-92 | at every commit, whose each invoice and note is |
| DuplicateClients.MoneyInColumns | api/scripts/cleanup_duplicate_clients.py:102-106 | at every commit the balance and paid-amount columns add up to what they did, NULL counting as zero |
| DuplicateClients.PreviewInColumns | api/scripts/cleanup_duplicate_clients.py:155-180 | the announced number is the clients less the different pairs of name and email |
| DuplicateClients.GroupStillWhole | api/scripts/cleanup_duplicate_clients.py:62-63 | the guard for groups of at most one client never fires, and each turn removes all but one |
| DuplicateClients.PrintedIsDeletedIff | api/scripts/cleanup_duplicate_clients.py:110-123 | the printed count never falls short, and is right exactly when all groups are done or the failing turn removed nothing |
| DuplicateClients.OvershootExample | api/scripts/cleanup_duplicate_clients.py:110-113 | a database where a failing commit leaves nothing deleted and one removal counted |
| DuplicateClients.LostNoteExample | api/scripts/cleanup_duplicate_clients.py:75-109 | merging two clients keeps the invoice and loses the note of the younger one |
| DuplicateClients.TenantDatabase.MergeFields | api/scripts/cleanup_duplicate_clients.py:94-106 | the five conditional assignments amount to absorbing the removed client |
| DuplicateClients.TenantDatabase.MergeRemoved | api/scripts/cleanup_duplicate_clients.py:73-110 | the inner loop, up to an error, merges the listed clients into the kept one |
| DuplicateClients.TenantDatabase.CleanupGroup | api/scripts/cleanup_duplicate_clients.py:57-113 | a turn is committed as a whole or dropped as a whole |
| DuplicateClients.TenantDatabase.CleanupDuplicateClients | api/scripts/cleanup_duplicate_clients.py:37-121 | for every failure point the committed tables are a prefix of the merges; when a run completes; the exact value of the counter, and when it equals the deletions |
| DuplicateClients.TenantDatabase.PreviewDuplicates | api/scripts/cleanup_duplicate_clients.py:128-187 | the preview counts clients minus distinct pairs |
| PluginRegistry.ScannedExactly | api/plugins/loader.py:124-151 | a plugin is found for every folder with a readable, complete manifest and for no other |
| PluginRegistry.ScannedAreLocal | api/plugins/loader.py:124-151 | what the scan finds are no sidecars and keep folder name, directory and manifest |
| PluginRegistry.UnderscoreFolderIsFound | api/plugins/loader.py:124-151 | a folder with a leading underscore is found |
| PluginRegistry.DirIndexIsLastWins | api/plugins/loader.py:164 | the directory cache has exactly the listed ids, each with the last plugin's directory |
| PluginRegistry.LateKeepsDirIndex | api/plugins/loader.py:609-613 | after any number of late sidecars the cache still indexes the whole list |
| PluginRegistry.PermissionsAreLastWins | api/plugins/loader.py:165-176 | a key's permissions are those of the last plugin filing under it, by id or, if found by discover, by normalised manifest name; other keys are absent |
| PluginRegistry.RetryPartitions | api/plugins/loader.py:596-622 | over ten rounds every pending name is registered once or left over |
| PluginRegistry.GivenUpIff | api/plugins/loader.py:599-628 | a name is given up exactly when none of its probes gave a valid manifest |
| PluginRegistry.RegisteredIff | api/plugins/loader.py:596-622 | exactly the pending names that answer within ten rounds are registered, each as its first valid answer says |
| PluginRegistry.PublicIsAdminStripped | api/plugins/loader.py:403-440 | the public entry is the admin entry without sensitive fields and with a flag for the error; it never has a sensitive field |
| PluginRegistry.AdminEntryFields | api/plugins/loader.py:386-400 | every field of an admin entry: when each of the four added ones is set and to what, and that the manifest's others are kept |
| PluginRegistry.PublicEntryFields | api/plugins/loader.py:430-439 | every field of a public entry, the three flags and the withheld ones included |
| PluginRegistry.AliasOfName | api/plugins/loader.py:165-176 | when a second permission key exists, and that it is the name in lower case with hyphens |
| PluginRegistry.AcceptedManifests | api/plugins/loader.py:638-650 | a manifest is accepted exactly with a non-empty name, version and description |
| PluginRegistry.ShownElsewhereIff | api/plugins/loader.py:336-340 | a look-up for a plugin of an older copy gives another directory exactly when the last plugin with its id is another one elsewhere |
| PluginRegistry.ExternalFlagWrongIff | api/plugins/loader.py:386-392 | exactly when an entry's external flag is not that of its own directory |
| PluginRegistry.LateSidecarTakesFlag | api/plugins/loader.py:609-613 | a late sidecar of the same name takes a dynamic plugin's flag away |
| PluginRegistry.PluginLoader.IndexDiscovered | api/plugins/loader.py:164-176 | rebuilds cache and permissions from the list |
| PluginRegistry.PluginLoader.Discover | api/plugins/loader.py:97-182 | list, cache and permissions agree afterwards; a second call changes nothing |
| PluginRegistry.PluginLoader.DiscoverSidecarPlugins | api/plugins/loader.py:548-567 | first probes split the names into found and pending |
| PluginRegistry.PluginLoader.RetryRound | api/plugins/loader.py:601-620 | one round registers what answers and keeps the rest pending |
| PluginRegistry.PluginLoader.RetrySidecarPlugins | api/plugins/loader.py:596-628 | the uninterrupted thread registers and gives up exactly the specified names |
| PluginRegistry.PluginLoader.GetPluginDir | api/plugins/loader.py:336-340 | the last directory of the id, or none |
| PluginRegistry.PluginLoader.GetPermittedCoreTables | api/plugins/loader.py:342-346 | the tables of the last plugin filing under the id, or the empty set |
| PluginRegistry.PluginLoader.GetRegistry | api/plugins/loader.py:364-401 | one admin entry per plugin of the copied list, in order; all its fields, the external flag from the cache as it is when that entry is looked up |
| PluginRegistry.PluginLoader.GetPublicRegistry | api/plugins/loader.py:413-440 | one public entry per plugin of the copied list; all its fields, none of them sensitive, flags looked up likewise |
| SidecarRetry.InvHolds | api/plugins/loader.py:596-622 | the invariant of the interleaved system holds in every reachable state |
| SidecarRetry.ReadersSeeWholeRegistrations | api/plugins/loader.py:381-383 | whenever the retry thread is out of its critical section list and cache agree; every listing copied such a list, and each of its look-ups was answered from one at least as new |
| SidecarRetry.EntryShownElsewhereIff | api/plugins/loader.py:385-392 | in every run, a copied entry is shown with a directory not its own exactly when the last registration of its id at look-up time is another plugin elsewhere |
| SidecarRetry.NoNameTwice | api/plugins/loader.py:601-620 | registered and unregistered names partition the pending ones; none is registered twice |
| SidecarRetry.FinishedAsUninterrupted | api/plugins/loader.py:605-622 | under every interleaving a finished thread has registered and given up the same, in the same order, as the plain loop |
| SidecarRetry.RetryMakesProgress | api/plugins/loader.py:599-622 | each step of the thread decreases a measure unless it waits for the lock or is done |
| SidecarRetry.TenRoundsAtMost | api/plugins/loader.py:569-570 | no eleventh round, and a bound on the thread's steps in any run |
| EmailMigration.RenamingSucceedsIff | api/scripts/make_client_email_unique.py:40-50 | the renamed column is duplicate-free exactly when no generated address is already kept |
| EmailMigration.GeneratedDistinct | api/scripts/make_client_email_unique.py:40-42 | two clients never get the same generated address, because an id holds no underscore |
| EmailMigration.RowNumberOne | api/scripts/make_client_email_unique.py:45-48 | rn > 1 exactly for clients whose email an older client has |
| EmailMigration.DefaultsDistinct | api/scripts/make_client_email_unique.py:32-36 | the default addresses of different clients differ |
| EmailMigration.EachClientsEmail | api/scripts/make_client_email_unique.py:31-50 | the email of each client after success, told from the emails before |
| EmailMigration.FillingSucceedsIff | api/scripts/make_client_email_unique.py:31-36 | with a unique index in force, filling the gaps succeeds exactly when no default address is taken |
| EmailMigration.MigratedEmails | api/scripts/make_client_email_unique.py:53-59 | after success all clients are there, with non-empty and unique emails |
| EmailMigration.CommitsIff | api/scripts/make_client_email_unique.py:31-68 | told from the addresses, exactly when the migration commits; otherwise nothing changes |
| EmailMigration.CommittedAddresses | api/scripts/make_client_email_unique.py:31-59 | after a commit each client has its address or the made-up one, extended by its id exactly if an older client has the same |
| EmailMigration.SecondRunRollsBack | api/scripts/make_client_email_unique.py:57-68 | a second run finds nothing to rename and still fails, the named constraint being there, without changing anything |
| EmailMigration.CollisionExample | api/scripts/make_client_email_unique.py:40-50 | three clients for which the migration cannot commit |
| EmailMigration.TenantDatabase.MigrateTenantDatabase | api/scripts/make_client_email_unique.py:15-74 | succeeds exactly under the stated condition; otherwise nothing changes |
| Decimal.LastSeparatorSplitsUniquely | api/scripts/make_client_email_unique.py:42 | the last underscore splits a generated address in one way |
| Decimal.ParsePrint | api/scripts/generate_license_keys.py:53-55 | reading a printed number gives it back |
| Decimal.PrintedInDecimal | api/scripts/generate_license_keys.py:96-103 | printing is decimal, digit by digit, with a sign for negative numbers |
| SchemaPatch.Database.EnsureColumns | api/db_init.py:62-182 | for every failure point the loop, deciding on cached looks at the tables, commits what the step-by-step specification commits; it alters nothing when nothing is missing |
| SchemaPatch.ListsAreDistinct | api/db_init.py:75-165 | no column is listed twice, which makes the cached looks safe |
| SchemaPatch.RunKeepsTarget | api/db_init.py:92-105 | a run stopped anywhere leaves the same target to be reached |
| SchemaPatch.InterruptedRunsConverge | api/db_init.py:185-320 | after any interrupted startups a completing one leaves exactly the tables of one uninterrupted run, and the next issues no statement |
| SchemaPatch.RunOnlyAdds | api/db_init.py:92-102 | no table, column, index or row is ever lost |
| SchemaPatch.IndexComesWithColumn | api/db_init.py:300-319 | an indexed column that is added is committed with its index; one that was there gets none |
| SchemaPatch.RunCompletesIff | api/db_init.py:200-211 | a run without outage completes exactly when no needed step is refused |
| SchemaPatch.CompletionIsDecidedInitially | api/db_init.py:185-320 | after any interrupted startups, a startup that has its way completes exactly when no step needed initially is refused |
| SchemaPatch.RefusalIsFinal | api/db_init.py:200-211 | a refused step stays refused at every later startup, and missing columns listed behind it are never added |
| SchemaPatch.WithoutExpensesNothingIsAdded | api/db_init.py:200-211 | without an expenses table no startup changes anything |
| SchemaPatch.CompletedTenantStartup | api/db_init.py:185-320 | table by table, the columns and indexes that a completed tenant startup leaves, and the backfilled status |
| SchemaPatch.CompletedMasterStartup | api/db_init.py:62-182 | table by table, the columns that a completed startup leaves in the master database |
| SchemaPatch.TenantAcceptedIff | api/db_init.py:200-317 | no tenant column is refused exactly if expenses, users and the dismissed flag are there where they are needed |
| SchemaPatch.MasterIsAccepted | api/db_init.py:62-182 | no master column is ever refused |
| SchemaPatch.AlteredOncePerColumn | api/db_init.py:92-105 | a completed run alters once for each missing column |
| SchemaPatch.PassedStepsAreThere | api/db_init.py:185-320 | in every interleaving, behind every step that a startup has passed the column is there |
| SchemaPatch.FinishedStartupLeavesAll | api/db_init.py:185-320 | in every interleaving a tenant startup that gets through leaves all its columns, the status column among them |
| SchemaPatch.TenantListIsSafe | api/db_init.py:243-259 | the tenant list backfills only the status column and never adds the flag the backfill reads |
| SchemaPatch.StatusAppearsBackfilledOnce | api/db_init.py:243-259 | over any interleaving of startups, crashes and updates, the status column appears at one instant, wholly backfilled; before and after, only the application's updates count |
| SchemaPatch.StatusIsNeverOverwritten | api/db_init.py:245-259 | once visible, no startup of any process writes a status |
| DataRepair.RepairedIs | api/scripts/fix_corrupted_encrypted_data.py:161-202 | a repaired cell is NULL, unchanged plain JSON, or a ciphertext tenant 1 opens to what another key gave |
| DataRepair.ClearedIff | api/scripts/fix_corrupted_encrypted_data.py:172-202 | exactly which cells are cleared |
| DataRepair.FlaggedAgainIff | api/scripts/fix_corrupted_encrypted_data.py:161-214 | for every tenant, exactly which repaired cells count as corrupted again |
| DataRepair.OtherTenantsStayCorrupted | api/scripts/fix_corrupted_encrypted_data.py:214 | a service and a cell that a run for tenant 2 repairs in vain |
| DataRepair.FlaggedIsCorrupted | api/scripts/fix_corrupted_encrypted_data.py:110-131 | only corrupted cells of the planned tables are flagged |
| DataRepair.FlaggedOnce | api/scripts/fix_corrupted_encrypted_data.py:110-131 | no cell is flagged twice in a run |
| DataRepair.FlaggedIff | api/scripts/fix_corrupted_encrypted_data.py:87-138 | a table scanned to its end has exactly its corrupted cells within the row limit flagged |
| DataRepair.TestedBothWays | api/scripts/fix_corrupted_encrypted_data.py:140-159 | a text is corrupted unless the tenant's key opens it as JSON or, after an ordinary failure, as a string; when the test itself raises |
| DataRepair.ReadableIsLeftAlone | api/scripts/fix_corrupted_encrypted_data.py:140-159 | text that the tenant can read survives every run |
| DataRepair.FlaggedUnlessReadable | api/scripts/fix_corrupted_encrypted_data.py:110-131 | the cells looked at are flagged exactly if they are longer than 20 characters and not readable |
| DataRepair.RaisedIff | api/scripts/fix_corrupted_encrypted_data.py:133-136 | a table's scan is cut short exactly when the test of one of its cells raises |
| DataRepair.FlaggedBeforeRaise | api/scripts/fix_corrupted_encrypted_data.py:110-138 | what comes before that cell is flagged all the same |
| DataRepair.LooksAtFirstHundred | api/scripts/fix_corrupted_encrypted_data.py:91-103 | a run looks at the first hundred rows with data by id |
| DataRepair.RepairedInTurn | api/scripts/fix_corrupted_encrypted_data.py:161-202 | plain JSON first, then the keys of tenants 2 and 3, each with what it leads to |
| DataRepair.PlannedColumns | api/scripts/fix_corrupted_encrypted_data.py:63-83 | which columns a run works through, table by table |
| DataRepair.FixedCellByCell | api/scripts/fix_corrupted_encrypted_data.py:297-298 | a flagged cell whose update succeeded holds its repair, all others are unchanged |
| DataRepair.RepairOutcome | api/scripts/fix_corrupted_encrypted_data.py:268-298 | what an executing run for any tenant does to each cell |
| DataRepair.RunOnSchema | api/scripts/fix_corrupted_encrypted_data.py:277-298 | told from the schema, which cells a run repairs and that it leaves all others alone |
| DataRepair.PlanIsExactly | api/scripts/fix_corrupted_encrypted_data.py:68-83 | every known table with an existing known column is worked through, once, and nothing else |
| DataRepair.SecondRunFlags | api/scripts/fix_corrupted_encrypted_data.py:87-138 | a second run for tenant 1 flags only plain JSON and rows beyond the first run's limit |
| DataRepair.SecondRunIff | api/scripts/fix_corrupted_encrypted_data.py:87-138 | for every tenant, exactly which of the cells looked at by the first run are flagged by the second |
| DataRepair.CorruptedDataFixer.FindEncryptedTables | api/scripts/fix_corrupted_encrypted_data.py:56-85 | all known tables and columns that exist, and only those, none twice |
| DataRepair.CorruptedDataFixer.CheckRow | api/scripts/fix_corrupted_encrypted_data.py:114-130 | flags the corrupted cells of a row up to the first exception |
| DataRepair.CorruptedDataFixer.CheckTable | api/scripts/fix_corrupted_encrypted_data.py:87-138 | flags as specified, counts what it flags, and records one error when it ends early |
| DataRepair.CorruptedDataFixer.FixCorruptedRecord | api/scripts/fix_corrupted_encrypted_data.py:204-266 | fixed, cleared, failed, or nothing in a dry run |
| DataRepair.CorruptedDataFixer.RunComprehensiveFix | api/scripts/fix_corrupted_encrypted_data.py:268-301 | over the plan that the schema determines: found = fixed + cleared + failed updates; the number of errors; a dry run changes no cell and neither counter |
| JsonExposure.SoundAndComplete | api/scripts/check_encrypted_data_exposure.py:33-65 | a string is reported with a path exactly when the path leads to it and it looks encrypted |
| JsonExposure.ReportedInOrder | api/scripts/check_encrypted_data_exposure.py:46-60 | the findings stand in reading order |
| JsonExposure.ReportedOnce | api/scripts/check_encrypted_data_exposure.py:46-60 | no string is reported twice |
| JsonExposure.CheckJsonField | api/scripts/check_encrypted_data_exposure.py:33-65 | the recursive method returns the specified findings |
| JsonExposure.CheckDict | api/scripts/check_encrypted_data_exposure.py:46-52 | the loop over a dict |
| JsonExposure.CheckList | api/scripts/check_encrypted_data_exposure.py:54-60 | the loop over a list |
| JsonExposure.OnlyListsStayExposed | api/scripts/cleanup_encrypted_history_data.py:46-60 | the checker on a sanitised dict reports exactly the former findings inside lists, in the same order |
| JsonExposure.SanitizeIdempotent | api/scripts/cleanup_encrypted_history_data.py:46-60 | sanitising twice is sanitising once |
| JsonExposure.SanitizeKeepsTheRest | api/scripts/cleanup_encrypted_history_data.py:51-60 | every key and every other value is kept, at every depth |
| JsonExposure.SanitizedString | api/scripts/cleanup_encrypted_history_data.py:51-60 | a string that keys lead to becomes [ENCRYPTED] exactly if it looks encrypted |
| JsonExposure.SanitizeJsonField | api/scripts/cleanup_encrypted_history_data.py:46-60 | the recursive method returns the specified tree |
| JsonExposure.IsEncryptedJsonField | api/scripts/cleanup_encrypted_history_data.py:33-43 | true exactly for dicts with an encrypted-looking string directly among the values |
| JsonExposure.SecondPassIsIdle | api/scripts/cleanup_encrypted_history_data.py:140-147 | details change exactly when a field needs cleaning; a second pass changes nothing |
| JsonExposure.FieldAfterPass | api/scripts/cleanup_encrypted_history_data.py:140-157 | what one pass makes of a field, by what it holds |
| JsonExposure.PassMissesDeepStrings | api/scripts/cleanup_encrypted_history_data.py:145-147 | told from the checker's findings, exactly when the pass does as much as the sanitiser |
| JsonExposure.DeepStringExample | api/scripts/cleanup_encrypted_history_data.py:145-147 | a string three keys deep that the pass leaves exposed |
| JsonExposure.SecondPassCountsZero | api/scripts/cleanup_encrypted_history_data.py:131-161 | a second pass over the result counts zero |
| JsonExposure.CleanRecord | api/scripts/cleanup_encrypted_history_data.py:137-147 | the in-place loop, and that "updated" means really changed |
| JsonExposure.CleanupAuditLogs | api/scripts/cleanup_encrypted_history_data.py:127-161 | exactly the records of the four audited types are cleaned; the returned count is the number of records that really changed |
| TokenCache.PairsStayTogether | api/MCP/auth_client.py:29-91 | over all runs every remembered or stored token has the expiry of its own login |
| TokenCache.HandedTokensAreAlive | api/MCP/auth_client.py:93-104 | a token handed out is good for more than five minutes minus the login latency |
| TokenCache.HandedTokensInSeconds | api/MCP/auth_client.py:72-104 | the same in seconds: more than 300 less the latency of the 1800 are left |
| TokenCache.HandedOutFromMemory | api/MCP/auth_client.py:99-101 | a remembered token is handed out without a login exactly before its expiry |
| TokenCache.HandedOutAfterLogin | api/MCP/auth_client.py:72-91 | a login hands out its token and is remembered for 1500 seconds, by its own client only |
| TokenCache.TakenFromFile | api/MCP/auth_client.py:33-41 | the token of the file is always taken over, its expiry if it can be read |
| TokenCache.SlowLoginHandsOutDeadToken | api/MCP/auth_client.py:80-81 | beyond five minutes of latency a dead token can be handed out |
| TokenCache.RestartReusesLogin | api/MCP/auth_client.py:95-101 | after a restart the saved login is used until its recorded expiry, and not after |
| TokenCache.ReusedForSeconds | api/MCP/auth_client.py:95-101 | after a restart a saved login is used until 1500 seconds after its receipt |
| TokenCache.AuthClient.LoadTokenFromFile | api/MCP/auth_client.py:29-47 | what is taken over from the file in each case, and when the reading raises |
| TokenCache.SaveThenLoad | api/MCP/auth_client.py:49-60 | what a restarted client reads back after a successful, failed or torn write |
| TokenCache.AuthClient.Authenticate | api/MCP/auth_client.py:62-91 | token and expiry are set together or not at all |
| TokenCache.AuthClient.GetValidToken | api/MCP/auth_client.py:93-104 | cached, loaded or new token, or an error that leaves the file alone; a file that is no JSON object keeps the client from logging in |
| PagedSearch.Search | api/MCP/api_client.py:85-128 | returns the requested window of what it gathered, having stopped because it has enough or the server has no more |
| PagedSearch.SearchFixed | api/MCP/api_client.py:169-217 | on a fixed collection, the window of all matches, within pages + 1 fetches |
| PagedSearch.GatherMatches | api/MCP/api_client.py:180-215 | stops when it has enough or the server has no more, and not earlier |
| PagedSearch.FilterBatch | api/MCP/api_client.py:101-120 | appends the matching records of a batch in order |
| PagedSearch.EarlyExitIsExact | api/MCP/api_client.py:95-128 | the early exit returns exactly the slice of the filtered whole |
| PagedSearch.FetchesAreBounded | api/MCP/api_client.py:96-126 | at most one fetch more than the collection has pages |
| PagedSearch.ReturnedWindow | api/MCP/api_client.py:89-128 | match after match from the skipped ones on, up to the limit; a missing or zero limit means the default size |
| PagedSearch.MatchesInOrder | api/MCP/api_client.py:101-120 | the matches are the matching records, each at the place that the matches before it say |
| PagedSearch.PagesRoundedUp | api/MCP/api_client.py:96-126 | the number of pages is size over batch, rounded up |
| PagedSearch.PagesTile | api/MCP/api_client.py:68-79 | the pages of the listing put together are the collection |
| PagedSearch.ListedRecords | api/MCP/api_client.py:68-79 | a page holds record after record from the offset on, up to its size or the end |
| PagedSearch.WindowsTile | api/MCP/api_client.py:95-128 | the results of searches for consecutive windows put together are all matches |
| PagedSearch.GrowingStaysInOrder | api/MCP/api_client.py:180-215 | on a growing collection the results are matching records in collection order, none twice |
| PagedSearch.NothingHiddenIff | api/MCP/api_client.py:180-215 | on a growing collection all matches as far as the fetches reached are gathered exactly when none was appended behind a short page |
| PagedSearch.GatheredIff | api/MCP/api_client.py:180-215 | a record is gathered exactly when it matches and a fetch has shown it |
| PagedSearch.GrowingWindowIff | api/MCP/api_client.py:169-217 | exactly when the returned window is the requested one of all matches in the final collection |
| PagedSearch.ResultAtPositions | api/MCP/api_client.py:217 | the result holds the records at the window's positions |
| PagedSearch.GrowthCanHideRecords | api/MCP/api_client.py:122 | a growing collection for which a matching record is never looked at |
| LicenseKeys.FindLatestKeyVersion | api/scripts/generate_license_keys.py:48-57 | the maximum over all names that carry a version, zero if none does |
| LicenseKeys.VersionOfPrivateName | api/scripts/generate_license_keys.py:53-55 | the name written for a version is read back as that version |
| LicenseKeys.VersionedNames | api/scripts/generate_license_keys.py:53-55 | exactly which file names carry a version, and which one |
| LicenseKeys.NextNamesAreNew | api/scripts/generate_license_keys.py:96-103 | the next version's private key has no file yet |
| LicenseKeys.PrivateKeysAreKept | api/scripts/generate_license_keys.py:92-131 | over any sequence of runs, interrupted or not, no private key file is overwritten or lost |
| LicenseKeys.VersionsIncrease | api/scripts/generate_license_keys.py:92-97 | a version once written is never chosen again |
| LicenseKeys.CompletedRunIsCurrent | api/scripts/generate_license_keys.py:129-131 | a completed run leaves the unversioned names on its own, highest version |
| LicenseKeys.CompletedRunByName | api/scripts/generate_license_keys.py:99-131 | the directory after a completed run, name by name: links where they work, copies otherwise |
| LicenseKeys.WrittenSoFar | api/scripts/generate_license_keys.py:119-131 | what a run that is cut short has written |
| LicenseKeys.DeclinedRunChangesNothing | api/scripts/generate_license_keys.py:105-113 | existing keys are kept unless overwriting is forced or confirmed |
| LicenseKeys.KeyDirectory.CreateSymlink | api/scripts/generate_license_keys.py:60-72 | whatever has the name is replaced by a link or a copy |
| LicenseKeys.KeyDirectory.WriteUnlessDeclined | api/scripts/generate_license_keys.py:105-131 | existing files are overwritten only if forced or confirmed |
| LicenseKeys.KeyDirectory.GenerateKeys | api/scripts/generate_license_keys.py:75-131 | chooses a version above every present one and writes up to four names |

## Left out

- The loops over tenants: each tenant has its own database and its own error handling.
- Client columns the merge does not touch, and tables that refer to clients other than invoices and notes.
- Case folding and substring matching in the searches: any match predicate; a negative `skip`, whose Python slice counts from the end of what happened to be gathered.
- The order in which sidecar names are sorted, directory globbing, HTTP, and the import and registration of plugin code.
- A `permitted_core_tables` that cannot be made a set: in the retry thread this raises after the first two writes and ends the thread; the model reads it as the empty set. A sidecar manifest that is no JSON object, which raises in the validation.
- Token files written by something else whose expiry is no string or has no time zone; both raise.
- `discover` racing with the retry thread: its own writes take no lock, and the thread sleeps before its first round.
- The formatted paths and truncated values in the checker's report: paths are sequences of steps.
- `cleanup_invoice_history`, which replaces fields by name; and whether in-place edits of JSON details reach the database.
- `total_records_checked` and the texts of the recorded errors in the repair tool.
- Explicit `--version` arguments of the key generator, file permissions, and non-ASCII digits in file names.
- LicenseKeys.KeyDirectory.CreateSymlink: a failing unlink of the old link, after which the fallback copy would write through it; see the assumption on the key directory.
- Concurrent generation of keys, and two coroutines writing the token file at the same instant.
- SQLite, where schema changes are not part of a transaction.
