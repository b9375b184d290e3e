# Verified models of a translated-novel platform

The repository runs a platform that collects, translates and publishes web novels: a FastAPI backend on
PostgreSQL, a Next.js frontend, and tools for deployment, capacity runs and documentation. This project models
the parts of it that decide something on their own, in Dafny, and proves what they are meant to guarantee.

| file | models |
|---|---|
| `CredentialRegistry.dfy` | the migration that moves contributor credentials into the provider registry and rewrites the usage ledger, and its downgrade |
| `CsrfToken.dfy` | the shared CSRF token promise of the admin client as a machine of interleaved steps |
| `RoleSafety.dfy`, `RuntimeProbe.dfy` | the recursive SET ROLE query and the transactional probe of the runtime database role |
| `RowPolicies.dfy` | the row-policy inventory, its installer, and statements run under permissive policies |
| `CsvSets.dfy`, `CatalogFilters.dfy` | the catalog filters kept in the URL, with presets, and the handlers that change them |
| `RecentSearches.dfy` | the list of recent searches against the whole history |
| `PyLines.dfy`, `FrontMatter.dfy`, `HeadingAudit.dfy` | the front-matter parser and the heading checks of the documentation audit |
| `TableSort.dfy` | the table sort, its comparator and the column-click reducer |
| `Escaping.dfy`, `HtmlText.dfy` | escaping and tag stripping for page metadata |
| `ChapterIdentity.dfy` | the backfill of stable chapter ids |
| `SeedExport.dfy` | the SQL seed script and a reader of it |
| `Percentile.dfy` | nearest-rank percentiles and the latency summary |
| `Decimal.dfy`, `Text.dfy`, `Options.dfy` | decimal texts, strings and optional values shared by the above |

Code that changes state in place is modelled by classes and loops, each proved against a specification
function; the lemmas then prove what those functions guarantee over all inputs and all runs. `dafny verify
dfyconfig.toml` checks the whole project.

What the outside world decides is a parameter of the statements: the order of rows of a SELECT without ORDER BY,
serial keys, UUIDs, the owner's id, database rights and replies, network answers, `localeCompare` (any total
preorder), lower-casing of searches (any function), rounding (any monotone function).

## What the proofs found

The code is modelled as it is. Where a property does not hold for all inputs, the exact condition under which it
holds is proved.

- The credential copy loop rewrites the ledger one key at a time. A reference keeps its meaning if and only if no
  contributor id read later is the decimal text of the key just allotted (`CopyKeepsReferences`,
  `ShortIdIsRewrittenTwice`); a foreign reference that already equals the text of a new key comes back changed from
  the downgrade (`LedgerRoundTrip`, `ForeignReferenceIsCaptured`). Neither can happen while ids and references are
  longer than eleven characters, as UUIDs are (`LongIdsAreRewrittenOnce`, `LongReferencesAreSafe`).
- The downgrade turns an unknown status into `invalid`, an empty model and an empty consent version into defaults
  (`RowRoundTrip`, `UnknownColumnsAreReplaced`).
- The self-update policy of users covers every column, the role included. A subject that is not the owner becomes
  the owner exactly by an accepted update of its own row that writes that role (`OwnerAfterIff`,
  `SelfUpdateCanPromote`); a run without such an update leaves the rows of other users alone
  (`RunChangesOnlyMine`). The unique index on the owner role that a later revision adds
  (backend/alembic/versions/2026-08-16_4f7c2a9d1e6b_enforce_auth_and_request_invariants.py:32-38) refuses the update
  while somebody else is the owner, and then no condition is needed (`IndexedRunChangesOnlyMine`).
- The catch handler of a token fetch clears the shared variable even when it holds a newer promise, so a late
  rejection lets two fetches run at once (`SingleFlightStep`, `LateRejectionStartsAnotherFetch`).
- The docstring of the runtime-role probe says that its transaction is always rolled back; leaving the block
  normally commits. The data is still unchanged unless a row policy makes the DELETE touch no row, and then the
  probe does not report success (`RuntimeProbe.Connection.Verify`, `SkippedDeleteLeavesARow`).
- A tag whose name holds a comma falls apart when it is read from the URL and can stand on both sides
  (`StepKeepsDisjoint`, `CommaNameBreaksDisjoint`).
- The clear button of a tag box removes only the tag it visits last (`ClearIncludedTags`, `ClearOfTwoTags`).
- A column that mixes numbers and texts can have no sorted arrangement (`SortedIff`, `MixedColumnHasNoOrder`).
- The tag-stripping loop guards against tags that form anew; none ever does, so the second pass never changes
  anything (`StripOnceSettles`).
- A description whose text consists of tags only is empty and does not fall back (`EmptyDescriptionIff`, `TagAloneShowsNothing`).
- The seed script changes strings with trailing white space, other line ends or a final newline
  (`StringSurvivesIff`, `FinalNewlineIsLost`), and prints floats that are not finite as bare words that are no SQL
  values (`FloatReadIff`, `NanIsUnreadable`).

## Model

| member | source | states |
|---|---|---|
| CredentialRegistry.RoundTrip | backend/alembic/versions/2026-08-22_d4e6f8a2b1c3_unify_provider_credential_registry.py:169-275 | Upgrade then downgrade, for any row order, new keys and UUIDs: the downgrade succeeds, every provider row is back as it was, and under one one-to-one renaming of contributor ids the contributor table is back if and only if every row had a known status and a non-empty model and consent version, and the ledger is back if and only if no reference was rewritten twice or captured |
| CredentialRegistry.CopyKeepsReferences | backend/alembic/versions/2026-08-22_d4e6f8a2b1c3_unify_provider_credential_registry.py:89-124 | After the copy loop a ledger row follows its credential (to the registry copy of the same contributor row, or unchanged if it named none) if and only if no later iteration rewrites it a second time |
| CredentialRegistry.RowRoundTrip | backend/alembic/versions/2026-08-22_d4e6f8a2b1c3_unify_provider_credential_registry.py:92-120 | Copying a contributor row and restoring the copy gives the same row if and only if the status is one of the four known ones and model and consent version are not empty |
| CredentialRegistry.UnknownColumnsAreReplaced | backend/alembic/versions/2026-08-22_d4e6f8a2b1c3_unify_provider_credential_registry.py:101-113 | A row that fails: an unknown status comes back as `invalid`, an empty model and an empty consent version as the defaults |
| CredentialRegistry.ShortIdIsRewrittenTwice | backend/alembic/versions/2026-08-22_d4e6f8a2b1c3_unify_provider_credential_registry.py:89-124 | A ledger that fails: with contributors `a` and `1` read in this order and the new keys 1 and 2, the reference to `a` ends at the copy of `1` |
| CredentialRegistry.ForeignReferenceIsCaptured | backend/alembic/versions/2026-08-22_d4e6f8a2b1c3_unify_provider_credential_registry.py:269-274 | A ledger that fails: a reference `1` to no contributor is taken for the new key 1 by the downgrade |
| CredentialRegistry.LongIdsAreRewrittenOnce | backend/alembic/versions/2026-08-22_d4e6f8a2b1c3_unify_provider_credential_registry.py:89-124 | If every contributor id is longer than eleven characters, as a UUID is, no reference is rewritten twice, whatever the keys |
| CredentialRegistry.LongReferencesAreSafe | backend/alembic/versions/2026-08-22_d4e6f8a2b1c3_unify_provider_credential_registry.py:89-124 | If the references are that long as well, the ledger comes back whole from the downgrade |
| CredentialRegistry.ChainTarget | backend/alembic/versions/2026-08-22_d4e6f8a2b1c3_unify_provider_credential_registry.py:124-124 | Where a sequence of one-pair updates takes a reference: nowhere if no pair starts at it, else to its own target or to a strictly later one, and to its own exactly if it is not rewritten twice |
| CredentialRegistry.ChainIsRename | backend/alembic/versions/2026-08-22_d4e6f8a2b1c3_unify_provider_credential_registry.py:89-124 | The sequence of updates equals renaming all ids at once if and only if the id is not rewritten twice |
| CredentialRegistry.ReferenceRoundTrip | backend/alembic/versions/2026-08-22_d4e6f8a2b1c3_unify_provider_credential_registry.py:124-274 | Both passes over one ledger reference amount to the renaming exactly when the upgrade does not rewrite it twice; a foreign reference equal to the text of a new id is captured by the downgrade |
| CredentialRegistry.UuidsAreNoIds | backend/alembic/versions/2026-08-22_d4e6f8a2b1c3_unify_provider_credential_registry.py:244-274 | In the downgrade no reference is rewritten twice: a 32-character UUID is never the decimal text of a 32-bit key |
| CredentialRegistry.RowsRoundTrip | backend/alembic/versions/2026-08-22_d4e6f8a2b1c3_unify_provider_credential_registry.py:244-268 | The restored contributor table is the old one under the renaming if and only if every row keeps its columns |
| CredentialRegistry.LedgerRoundTrip | backend/alembic/versions/2026-08-22_d4e6f8a2b1c3_unify_provider_credential_registry.py:269-274 | The ledger after both passes is the old one under the renaming if and only if no reference is rewritten twice or captured |
| CredentialRegistry.RestoredAt | backend/alembic/versions/2026-08-22_d4e6f8a2b1c3_unify_provider_credential_registry.py:246-268 | The row restored under the new name of a contributor is the restored copy of that contributor's row |
| CredentialRegistry.UpgradedSchema | backend/alembic/versions/2026-08-22_d4e6f8a2b1c3_unify_provider_credential_registry.py:169-187 | After the upgrade every row has registry columns, the contributor table is gone and the contributed rows are exactly the new ids |
| CredentialRegistry.UpgradedColumns | backend/alembic/versions/2026-08-22_d4e6f8a2b1c3_unify_provider_credential_registry.py:89-187 | Every column of every upgraded row: a contributed one is open to the pool if and only if it is active and valid, never to jobs of the owner, keeps a known status and is invalid otherwise, with consent from its creation; an older one is the owner's, active or paused, open to the owner's jobs and never to the pool, without failures |
| CredentialRegistry.RestoredColumns | backend/alembic/versions/2026-08-22_d4e6f8a2b1c3_unify_provider_credential_registry.py:244-268 | Every column of every restored row, whatever happened to the registry row since the upgrade; a missing or empty model or consent version gets its default |
| CredentialRegistry.KeptIsLegacy | backend/alembic/versions/2026-08-22_d4e6f8a2b1c3_unify_provider_credential_registry.py:275-275 | Deleting the contributed rows leaves exactly the provider rows from before the upgrade |
| CredentialRegistry.UpgradedCanRestore | backend/alembic/versions/2026-08-22_d4e6f8a2b1c3_unify_provider_credential_registry.py:233-268 | After an upgrade no constraint can make the downgrade fail: owners are set and (owner, provider) pairs are unique |
| CredentialRegistry.AcceptedIsRestorable | backend/alembic/versions/2026-08-22_d4e6f8a2b1c3_unify_provider_credential_registry.py:231-268 | Inserting the contributed rows in whatever order succeeds if and only if all have an owner and no two share owner and provider |
| CredentialRegistry.AcceptedStep | backend/alembic/versions/2026-08-22_d4e6f8a2b1c3_unify_provider_credential_registry.py:247-268 | The next insert is accepted if and only if its owner is not NULL and no row inserted so far has its (owner, provider) pair |
| CredentialRegistry.IdTextsDistinct | backend/alembic/versions/2026-08-22_d4e6f8a2b1c3_unify_provider_credential_registry.py:123-124 | Different new keys have different decimal texts, so no two ledger updates share a target |
| CredentialRegistry.Database.CopyContributorRows | backend/alembic/versions/2026-08-22_d4e6f8a2b1c3_unify_provider_credential_registry.py:85-124 | Under each new key the registry says of the contributor, column by column, what the contributor row said; other registry rows are as they were; the ledger is as the chain of updates says |
| CredentialRegistry.Database.MarkRows | backend/alembic/versions/2026-08-22_d4e6f8a2b1c3_unify_provider_credential_registry.py:173-186 | Every existing provider row becomes the owner's legacy row, others untouched |
| CredentialRegistry.Database.Upgrade | backend/alembic/versions/2026-08-22_d4e6f8a2b1c3_unify_provider_credential_registry.py:169-187 | The whole new state: one row per contributor and one per old row and no other, each with every column pinned, who may use it included |
| CredentialRegistry.Database.InsertContributor | backend/alembic/versions/2026-08-22_d4e6f8a2b1c3_unify_provider_credential_registry.py:231-268 | One insert under a new id succeeds if and only if the owner is set and the table with the row added satisfies the unique constraint; the constraint holds afterwards in either case |
| CredentialRegistry.Database.RestoreContributions | backend/alembic/versions/2026-08-22_d4e6f8a2b1c3_unify_provider_credential_registry.py:244-274 | The loop succeeds if and only if the contributor table accepts all contributed rows; then table and ledger are restored |
| CredentialRegistry.Database.Downgrade | backend/alembic/versions/2026-08-22_d4e6f8a2b1c3_unify_provider_credential_registry.py:244-275 | The downgrade succeeds if and only if no constraint of the older schema is violated; a failure rolls everything back; otherwise the contributor table holds under every UUID what the registry said of that contribution, and no other row |
| Decimal.ToNatOfNat | backend/alembic/versions/2026-08-22_d4e6f8a2b1c3_unify_provider_credential_registry.py:124-124 | Reading the decimal text of a natural number gives the number |
| Decimal.ToIntOfInt | backend/alembic/versions/2026-08-22_d4e6f8a2b1c3_unify_provider_credential_registry.py:124-124 | Reading the decimal text of an integer gives the integer (`str(new_id)`, `str(row["id"])`) |
| Decimal.OfIntInjective | backend/alembic/versions/2026-08-22_d4e6f8a2b1c3_unify_provider_credential_registry.py:124-124 | Different integers have different decimal texts |
| Decimal.Int32Length | backend/alembic/versions/2026-08-06_c7a8b9d0e1f2_add_stable_chapter_identity.py:68-75 | A 32-bit integer prints to at most eleven characters, so a cast to VARCHAR(32) never cuts it |
| CsrfToken.EveryRunKeepsInv | frontend/lib/api.ts:67-114 | Every interleaving of requests, fetch completions, rejections, answers and resets keeps the invariant of cache, counters and calls |
| CsrfToken.StepKeepsInv | frontend/lib/api.ts:74-114 | One step of any kind keeps that invariant |
| CsrfToken.CacheIsNeverRejected | frontend/lib/api.ts:102-114 | In every run the cached promise is not a rejected one, and token fetches are at most one more than resets and rejections together |
| CsrfToken.SentTokensAreFetched | frontend/lib/api.ts:74-91 | In every run: a login, a logout, and a request other than GET, HEAD and OPTIONS, not to /auth/csrf and without a header of its own, went out with the token of a fetch that succeeded and started after the last reset before the attempt; every other request went out with exactly its caller's header and waited for no fetch |
| CsrfToken.StartSendsOrAwaits | frontend/lib/api.ts:78-91 | Which calls await a token before anything is sent, and which go out at once and start no fetch |
| CsrfToken.OutcomesAreAnswers | frontend/lib/api.ts:86-114 | In every run a call ends as its last request was answered, or with the error of a fetch that was rejected |
| CsrfToken.LogoutRetriesOnce | frontend/lib/api.ts:686-707 | A logout sends at most two requests, the second only after the first was answered with 403; every other call sends at most one |
| CsrfToken.SessionCallsFetchAnew | frontend/lib/api.ts:672-707 | Login, logout and the second attempt of logout await a token fetch that they started themselves |
| CsrfToken.SingleFlightStep | frontend/lib/api.ts:102-110 | A step keeps at most one live fetch since the last reset if and only if it is not the rejection of one fetch while another is cached (the catch handler clears the variable without looking) |
| CsrfToken.SingleFlightRun | frontend/lib/api.ts:102-114 | A run is single-flight at every point if and only if none of its rejections hits while another fetch is cached |
| CsrfToken.LateRejectionStartsAnotherFetch | frontend/lib/api.ts:102-114 | A run in which such a rejection happens: two live fetches at once |
| CsrfToken.Client.GetCsrfToken | frontend/lib/api.ts:102-110 | The promise returned is the cached one and not a rejected one, no older than the last reset; a fetch is started only if none was cached |
| CsrfToken.Client.Call | frontend/lib/api.ts:672-691 | A call starts at most one fetch and keeps the invariant; a safe request, one to /auth/csrf and one with a header of its own is sent at once and starts none; login and logout await a fetch of their own, any other request one that has not been rejected |
| CsrfToken.Client.FetchFails | frontend/lib/api.ts:105-108 | The catch handler keeps the invariant, and keeps fetches single-flight if and only if the variable held this fetch or none |
| CsrfToken.Client.CallSettled | frontend/lib/api.ts:681-706 | A logout whose first request was answered with 403 awaits a fetch of its own; every other call is done with its outcome, and after a login or a logout nothing is cached |
| RoleSafety.SettableRoles | deploy/scripts/verify-runtime-role.py:44-50 | The working-table loop terminates on every membership graph, cycles included, and returns exactly the roles reachable by one or more memberships with the SET option |
| RoleSafety.SetRoleAttributesSafe | deploy/scripts/verify-runtime-role.py:43-55 | True if and only if no reachable existing role holds a forbidden attribute |
| RoleSafety.StepExtendsPath | deploy/scripts/verify-runtime-role.py:48-49 | One evaluation of the recursive term adds only reachable roles |
| RoleSafety.PathStaysInside | deploy/scripts/verify-runtime-role.py:44-50 | A set closed under SET memberships that holds the first step of a path holds its end |
| RuntimeProbe.Connection.Denied | deploy/scripts/verify-runtime-role.py:86-99 | True only for SQLSTATE 42501; the savepoint is rolled back on every path, so the data is unchanged |
| RuntimeProbe.Connection.AllDenied | deploy/scripts/verify-runtime-role.py:171-183 | All probes count as denied if and only if each failed with 42501; another exception stops the run; nothing is changed |
| RuntimeProbe.Connection.Crud | deploy/scripts/verify-runtime-role.py:137-169 | Which rights let the insert, update and delete go through, what passes, and the exact row left behind when the delete touched nothing |
| RuntimeProbe.Connection.Verify | deploy/scripts/verify-runtime-role.py:111-224 | The data is unchanged if and only if it is not the case that everything went through and the delete silently touched no row; a run that reports success always leaves the data unchanged; success if and only if every right works and every denial is a 42501 |
| RuntimeProbe.SkippedDeleteLeavesARow | deploy/scripts/verify-runtime-role.py:161-169 | A run that fails: with a delete that touches no row the acceptance row is left behind and the run reports failure |
| RowPolicies.RunChangesOnlyMine | backend/alembic/versions/2026-07-16_3da9f497264c_remove_pg_net_and_reconcile_rls_policies.py:175-382 | Any run of inserts, updates and deletes of a subject that is not the owner, with `is_owner()` and `current_user_id()` evaluated anew before every statement and no statement promoting the subject, leaves on every table every row that does not belong to one of the subject's accounts exactly as it was |
| RowPolicies.OwnerAfterIff | backend/alembic/versions/2026-07-16_3da9f497264c_remove_pg_net_and_reconcile_rls_policies.py:197-203 | After one statement of a session that is not the owner, its subject is the owner if and only if the statement is an accepted update of users that writes the role of owner into an own row of the subject |
| RowPolicies.NeverOwnerIff | backend/alembic/versions/2026-07-16_3da9f497264c_remove_pg_net_and_reconcile_rls_policies.py:197-382 | A subject that is not the owner stays so through a whole run if and only if no statement of the run promotes it |
| RowPolicies.SelfUpdateCanPromote | backend/alembic/versions/2026-07-16_3da9f497264c_remove_pg_net_and_reconcile_rls_policies.py:197-203 | A run that fails: the policy lets a user update the role of the own row, and afterwards a row of another user can go |
| RowPolicies.IndexedRunChangesOnlyMine | backend/alembic/versions/2026-08-16_4f7c2a9d1e6b_enforce_auth_and_request_invariants.py:32-38 | With at most one owner row, as a later revision enforces, and an owner other than the subject, every run whatever leaves what is not the subject's as it was |
| RowPolicies.PlainRunChangesOnlyOurs | backend/alembic/versions/2026-07-16_3da9f497264c_remove_pg_net_and_reconcile_rls_policies.py:175-382 | The same for any run, with or without that index, at no statement of which the subject is the owner |
| RowPolicies.TurnChangesOnlyOurs | backend/alembic/versions/2026-07-16_3da9f497264c_remove_pg_net_and_reconcile_rls_policies.py:175-382 | One statement changes only what belongs to the subject's accounts and gives the subject no further account id |
| RowPolicies.UsersAfter | backend/alembic/versions/2026-07-16_3da9f497264c_remove_pg_net_and_reconcile_rls_policies.py:191-206 | What a session that is not the owner can do to users: update own rows, which keep their id |
| RowPolicies.StatementChangesOnlyMine | backend/alembic/versions/2026-07-16_3da9f497264c_remove_pg_net_and_reconcile_rls_policies.py:175-345 | One statement of such a session changes, adds and removes only the user's own rows; outside the per-user tables, or for `anon`, it changes nothing |
| RowPolicies.InsertChangesOnlyMine | backend/alembic/versions/2026-07-16_3da9f497264c_remove_pg_net_and_reconcile_rls_policies.py:206-343 | An insert adds only own rows or fails |
| RowPolicies.UpdateChangesOnlyMine | backend/alembic/versions/2026-07-16_3da9f497264c_remove_pg_net_and_reconcile_rls_policies.py:206-343 | An update touches only own rows and leaves them own rows, or fails |
| RowPolicies.DeleteChangesOnlyMine | backend/alembic/versions/2026-07-16_3da9f497264c_remove_pg_net_and_reconcile_rls_policies.py:206-343 | A delete removes only own rows |
| RowPolicies.UserAccountsNotAdded | backend/alembic/versions/2026-07-16_3da9f497264c_remove_pg_net_and_reconcile_rls_policies.py:206-230 | Only the owner can add or delete user accounts |
| RowPolicies.WritesNeedOwnership | backend/alembic/versions/2026-07-16_3da9f497264c_remove_pg_net_and_reconcile_rls_policies.py:167-345 | A policy lets a session that is not the owner write a row only in a per-user table, only if the row is the user's, and never as `anon` |
| RowPolicies.InventoryGuardsWrites | backend/alembic/versions/2026-07-16_3da9f497264c_remove_pg_net_and_reconcile_rls_policies.py:167-345 | Every declared write policy asks for the owner or the row's user and excludes `anon`; outside the per-user tables only for the owner |
| RowPolicies.PermittedIff | backend/alembic/versions/2026-07-16_3da9f497264c_remove_pg_net_and_reconcile_rls_policies.py:167-345 | Under the installed policies a session may read, change, remove or write a row if and only if it is permitted: own rows by table and command, public rows of the public tables and reviews for everybody, nothing on owner-only tables, and for the owner every declared command |
| RowPolicies.InstalledEnforces | backend/alembic/versions/2026-07-16_3da9f497264c_remove_pg_net_and_reconcile_rls_policies.py:150-345 | The same for every session, table, command and row at once |
| RowPolicies.InsertEffect | backend/alembic/versions/2026-07-16_3da9f497264c_remove_pg_net_and_reconcile_rls_policies.py:206-343 | An insert adds all its rows if each is permitted and new, and none otherwise |
| RowPolicies.UpdateEffect | backend/alembic/versions/2026-07-16_3da9f497264c_remove_pg_net_and_reconcile_rls_policies.py:191-343 | An update changes exactly the target rows it may touch; it fails as a whole if it may not touch one of them as changed |
| RowPolicies.DeleteEffect | backend/alembic/versions/2026-07-16_3da9f497264c_remove_pg_net_and_reconcile_rls_policies.py:167-343 | A delete removes exactly the target rows it may touch |
| RowPolicies.InventoryCoversTables | backend/alembic/versions/2026-07-16_3da9f497264c_remove_pg_net_and_reconcile_rls_policies.py:419-421 | The inventory names exactly the application tables, so the installer's guard never fires |
| RowPolicies.InventoryNamesDistinct | backend/alembic/versions/2026-07-16_3da9f497264c_remove_pg_net_and_reconcile_rls_policies.py:167-345 | No two policies of one table share a name, so no CREATE POLICY fails for it |
| RowPolicies.AvailableRoles | backend/alembic/versions/2026-07-16_3da9f497264c_remove_pg_net_and_reconcile_rls_policies.py:136-164 | The roles a policy is created for are the requested ones that exist |
| RowPolicies.TargetContents | backend/alembic/versions/2026-07-16_3da9f497264c_remove_pg_net_and_reconcile_rls_policies.py:150-164 | What creating the policies one by one leaves: exactly the declared policies that have an existing role, narrowed to those roles |
| RowPolicies.InstalledEverywhere | backend/alembic/versions/2026-07-16_3da9f497264c_remove_pg_net_and_reconcile_rls_policies.py:419-426 | If every application table has its target policies then the catalog is installed |
| RowPolicies.Installer.DropAllPolicies | backend/alembic/versions/2026-07-16_3da9f497264c_remove_pg_net_and_reconcile_rls_policies.py:120-133 | Drops every policy of the table whatever it is called, and touches no other table |
| RowPolicies.Installer.CreatePolicy | backend/alembic/versions/2026-07-16_3da9f497264c_remove_pg_net_and_reconcile_rls_policies.py:150-164 | Creates the policy for existing roles only, nothing if there are none, and fails if and only if the name is taken |
| RowPolicies.Installer.CreatePolicies | backend/alembic/versions/2026-07-16_3da9f497264c_remove_pg_net_and_reconcile_rls_policies.py:425-426 | On a table without policies all declared ones are created without failure |
| RowPolicies.Installer.InstallTable | backend/alembic/versions/2026-07-16_3da9f497264c_remove_pg_net_and_reconcile_rls_policies.py:422-426 | One turn of the loop: row security on, old policies gone, declared ones there |
| RowPolicies.Installer.Install | backend/alembic/versions/2026-07-16_3da9f497264c_remove_pg_net_and_reconcile_rls_policies.py:419-426 | Never fails, and leaves exactly the declared policies on every application table whatever was there, so that every session may read and write exactly what is permitted; other tables keep theirs |
| CsvSets.SetRoundTrip | frontend/components/public/browse-page.tsx:70-84 | A set survives writing and reading if and only if its names are non-empty, trimmed and free of commas |
| CsvSets.TextRoundTrip | frontend/components/public/browse-page.tsx:70-84 | A text survives reading and writing if and only if it is absent or a strictly sorted list of such names |
| CsvSets.ParsedAreClean | frontend/components/public/browse-page.tsx:70-78 | Whatever the text, the names read from it are non-empty, trimmed and free of commas |
| CsvSets.ParseSerialized | frontend/components/public/browse-page.tsx:70-84 | Writing any set and reading it gives the pieces of its members |
| CsvSets.JoinedPieces | frontend/components/public/browse-page.tsx:70-84 | The pieces of a joined list are the pieces of its members |
| CsvSets.CleanIsOnePiece | frontend/components/public/browse-page.tsx:70-78 | A clean name is read as itself |
| CatalogFilters.PushRoundTrip | frontend/components/public/browse-page.tsx:513-553 | Parameters written to the URL and read back are the same, defaults and presets included, if and only if they are canonical: no empty texts, lists sorted, clean and containing the preset, page at least 1 |
| CatalogFilters.ReadIsCanonical | frontend/components/public/browse-page.tsx:513-619 | Whatever the URL says, the parameters read from it are canonical, except exactly for a few stray empty texts or a page below 1 |
| CatalogFilters.ListRoundTrip | frontend/components/public/browse-page.tsx:680-686 | A list written without the preset and read with it is the same if and only if it is a sorted clean list containing the preset |
| CatalogFilters.ListReadBack | frontend/components/public/browse-page.tsx:680-686 | Whatever the list, leaving the preset out when writing and adding it when reading loses no name |
| CatalogFilters.NumberRoundTrip | frontend/components/public/browse-page.tsx:676-678 | Printing a whole number or NaN and reading it gives it back |
| CatalogFilters.BoundRoundTrip | frontend/components/public/browse-page.tsx:526-529 | A chapter bound survives writing and reading, absent or not |
| CatalogFilters.PageRoundTrip | frontend/components/public/browse-page.tsx:699-699 | A page number survives if and only if it is given and at least 1 |
| CatalogFilters.StatusRoundTrip | frontend/lib/public-types.ts:43-52 | A publication status survives if and only if it is one of the five values |
| CatalogFilters.StepKeepsDisjoint | frontend/components/public/browse-page.tsx:769-871 | A handler keeps included and excluded names apart, presets put back included, if and only if no piece of the name it adds stands on the other side |
| CatalogFilters.RunKeepsDisjoint | frontend/components/public/browse-page.tsx:769-871 | Every run of handlers that adds clean names keeps them apart, from any URL where they are apart |
| CatalogFilters.CommaNameBreaksDisjoint | frontend/components/public/browse-page.tsx:793-805 | A name with a comma breaks it: with `b` excluded, adding a tag `a,b` puts `b` on both sides |
| CatalogFilters.PushedSets | frontend/components/public/browse-page.tsx:667-702 | The sets shown after a push are the pushed lists with the preset added |
| CatalogFilters.GenreStep | frontend/components/public/browse-page.tsx:769-789 | A genre click keeps the sides apart if and only if no piece of a newly added slug is excluded |
| CatalogFilters.GenreShown | frontend/components/public/browse-page.tsx:769-789 | What a genre click shows: a genre on either side goes back to neutral, unless a preset; a neutral one is included; nothing else changes |
| CatalogFilters.ChipShown | frontend/components/public/browse-page.tsx:851-871 | A dropped chip takes exactly its value off the set it stands for |
| CatalogFilters.TagIncludeStep | frontend/components/public/browse-page.tsx:793-805 | Adding an offered tag to the included ones keeps the sides apart if and only if none of its pieces is excluded |
| CatalogFilters.TagExcludeStep | frontend/components/public/browse-page.tsx:818-830 | The same for the excluded side |
| CatalogFilters.TagShown | frontend/components/public/browse-page.tsx:793-841 | What the four tag handlers show, all four sets: an added name stands for its pieces and leaves the other side, a removed one leaves its side unless it is a preset |
| CatalogFilters.HandlerKeepsRest | frontend/components/public/browse-page.tsx:769-841 | Genre and tag handlers keep every other parameter and go back to the first page |
| CatalogFilters.PushedRest | frontend/components/public/browse-page.tsx:513-702 | How every other parameter of any pushed parameters is read back |
| CatalogFilters.ClearKeepsOrder | frontend/components/public/browse-page.tsx:847-849 | Clearing keeps the sort and its direction and drops every other parameter |
| CatalogFilters.OthersKept | frontend/components/public/browse-page.tsx:864-867 | Dropping parameters, or a chip, removes just these and the page |
| CatalogFilters.PlainUrl | frontend/components/public/browse-page.tsx:513-619 | What a URL without parameters is read as |
| CatalogFilters.StatusTexts | frontend/lib/public-types.ts:43-52 | Which texts are read as which status, in any case and with white space around, the old name `dropped` included |
| CatalogFilters.ChipStep | frontend/components/public/browse-page.tsx:851-871 | Dropping a filter chip, on the page or by leaving for the general catalog, shows no new name |
| CatalogFilters.ClearStep | frontend/components/public/browse-page.tsx:847-849 | Clearing leaves the presets and nothing else |
| CatalogFilters.OtherStep | frontend/components/public/browse-page.tsx:843-849 | A push that leaves the four lists alone leaves the four sets alone |
| CatalogFilters.BrowsePage.PushParams | frontend/components/public/browse-page.tsx:667-702 | Every parameter of the new URL is what `pushParams` writes for it, and there are no others |
| CatalogFilters.BrowsePage.ListForUrl | frontend/components/public/browse-page.tsx:680-686 | Deleting the preset's names one by one writes the list without the preset |
| CatalogFilters.BrowsePage.HandleGenreClick | frontend/components/public/browse-page.tsx:769-789 | After the click the page shows what the click should show: selected becomes neutral, neutral becomes included, presets and the other three sets stay |
| CatalogFilters.BrowsePage.HandleTagIncludeAdd | frontend/components/public/browse-page.tsx:793-805 | After the click the name's pieces are included, it is no longer excluded, and everything else is as it was, on the first page |
| CatalogFilters.BrowsePage.HandleTagIncludeRemove | frontend/components/public/browse-page.tsx:807-816 | After the click the name is no longer included, unless it is a preset, and everything else is as it was, on the first page |
| CatalogFilters.BrowsePage.HandleTagExcludeAdd | frontend/components/public/browse-page.tsx:818-830 | After the click the name's pieces are excluded, it is no longer included unless it is a preset, and everything else is as it was, on the first page |
| CatalogFilters.BrowsePage.HandleTagExcludeRemove | frontend/components/public/browse-page.tsx:832-841 | After the click the name is no longer excluded, and everything else is as it was, on the first page |
| CatalogFilters.BrowsePage.RemoveValue | frontend/components/public/browse-page.tsx:851-871 | The value is gone from its set, no set gains a name, and the page is left for the general catalog if and only if the value was a preset |
| CatalogFilters.ClearOfTwoTags | frontend/components/public/browse-page.tsx:355-360 | A box that fails: of the tags `a` and `b` the clear button leaves `a` |
| CatalogFilters.BrowsePage.ClearIncludedTags | frontend/components/public/browse-page.tsx:355-360 | The clear button of the box calls the remove handler once per tag, each from the rendered sets, so the last call wins: the box is emptied to the preset if and only if only the last tag and the preset were in it |
| Text.SplitJoin | frontend/components/public/browse-page.tsx:70-84 | Splitting joined parts gives the parts if none holds the separator |
| Text.JoinSplit | frontend/components/public/browse-page.tsx:70-84 | Joining split parts gives the text |
| Text.SortedAscends | frontend/components/public/browse-page.tsx:81-84 | The sorted members of a set ascend strictly and are as many as the set |
| Text.AscendingIsUnique | frontend/components/public/browse-page.tsx:81-84 | Two strictly ascending lists with the same members are equal |
| Text.Utf16Characters | frontend/components/public/browse-page.tsx:83-83 | The default sort orders characters by UTF-16 units, in which a character beyond the basic plane counts for two |
| Text.Utf16LengthOfConcat | frontend/lib/search-overlay.ts:58-59 | The length of a text is the sum of the lengths of its parts |
| RecentSearches.ListIsRecentHistory | frontend/lib/search-overlay.ts:44-79 | After any run of searches and clearings the list is the first eight entries of the whole history, deduplicated up to letter case and most recent first |
| RecentSearches.CutThenFilter | frontend/lib/search-overlay.ts:60-63 | Cutting the list off before the next search is put in front loses nothing |
| RecentSearches.DeduplicatedDistinct | frontend/lib/search-overlay.ts:60-60 | No text occurs twice up to letter case |
| RecentSearches.DeduplicatedCovers | frontend/lib/search-overlay.ts:60-60 | Every search of the history is represented by its latest spelling |
| RecentSearches.OthersOfDistinct | frontend/lib/search-overlay.ts:60-60 | Filtering out a query removes at most one entry of a list without repeats |
| RecentSearches.RecentList.LoadRecentSearches | frontend/lib/search-overlay.ts:44-55 | Of anything stored, at most eight texts and no blank one; of a store that a history filled, the recent part of that history |
| RecentSearches.RecentList.RecordRecentSearch | frontend/lib/search-overlay.ts:57-70 | A query shorter than two characters changes nothing; any other stands in front of at most seven of the old texts that differ from it; a store that a history filled holds and returns the recent part of the history with this search added |
| RecentSearches.RecentList.ClearRecentSearches | frontend/lib/search-overlay.ts:72-79 | Whatever was stored, the history starts anew and nothing is recent |
| PyLines.LinesConcat | tools/docs_check.py:130-156 | Splitting a text into lines with their ends and joining them gives the text |
| PyLines.LinesOfConcat | tools/docs_check.py:130-156 | Splitting joined lines gives the lines |
| PyLines.BareLinesStep | tools/docs_check.py:164-164 | `splitlines()` cuts off the first line without its end and goes on with the rest |
| FrontMatter.ParsePrinted | tools/docs_check.py:127-157 | Parsing a printed block gives the printed fields, the untouched body and no malformed flag, for any body and any printable fields |
| FrontMatter.ReadBlock | tools/docs_check.py:138-155 | Reading the lines of any number of fields gives their meaning, last one winning for a repeated key |
| FrontMatter.MeaningAt | tools/docs_check.py:138-155 | With distinct keys every field is found under its key with its own value |
| FrontMatter.ReadItems | tools/docs_check.py:142-146 | The list-continuation state: item lines of any number extend the list of the key above, in order |
| FrontMatter.ReadField | tools/docs_check.py:138-155 | The lines of one field set its key and leave the rest of the state alone |
| FrontMatter.PlainScalarRoundTrip | tools/docs_check.py:109-124 | A scalar is read as written if and only if it is non-empty, trimmed, unquoted and not bracketed |
| FrontMatter.PlainItemRoundTrip | tools/docs_check.py:121-146 | A list item is read as written if and only if it is trimmed and unquoted |
| FrontMatter.MatchesKey | tools/docs_check.py:147-152 | A line of a key, a colon and a text matches the key pattern with that key and the text without leading white space |
| FrontMatter.BlockParses | tools/docs_check.py:131-157 | A text of a fence, a block, a fence and the rest is parsed into the block's fields and the rest as body |
| FrontMatter.ParseFrontMatter | tools/docs_check.py:127-157 | For any text: front matter if and only if the first line is a fence, fields if and only if a later line is one too; malformed if and only if some line between is not blank, no comment, no key with a colon, and no item of an open list; a field for exactly the keys named, with the value of the last line; the body is what follows, or the whole text |
| FrontMatter.ReadFields | tools/docs_check.py:136-155 | The loop over any lines: when it is malformed, which keys it names and what value each has |
| FrontMatter.MalformedIff | tools/docs_check.py:138-151 | A block is malformed if and only if it has a bad line, by line positions |
| FrontMatter.CurrentIff | tools/docs_check.py:142-155 | An item line extends the list of a key if and only if that key's line had no text and only items, blank lines and comments have followed |
| FrontMatter.FieldsIff | tools/docs_check.py:147-154 | The fields are those of the keys that some line names |
| FrontMatter.FieldAt | tools/docs_check.py:142-155 | The value of a key is what its last line gives it: the text after the colon, or the items that follow |
| FrontMatter.QuotedIsContents | tools/docs_check.py:118-124 | A text in quotes of either kind is read as what stands between them |
| FrontMatter.InlineListIsContents | tools/docs_check.py:113-117 | An inline list in brackets is read as its items |
| FrontMatter.NothingIsEmptyList | tools/docs_check.py:109-116 | Empty brackets and an empty text are the empty list |
| FrontMatter.KeyCharacters | tools/docs_check.py:56-56 | Keys begin with a letter; letters, digits, underscores and hyphens may follow |
| HeadingAudit.NestedIff | tools/docs_check.py:255-259 | Headings are so nested if and only if the first is of level 1 and no heading skips a level |
| HeadingAudit.AuditMeansNested | tools/docs_check.py:250-259 | For a body that opens with a top-level heading there is a heading, and no heading skips a level if and only if headings are so nested |
| HeadingAudit.AuditHeadings | tools/docs_check.py:242-259 | None of the three violations is reported if and only if the body opens with a top-level heading and every heading has, for each smaller level, an earlier heading of that level with nothing shallower in between |
| HeadingAudit.StepsNest | tools/docs_check.py:255-259 | With steps of at most one level every smaller level has its open section |
| HeadingAudit.NoSkipMeansStep | tools/docs_check.py:255-259 | The count of skips is zero if and only if no heading is more than one level deeper than the one before |
| HeadingAudit.OpeningH1IsFirst | tools/docs_check.py:247-252 | If the first content line is a top-level heading then it is the first heading found outside fences |
| HeadingAudit.LevelsPrefix | tools/docs_check.py:160-182 | Later lines never change the headings found so far |
| HeadingAudit.VisibleLines | tools/docs_check.py:160-182 | The fence loop returns the visible lines and whether a fence stays open |
| HeadingAudit.VisibleIff | tools/docs_check.py:160-182 | A line is visible if and only if it is no fence mark and no fence is open before it |
| HeadingAudit.FenceOpenIff | tools/docs_check.py:160-182 | A fence is open if and only if an earlier mark opened it, outside any fence, and no mark of its kind has followed |
| HeadingAudit.FenceOfIff | tools/docs_check.py:165-177 | A fence mark is a line that begins, white space apart, with three backticks or three tildes |
| HeadingAudit.LevelIff | tools/docs_check.py:55-55 | A heading of level n is n number signs, at most six, white space and something more |
| TableSort.SortRowsSorts | frontend/lib/use-table-sort.ts:120-143 | In a column of only numbers or no numbers the result is the input in the one stable order |
| TableSort.SortRowsPermutes | frontend/lib/use-table-sort.ts:120-143 | Whatever the column holds, no row is lost or invented |
| TableSort.NoColumnNoSort | frontend/lib/use-table-sort.ts:125-127 | Without a column the rows stay as they are |
| TableSort.SortedColumn | frontend/lib/use-table-sort.ts:77-143 | Empty cells come last in both directions; numbers, and the texts of all other cells, ascend or descend |
| TableSort.SortedIff | frontend/lib/use-table-sort.ts:131-142 | The sort yields a sorted arrangement if and only if the comparator with its tie-break is transitive on the rows |
| TableSort.OrderIsUnique | frontend/lib/use-table-sort.ts:131-140 | There is at most one arrangement in order, so every correct sort gives the same rows |
| TableSort.TwoKeySort | frontend/lib/use-table-sort.ts:116-143 | Sorting by k2 and then by k1 is the one stable sort by (k1, k2) |
| TableSort.MixedColumnHasNoOrder | frontend/lib/use-table-sort.ts:98-109 | In a column with 9, 10 and "1a" the comparator runs in a circle and no arrangement is sorted |
| TableSort.CellsTransitive | frontend/lib/use-table-sort.ts:87-113 | The cell comparator is transitive among numbers and among non-numbers, empty cells included |
| TableSort.SortAscends | frontend/lib/use-table-sort.ts:133-140 | The sort's result ascends if the comparator is a total preorder on its elements |
| TableSort.ClicksDecide | frontend/lib/use-table-sort.ts:37-60 | After any clicks the last column is active, with the default direction of the latest column that has one configured, turned once for every further click in a row |
| Escaping.EscapeHtmlIsSubstitution | frontend/lib/seo.ts:103-110 | The chain of five replacements equals one simultaneous substitution |
| Escaping.EscapeJsonIsSubstitution | frontend/lib/seo.ts:115-122 | The chain of five replacements equals one simultaneous substitution |
| Escaping.EscapeConcat | frontend/lib/seo.ts:103-122 | Both escapings distribute over concatenation |
| Escaping.HtmlRoundTrip | frontend/lib/seo.ts:103-110 | A one-pass reader of the five references gives the text back |
| Escaping.SafeIff | frontend/lib/seo.ts:103-110 | The escaped texts are exactly those without quotes and angle brackets in which every ampersand begins a reference |
| Escaping.EscapeHtmlInjective | frontend/lib/seo.ts:103-110 | Different texts are escaped differently |
| Escaping.JsonRoundTrip | frontend/lib/seo.ts:115-122 | A reader by section 7 of RFC 8259 gives the text back and stops at the closing quotation mark if newline, return and tab are its only control characters, and refuses it otherwise |
| Escaping.EscapeJsonInjective | frontend/lib/seo.ts:115-122 | Different texts are escaped differently, control characters included |
| Escaping.ReplaceStep | frontend/lib/seo.ts:103-122 | A replacement whose character occurs in no earlier replacement text adds one case to the substitution |
| HtmlText.StripHtml | frontend/lib/seo.ts:26-34 | The loop ends after one pass on a text without tags and after two otherwise, and leaves the visible text |
| HtmlText.StrippedIsVisible | frontend/lib/seo.ts:26-34 | One pass and the removal of stray brackets leave exactly the positions that are outside every tag and no bracket |
| HtmlText.StripOnceSettles | frontend/lib/seo.ts:29-32 | A pass changes the text if and only if it holds a tag, and a second pass never changes it |
| HtmlText.VisibleIsPlain | frontend/lib/seo.ts:26-34 | The visible text is a subsequence of the input without angle brackets |
| HtmlText.ShownFrom | frontend/lib/seo.ts:26-34 | Lists in ascending order exactly the shown positions |
| HtmlText.BuildDescription | frontend/lib/seo.ts:87-94 | Returns the fallback for a missing or blank text, else the collapsed visible text, cut with an ellipsis when longer than 160 |
| HtmlText.DescriptionIsShortAndPlain | frontend/lib/seo.ts:87-94 | A description has at most 160 characters, no angle bracket and only single spaces |
| HtmlText.DescriptionKeepsWords | frontend/lib/seo.ts:91-93 | Up to 160 characters the description has all words of the visible text; beyond, it is the first 159 characters and an ellipsis |
| HtmlText.CollapseKeepsWords | frontend/lib/seo.ts:91-91 | Collapsing white space keeps the words |
| HtmlText.CollapseLeavesBlanks | frontend/lib/seo.ts:91-91 | It leaves single spaces, and one at an end exactly where there was white space |
| HtmlText.EmptyDescriptionIff | frontend/lib/seo.ts:87-94 | The description is empty, without falling back, if and only if the text is not blank but shows nothing |
| HtmlText.TagAloneShowsNothing | frontend/lib/seo.ts:87-94 | A text that fails: the description of `<p>` is empty |
| ChapterIdentity.Table.Upgrade | backend/alembic/versions/2026-08-06_c7a8b9d0e1f2_add_stable_chapter_identity.py:34-86 | From any rows both constraints hold: every chapter has an id and (novel, id) is unique; the chapter number is the id if and only if the row has the lowest key of its (novel, number) group; no other column changes |
| ChapterIdentity.UniqueIff | backend/alembic/versions/2026-08-06_c7a8b9d0e1f2_add_stable_chapter_identity.py:67-86 | From a column that already holds ids, the updates leave unique ids if and only if no held id is repeated or about to be given again |
| ChapterIdentity.NewIdsDiffer | backend/alembic/versions/2026-08-06_c7a8b9d0e1f2_add_stable_chapter_identity.py:67-76 | Two unfilled rows of one novel never get the same id, duplicate or missing numbers included |
| ChapterIdentity.FirstOfGroup | backend/alembic/versions/2026-08-06_c7a8b9d0e1f2_add_stable_chapter_identity.py:69-72 | Every group of unfilled rows has exactly one row that takes the number |
| ChapterIdentity.TakenIff | backend/alembic/versions/2026-08-06_c7a8b9d0e1f2_add_stable_chapter_identity.py:67-76 | An id is given to an unfilled row of the novel if and only if it is the text of an unfilled row's number, or `legacy-` and the key of an unfilled row that is not first |
| ChapterIdentity.Table.FillFromNumbers | backend/alembic/versions/2026-08-06_c7a8b9d0e1f2_add_stable_chapter_identity.py:67-73 | The first update writes the number to the lowest unfilled row of every group and to no other |
| ChapterIdentity.Table.FillFromKeys | backend/alembic/versions/2026-08-06_c7a8b9d0e1f2_add_stable_chapter_identity.py:74-76 | The second update writes `legacy-` and the key to the rows still empty |
| ChapterIdentity.Table.Backfill | backend/alembic/versions/2026-08-06_c7a8b9d0e1f2_add_stable_chapter_identity.py:67-76 | The two updates in order |
| ChapterIdentity.Table.Downgrade | backend/alembic/versions/2026-08-06_c7a8b9d0e1f2_add_stable_chapter_identity.py:101-109 | Drops the constraints and the column and nothing else |
| SeedExport.ScriptRoundTrip | tools/database/export_seed.py:62-128 | Reading the written file gives every row of every table back, in order, and nothing else |
| SeedExport.RowRoundTrip | tools/database/export_seed.py:88-91 | A printed row is read as one statement with its table, columns and values, whatever follows it |
| SeedExport.ValueRoundTrip | tools/database/export_seed.py:42-59 | Every value is read back, strings in normal form, floats if finite; no literal ends early and no text is taken for NULL, a truth value or a number |
| SeedExport.StringSurvivesIff | tools/database/export_seed.py:54-57 | A string comes back unchanged if and only if only newlines end its lines, no white space stands before one or at its end, and its last line is not ended |
| SeedExport.FinalNewlineIsLost | tools/database/export_seed.py:54-57 | A string that fails: `a` and a newline comes back as `a` |
| SeedExport.NormalizedLines | tools/database/export_seed.py:55-56 | The lines of the printed string are the lines of the string without trailing white space |
| SeedExport.CounterRoundTrip | tools/database/export_seed.py:98-102 | A `setval` line is read back as its sequence and value |
| SeedExport.FloatReadIff | tools/database/export_seed.py:47-48 | A float is read back if and only if its text has the form of a finite one |
| SeedExport.NanIsUnreadable | tools/database/export_seed.py:47-48 | A value that fails: `nan` is printed bare and is no SQL value |
| SeedExport.NormalStep | tools/database/export_seed.py:55-56 | Normalising and the condition split at the first line in the same way |
| SeedExport.ReadDoubled | tools/database/export_seed.py:52-59 | A text with doubled quotation marks is read up to its closing mark and no further |
| SeedExport.NameRoundTrip | tools/database/export_seed.py:89-91 | A name that is not doubled is read back if and only if it holds no quotation mark |
| SeedExport.IntRoundTrip | tools/database/export_seed.py:47-48 | A printed integer is read as that integer |
| SeedExport.ListRoundTrip | tools/database/export_seed.py:89-90 | A list of printed parts is read back if each part is |
| SeedExport.ReadTables | tools/database/export_seed.py:81-92 | The sections of all tables give the statements of all tables |
| SeedExport.NormalizeIsNoLonger | tools/database/export_seed.py:55-56 | Normalising never makes a string longer |
| SeedExport.Export | tools/database/export_seed.py:62-128 | The nested loops append the lines of the script in order; the file is those lines, each ended by a newline |
| SeedExport.ExportTable | tools/database/export_seed.py:87-92 | A heading, one statement per row and an empty line |
| Percentile.SampleIff | tools/capacity/run_phase6_acceptance.py:59-64 | The reported sample is the one sample value with at least rank many samples at or below it and fewer than rank below it |
| Percentile.RankOfFraction | tools/capacity/run_phase6_acceptance.py:63-63 | For 0 < p <= 1 the rank is ceil(n p) |
| Percentile.SummaryInOrder | tools/capacity/run_phase6_acceptance.py:370-387 | min <= p50 <= p95 <= p99 <= max after any monotone rounding |
| Percentile.SummaryFigures | tools/capacity/run_phase6_acceptance.py:370-387 | Which samples the summary reports: for 50, 95 and 99 percent of the samples, rounded up, the one with so many at or below it and fewer below; a least and a greatest one |
| Percentile.SummaryTimeouts | tools/capacity/run_phase6_acceptance.py:385-385 | The time-outs are the results with that status |
| Percentile.SummaryMean | tools/capacity/run_phase6_acceptance.py:381-383 | The average is the rounded number that, taken once per result, gives the total of the response sizes |
| Percentile.TotalOfConcat | tools/capacity/run_phase6_acceptance.py:381-381 | The total of the response sizes adds up over any split of the results |
| Percentile.SamplesAscend | tools/capacity/run_phase6_acceptance.py:59-64 | A larger fraction never picks a smaller sample |
| Percentile.VersionsAgree | tools/capacity/run_b4_local_diagnostics.py:352-357 | The version with a percentage gives the figure of the version with a fraction |
| Percentile.CountsSorted | tools/capacity/run_phase6_acceptance.py:60-60 | Sorting changes no count |
| Percentile.StatusCounts | tools/capacity/run_phase6_acceptance.py:372-385 | Every result is counted once under its status |
| Percentile.ErrorCounts | tools/capacity/run_phase6_acceptance.py:373-386 | Every result with an error is counted once under it |

## Left out

- RowPolicies.RunChangesOnlyMine: table and column privileges, foreign keys and triggers are not modelled, only row policies; no privilege by column appears in the repository.
- RowPolicies.IndexedRunChangesOnlyMine: of the later revision only the unique index on the owner is modelled, not its check constraints.
- CredentialRegistry.Database.Upgrade: foreign keys to users, indexes and column types are not modelled; the dropped contributor table is an empty map.
- CredentialRegistry.RoundTrip: a NULL failure count, which the code reads as zero, cannot occur in the model's integer column.
- CsrfToken.EveryRunKeepsInv: the safety of cache, tokens and retries is proved, not that every call ends; response bodies are not modelled.
- CsrfToken.SentTokensAreFetched: the method is given in upper case, as `request` makes it; GET stands for an absent one.
- CatalogFilters.NumberRoundTrip: numbers are whole or NaN; `Number` also reads fractions, exponents and infinities, and rounds whole numbers beyond 53 bits.
- CatalogFilters.BoundRoundTrip: the same numbers as in NumberRoundTrip.
- CatalogFilters.PushRoundTrip: the same numbers as in NumberRoundTrip.
- CatalogFilters.ReadIsCanonical: the same numbers as in NumberRoundTrip; a fraction or an exponent is read as NaN.
- CatalogFilters.StatusRoundTrip: lower-casing is modelled for the 26 English letters.
- CatalogFilters.BrowsePage.PushParams: query encoding is a faithful map from names to texts, not character by character.
- RecentSearches.ListIsRecentHistory: storage works and holds a list of texts or nothing; malformed JSON, exceptions of `localStorage` and entries that are no strings are not modelled.
- TableSort.SortRowsSorts: NaN and the infinities are not cells, and numbers are reals without rounding.
- HtmlText.BuildDescription: lengths count characters, not UTF-16 units.
- Escaping.JsonRoundTrip: the reader refuses `\u` escapes of surrogates, which `escapeJson` never writes.
- SeedExport.ValueRoundTrip: floats, dates, JSON values and values of other types come as the text Python prints for them; floats are read as their text, without rounding.
- SeedExport.Export: the fixed comment, setting and transaction lines, the timestamp and the counters are parameters, any lines that are no insert statement; the reader of the script passes over the `setval` lines, which CounterRoundTrip reads one by one.
- ChapterIdentity.Table.Upgrade: the two other new columns, which stay NULL, and the non-unique indexes are not modelled.
- Percentile.SummaryInOrder: numbers are exact, so floating-point products in the rank are not modelled.
- FrontMatter.ParsePrinted: the printer writes two-space item lines as the fixtures do; only texts of one line, without quotes around them, are printed.
- HeadingAudit.AuditHeadings: the h1 count, duplicate headings and the other document checks are not modelled.
- `_run_fixture_pipeline` of tools/capacity/run_b4_local_diagnostics.py: a fixed number of turns over two fixed chapters whose counters follow by reading.
- React rendering, routes and styling; FastAPI wiring, logging, HTTP clients and file walking; migrations without data.
- The activity queue, the scheduler, the object-storage catalog and the timing spans are not part of this model.
