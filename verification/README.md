# Insights Results Aggregator: a verified model

A Dafny 4.11 model of the parts of the aggregator that decide what is stored,
what is served from it, and how the database gets from one version to another.
`dafny verify dfyconfig.toml` checks the whole project.

## What is modelled

**The report write protocol.** A processed message runs four transactions:
move the cluster to its organization, write the report with its rule hits, write
the recommendations, write the info report. The tables are finite maps keyed by
their primary keys (`Schema.dfy`). One storage instance holds a cache of
timestamps; several instances share one database. Every database call may fail,
and every transaction ends in commit, rollback or a failed commit
(`Protocol.dfy` as a function, `OcpStorage.dfy` as the classes and loops of the
source). What SQL leaves open is an input: the row that `LIMIT 1` returns, the
order in which rows arrive, the clock.

- `SingleOrg.dfy`, `Runs.dfy`: all rows of a cluster stay under one organization.
- `StoreOutcome.dfy`: when storeInDB succeeds and what it leaves, row by row, said
  about the state before the call and without the functions that compute it.
- `Mirror.dfy`: recommendations are the image of the rule hits.
- `CreationTimes.dfy`: `created_at` and `impacted_since` over whole runs.
- `Freshness.dfy`: which reports are accepted, and that none replaces a newer one.
- `Consumer.dfy`: counters, payload tracker and dead letters of a claim, and that
  a claim is a run in the sense of `Runs.dfy`, so the laws above apply to it.
- `ReadViews.dfy`: the two read views are transposes.

**DVO reports.** `DvoAggregates.dfy` is the inversion of a report into four maps
per namespace, `DvoLaws.dfy` its independence of order and conservation of
counts, `DvoServing.dfy` the page the server recomputes and its agreement with
the summary, `DvoProtocol.dfy`, `DvoStorage.dfy` and `DvoRuns.dfy` the write
protocol and its runs.

**Migrations.** `MigrationEngine.dfy` is the versioned state machine over
arbitrary data and steps. `RecommendationMigrations.dfy` (16 and 19) and
`OrgColumnMigrations.dfy` (26 and 27) are two pairs of data migrations over
arbitrary table contents.

**Encoders.** `Inserts.dfy` gives the multi-row INSERT builders an evaluator;
`Selectors.dfy` has the rule selectors, ratings and the CSV of rule hits.

## One hypothesis on the database

The org move goes on when an UPDATE fails and then tries to commit
(`storage/storage.go:80-84`). On Postgres, the only driver that can write, a
failed statement aborts its transaction, so that commit fails too. The laws
about storeInDB and about runs assume just this (`FailureAborts`): a move with a
failed UPDATE does not commit. Everything else may fail in any combination.
Two remarks say what the assumption is for, on a database that would commit all
the same: the cluster is split iff some of its tables moved and others did not
(`FailedUpdatesSplit`), and an older report can then replace a newer one
(`StoreInDbLowersExactly`).

## Where the code falls short of its promise

These are results of the model, each with its exact condition.

- Creation times are looked up under module and error key concatenated without a
  separator. The lookup can give a rule a wrong time iff another row of the
  cluster with a different time has the same concatenation (`CollisionTakesTime`).
  For modules ending in `.report` and dot-free error keys this cannot happen to
  rule hits (`WellFormedSeparable`), but the recommendation table drops the suffix
  and can then confuse rules (`StrippedRulesCollide`). The laws over runs ask for
  distinct concatenations.
- A stale report is swallowed (`consumer/ocp_processing.go:198-205`), and yet the
  message fails, without any fault, iff it repeats a rule, or its instance has not
  cached the cluster and a stored recommendation is for one of its rules: that one is
  inserted a second time, and the message goes to the dead letters (`StaleFailsExactly`, with an input in
  `StaleMessageFails`).
- Otherwise the recommendations of a stale report are written. They then
  mirror the rule hits iff they happen to name the same rules
  (`StaleMessageMirrorsExactly`, with an input in `StaleMessageBreaksMirror`).
- The freshness query filters by organization and the upsert does not, so a report
  write lowers `last_checked_at` iff a newer row sits under another organization
  and nothing fails (`WriteLowersExactly`). One storeInDB after another never gets
  there (`StoreInDbNeverLowers`, `FreshnessOverRuns`); the transactions of two
  instances that name different organizations can (`InterleavingLowers`).
- The cache is set before the commit, so an instance refuses a report that it
  failed to store iff only the commit failed (`RefusedAfterFailedCommit`).
- A DVO report without workloads leaves no row: an older one is then accepted by an
  instance without a cached time iff the newer one had no workloads
  (`EmptyReportForgetsTime`).
- Init does not ask whether its iteration over the report rows broke off, and then
  succeeds with the rows read so far in the cache (`OcpStorage.Storage.Init`).
- Migrations 16 and 19 agree with the writer on the FQDN of a module ending in
  `.report` iff it has no bar and the error key neither bar nor dot
  (`MigratedFqdnExactly`). Uniqueness is checked row by row, so on such a table
  migration 19 succeeds in every order of the rows iff no module ends in its own
  error key after another module (`MigrationsSucceedExactly`); some order always
  succeeds (`SomeOrderSucceeds`).
- A comment at `consumer/ocp_processing.go:193-195` says that rule hits and
  recommendations of a report get the same timestamp. The rule hit builder reads
  the clock again for every rule (`storage/ocp_recommendations_storage.go:958`), so
  a new rule gets the same time in both iff that is in the second of the write
  (`NewTimesAgreeExactly`, with an input in `NewTimesCanDiffer`). The model follows
  the code.

## Model

| member | source | states |
|---|---|---|
| DvoAggregates.UpdateRuleHitsCountsForNamespace | storage/dvo_recommendations_storage.go:431-452 | the namespace gets an entry even when the rule ID is invalid; otherwise exactly that rule's count grows by one and nothing else changes |
| DvoAggregates.VisitRecommendation | storage/dvo_recommendations_storage.go:473-495 | visiting one recommendation extends the exact names, UID sets and hit counts by its workloads, and collects exactly the namespaces it touches |
| DvoAggregates.CountAffectedNamespaces | storage/dvo_recommendations_storage.go:497-502 | in whatever order the namespaces are visited, each touched one is counted once per recommendation |
| DvoAggregates.CountUnique | storage/dvo_recommendations_storage.go:505-509 | the number of distinct objects per namespace |
| DvoAggregates.MapWorkloadRecommendations | storage/dvo_recommendations_storage.go:461-512 | all four maps have the occurring namespaces as keys; the name carried by the namespace's first workload in report order, distinct UIDs, touching recommendations, hits per valid rule and no zero entry |
| DvoLaws.SummaryIgnoresOrder | storage/dvo_recommendations_storage.go:473-509 | the three count maps are equal for any permutation of recommendations and of workloads inside each |
| DvoLaws.NamesDependOnOrder | storage/dvo_recommendations_storage.go:480-483 | the names that some order of the report gives a namespace are exactly those its workloads carry |
| DvoLaws.HitsAreConserved | storage/dvo_recommendations_storage.go:431-512 | hit counts summed over namespaces and rules equal the workload entries of recommendations with a valid ID |
| DvoServing.ProcessSingleDvoNamespace | server/dvo_handlers.go:259-300 | the page has one item for exactly the recommendations with a valid ID and a workload in the namespace, in report order, each with its ID, its details, and kind, UID and name of exactly those workloads in order |
| DvoServing.ListedObjectsAreHits | server/dvo_handlers.go:259-297 | per check, the objects listed equal the stored hit count, for every report |
| DvoServing.ListedRecommendations | server/dvo_handlers.go:275-297 | at most the counted recommendations are listed, and all of them iff every ID involved is valid |
| DvoServing.ServedObjects | server/dvo_handlers.go:259-297 | the page's distinct UIDs are among the namespace's, and all of them iff each occurs under a valid recommendation |
| DvoServing.SummaryAgreesWithView | storage/dvo_recommendations_storage.go:461-512 | summary and page agree: counts per check, number of recommendations, number of objects, and nothing for an unknown namespace |
| DvoStorage.GetReportedAtMap | storage/dvo_recommendations_storage.go:518-543 | the stored reported_at of every row of the cluster in whole seconds, NULLs skipped |
| DvoStorage.InsertNamespaces | storage/dvo_recommendations_storage.go:389-425 | one row per namespace in any order, and no insert can violate the primary key |
| DvoStorage.UpdateReportInTx | storage/dvo_recommendations_storage.go:353-428 | the transaction replaces the cluster's rows by those of the aggregates of this report |
| DvoStorage.Storage.UpdateOrgIdForCluster | storage/dvo_recommendations_storage.go:303-351 | moves the cluster's rows or leaves the table alone, whichever call fails |
| DvoStorage.Storage.WriteReportForCluster | storage/dvo_recommendations_storage.go:238-298 | refused by cache, discarded by the database, failed or accepted; table and cache after each |
| DvoStorage.StoreMessage | consumer/dvo_processing.go:109-141 | the two transactions in order, a stale report swallowed |
| DvoRuns.MoveReachesAll | storage/storage.go:70-93 | the org move brings every DVO row of the cluster under the new organization, never collides, keeps all other columns and clusters |
| DvoRuns.OrgStepExactly | storage/dvo_recommendations_storage.go:303-351 | the org step succeeds iff its query and its commit do, a failed update notwithstanding, and otherwise changes nothing; with the update, every row of the cluster is then under the message's organization, all columns and other clusters kept |
| DvoRuns.AcceptedWriteRows | storage/dvo_recommendations_storage.go:353-428 | after an accepted write there is exactly one row per affected namespace, each with this report's aggregates and last_checked_at; other clusters unchanged |
| DvoRuns.SingleOrgForever | consumer/dvo_processing.go:109-141 | every run keeps every cluster's rows under one organization |
| DvoRuns.ReportedAtOverRuns | storage/dvo_recommendations_storage.go:361-415 | over every run, from any table with known times, the rows are the namespaces of the last accepted report, each with the time kept for it |
| DvoRuns.RowReportedAtFirstReport | storage/dvo_recommendations_storage.go:408-412 | that time is the one of the first report of the one unbroken suffix affecting the namespace, truncated to seconds once carried over |
| DvoRuns.PagesAgreeOverRuns | server/dvo_handlers.go:204-301 | over every run every stored overview row agrees with the page built from its own stored report |
| DvoRuns.AcceptedExactly | storage/dvo_recommendations_storage.go:248-282 | storeInDB accepts a report iff it is newer than what the instance cached, no older than any row of the cluster under whatever organization, and nothing fails |
| DvoRuns.SucceedsExactly | consumer/dvo_processing.go:109-141 | storeInDB returns no error iff the org step works, the date parses, the report marshals, and the write is refused by the cache, or no call fails up to the newer row it finds or to its commit; a stale report is no error |
| DvoRuns.CacheExactly | storage/dvo_recommendations_storage.go:245-290 | the cache takes the report's time iff the report gets to its commit without being stale, whether or not the commit works |
| DvoRuns.ColumnsWritten | storage/dvo_recommendations_storage.go:389-425 | each row of an accepted report holds that report, its last_checked_at and, as reported_at, the time looked up for the namespace or the report's own |
| DvoRuns.EmptyReportForgetsTime | storage/dvo_recommendations_storage.go:377-382 | an instance that has not cached the cluster accepts an older report after a newer one iff the newer had no workloads |
| DvoRuns.FreshnessStep | consumer/dvo_processing.go:109-141 | a step forgets how new the cluster's report was iff it accepts one without workloads |
| DvoRuns.FreshnessOverRuns | storage/dvo_recommendations_storage.go:238-298 | over every run no report is replaced by an older one, unless one without workloads was accepted in between |
| Timeline.KeptIsFirstOfSuffix | storage/ocp_recommendations_storage.go:953-959 | a time carried over from report to report is the one recorded at the start of the unbroken suffix, truncated once |
| Inserts.GetRuleHitInsertStatement | storage/ocp_recommendations_storage.go:894-914 | row i holds the placeholders $6i+1 to $6i+6 |
| Inserts.ValuesForRuleHitsInsert | storage/ocp_recommendations_storage.go:943-968 | arguments 6i to 6i+5 are organization, cluster, module, error key, template data and time of rule i, the time being the earlier one or the clock's |
| Inserts.BuildHitRows | storage/ocp_recommendations_storage.go:1004-1011 | evaluating the statement against the arguments inserts exactly one row per rule, every column from that rule |
| Inserts.PrepareInsertRecommendationsStatement | storage/ocp_recommendations_storage.go:1036-1071 | selectors, placeholders $7i+1 to $7i+7 and the seven columns of each hit, spelled out |
| Inserts.BuildRecommendationRows | storage/ocp_recommendations_storage.go:1090-1092 | evaluating the statement inserts exactly one row per hit, with stripped FQDN, rule ID and impacted_since |
| Inserts.EnumeratesInOrder | storage/ocp_recommendations_storage.go:901-910 | the placeholders of a statement are $1 to $(width * rows), each once and in order |
| Inserts.EnumerationBinds | storage/ocp_recommendations_storage.go:901-913 | such a statement uses every argument exactly once and binds row i to its own run of arguments |
| OcpStorage.CheckOrgIdForCluster | storage/storage.go:49-67 | the organization of a row of the first table that has one, none, or an error exactly when a failing query is reached |
| OcpStorage.UpdateOrgIdInTables | storage/storage.go:70-93 | every listed table is updated except those whose update fails or collides |
| OcpStorage.GetRuleKeyCreatedAtMap | storage/ocp_recommendations_storage.go:1119-1152 | the map holds, per concatenated key, the time of some row with that key in whole seconds, for every non-NULL row |
| OcpStorage.Storage.Init | storage/ocp_recommendations_storage.go:412-440 | the cache has last_checked_at of exactly the report rows that arrive and keeps the rest; a query, scan or close error is returned, an iteration that breaks off is not |
| OcpStorage.LoadedMeaning | storage/ocp_recommendations_storage.go:412-440 | the cache Init leaves is that of the loading instance in the runs of the laws below |
| OcpStorage.Storage.UpdateOrgIdForCluster | storage/ocp_recommendations_storage.go:1157-1218 | the org transaction, with commit, rollback and failed commit |
| OcpStorage.Storage.WriteReportForCluster | storage/ocp_recommendations_storage.go:1221-1281 | the report transaction; the cache is set before the commit |
| OcpStorage.Storage.UpdateReportInTx | storage/ocp_recommendations_storage.go:970-1034 | hits of the cluster replaced by those of the report, report row upserted, or nothing |
| OcpStorage.Storage.InsertRecommendations | storage/ocp_recommendations_storage.go:1073-1117 | the recommendations of the report are inserted, or the statement fails; nothing happens for a report without hits |
| OcpStorage.Storage.WriteRecommendationsForCluster | storage/ocp_recommendations_storage.go:1284-1359 | earlier recommendations deleted only if the cache knows the cluster, then this report's inserted, or nothing |
| OcpStorage.Storage.WriteReportInfoForCluster | storage/info_rules.go:38-83 | the version of the last version-info item is upserted, or nothing |
| OcpStorage.StoreMessage | consumer/ocp_processing.go:168-222 | the four stages in order with early exits; a stale report is swallowed |
| SingleOrg.CanMoveExactly | storage/storage.go:76-84 | an org update collides iff two rows of the cluster differ in nothing but the organization |
| SingleOrg.MoveLosesNothing | storage/storage.go:76-84 | the update is a bijection on rows that changes only org_id and only for the cluster |
| SingleOrg.NoCollision | storage/storage.go:76-84 | a cluster under one organization never collides |
| SingleOrg.CurrentOrgIsTheOrg | storage/ocp_recommendations_storage.go:1186-1202 | when the check finds no row or the same organization, all rows of the cluster already are under it |
| SingleOrg.OrgStepKeepsGood | storage/ocp_recommendations_storage.go:1174-1218 | whatever fails, the org step never splits a cluster and touches no other; a successful one brings the cluster under the message's organization, and with it, if some main row was elsewhere, its toggles, feedback and disabled rules |
| SingleOrg.OrgStepExactly | storage/ocp_recommendations_storage.go:1157-1218 | over all seven tables: the step succeeds iff its check and its commit do, failed updates notwithstanding, and otherwise changes nothing; with every update, every row of the cluster is then under the message's organization, the three user tables only if some main row was elsewhere, all other columns and clusters kept |
| SingleOrg.FailedUpdatesSplit | storage/storage.go:80-84 | if a move with failed updates committed, the cluster would stay under one organization iff its tables did not split |
| SingleOrg.StoreInDbKeepsGood | consumer/ocp_processing.go:168-222 | whichever stage fails, every cluster stays under one organization and no other cluster changes |
| Runs.SingleOrgForever | consumer/ocp_processing.go:168-222 | every run of any number of instances keeps all rows of every cluster under one organization |
| StoreOutcome.SucceedsExactly | consumer/ocp_processing.go:168-222 | storeInDB returns no error iff the org step works, the date parses, the report marshals and nothing fails in the three stages, all said about the state before the call; a report known to be stale is no failure of its stage |
| StoreOutcome.StaleFailsExactly | consumer/ocp_processing.go:198-221 | without faults a stale report is an error all the same iff it repeats a rule, or the instance has not cached the cluster and a stored recommendation is for one of its rules |
| StoreOutcome.StaleMessageFails | storage/ocp_recommendations_storage.go:1304-1305 | a concrete input: one stored recommendation, an instance with an empty cache and an older report of the same rule |
| StoreOutcome.CommitsExactly | storage/ocp_recommendations_storage.go:1284-1359 | the recommendations are committed iff the org step, the report stage and the recommendation stage work, whatever becomes of the info report |
| StoreOutcome.HitColumns | storage/ocp_recommendations_storage.go:941-968 | template data and created_at of every rule hit of an accepted report |
| StoreOutcome.RecommendationColumns | storage/ocp_recommendations_storage.go:1036-1071 | rule_id, created_at and impacted_since of every committed recommendation; an instance that does not know the cluster looks up no earlier time |
| StoreOutcome.EarlierRecommendations | storage/ocp_recommendations_storage.go:1304-1320 | a recommendation the message does not name survives its commit, unchanged, iff it was stored and the instance does not know the cluster |
| StoreOutcome.InfoStored | storage/info_rules.go:38-83 | a successful message stores the version of its last version-info item, changes no info row without one, and none of another cluster |
| StoreOutcome.OtherwiseAsMoved | consumer/ocp_processing.go:168-222 | what each early exit leaves as the org step made it; toggles, feedback and disabled rules always |
| StoreOutcome.CacheExactly | storage/ocp_recommendations_storage.go:1231-1281 | the cache takes the report's time iff the report gets to its commit without being stale, whether or not the commit works; nothing else changes it |
| Mirror.AcceptedHits | storage/ocp_recommendations_storage.go:992-1018 | an accepted report leaves exactly its own rule hits for the cluster |
| Mirror.KnownRecommendations | storage/ocp_recommendations_storage.go:1301-1356 | a message that commits its recommendations in an instance that knows the cluster leaves exactly its own, stale or not |
| Mirror.AcceptedMessageMirrors | consumer/ocp_processing.go:168-222 | after an accepted, successful message the recommendations are the image of the rule hits, both of this message alone, all other clusters unchanged |
| Mirror.StaleMessageMirrorsExactly | consumer/ocp_processing.go:99-101 | what a message with a stale report leaves, and exactly when recommendations still mirror the rule hits, rule IDs and organization included |
| Mirror.StaleMessageBreaksMirror | consumer/ocp_processing.go:198-205 | a successful, stale message that takes a mirrored cluster out of step |
| Mirror.NewTimesAgreeExactly | consumer/ocp_processing.go:193-196 | a new rule gets the same time as hit and as recommendation iff the clock is in the second of the write when it is visited |
| Mirror.NewTimesCanDiffer | consumer/ocp_processing.go:193-196 | an input for which the two times differ |
| Mirror.LastVersionMeaning | storage/info_rules.go:72-81 | the stored version is the version detail, if any, of the last item with the ID version_info, bar, CLUSTER_VERSION_INFO |
| Mirror.ReportAndInfoWritten | storage/ocp_recommendations_storage.go:1020-1031 | the report row is the message's with its three times; the info row its last version |
| CreationTimes.WellFormedSeparable | storage/ocp_recommendations_storage.go:953-955 | modules ending in ".report" with dot-free error keys never share a lookup key |
| CreationTimes.StrippedRulesCollide | storage/ocp_recommendations_storage.go:1050-1052 | stripped modules can share a lookup key |
| CreationTimes.CollisionTakesTime | storage/ocp_recommendations_storage.go:1134-1151 | over any table, the lookup can give a rule a time other than its own iff a row with another time shares its lookup key |
| CreationTimes.LookupMatches | storage/ocp_recommendations_storage.go:1134-1151 | with distinct lookup keys the lookup returns exactly the rule's own kept time |
| CreationTimes.CreatedAtOverRuns | storage/ocp_recommendations_storage.go:970-1034 | over every run from any table with known times, faults, org moves and instances included, the hits are the rules of the last accepted report, each with its kept time |
| CreationTimes.HitCreatedAtFirstReport | storage/ocp_recommendations_storage.go:941-968 | created_at is the time recorded by the first report of the one unbroken suffix of accepted reports with the rule |
| CreationTimes.ImpactedSinceOverRuns | storage/ocp_recommendations_storage.go:1284-1359 | the same for recommendations, over every report whose recommendations were committed, stale or not, unless an instance without a cached time is sent an older report |
| CreationTimes.RecommendationSinceFirstReport | storage/ocp_recommendations_storage.go:1052-1055 | impacted_since is the time of the first report of the one unbroken suffix with the recommendation |
| Freshness.WriteLowersExactly | storage/ocp_recommendations_storage.go:1247-1278 | a write lowers last_checked_at iff a newer row is under another organization, the cache does not refuse it and nothing fails |
| Freshness.AcceptedExactly | storage/ocp_recommendations_storage.go:1231-1281 | a report is accepted iff it is not known to be stale and no statement and no commit fails; inserting hits fails exactly for repeated rules |
| Freshness.CacheGrows | storage/ocp_recommendations_storage.go:1233-1272 | a write sets the cached time, to a strictly larger one, iff the report is not stale and no statement fails |
| Freshness.RefusedAfterFailedCommit | storage/ocp_recommendations_storage.go:1272-1278 | a write fails and its instance then refuses the same report iff the write was in order and only the commit failed |
| Freshness.StoreInDbAcceptsExactly | consumer/ocp_processing.go:171-200 | storeInDB accepts a report iff it is newer than what the instance cached, no older than the stored one under whatever organization, and nothing fails |
| Freshness.StoreInDbNeverLowers | consumer/ocp_processing.go:171-200 | storeInDB never makes a report older or loses one |
| Freshness.StoreInDbLowersExactly | consumer/ocp_processing.go:171-200 | if a move with failed updates could commit, storeInDB would lower last_checked_at iff the report table's update failed in it and the older report then got through |
| Freshness.FreshnessOverRuns | consumer/ocp_processing.go:168-222 | over every sequential run, with any caches and faults, no report gets older or lost |
| Freshness.CacheOverRuns | storage/ocp_recommendations_storage.go:1233-1272 | within one instance cached timestamps never decrease, and grow strictly iff the instance caches a report |
| Freshness.FreshnessOfInterleavings | storage/ocp_recommendations_storage.go:1231-1278 | if clusters keep their organization, no interleaving of transactions of any instances makes a report older |
| Freshness.InterleavingLowers | storage/ocp_recommendations_storage.go:1249-1251 | two instances whose messages name different organizations can interleave so that the older report replaces the newer |
| ReadViews.ReadRecommendationsForClusters | storage/ocp_recommendations_storage.go:1395-1443 | each requested cluster is listed under a rule as often as it has rows there |
| ReadViews.ReadClusterListRecommendations | storage/ocp_recommendations_storage.go:1446-1517 | exactly the requested clusters with a report appear, with their time, version and rules, if only with an empty list |
| ReadViews.FillInMetadata | storage/info_rules.go:155-174 | only versions change: no key and no list |
| ReadViews.ViewsAreTransposes | storage/ocp_recommendations_storage.go:1395-1517 | the count of a cluster under a rule equals the count of the rule under the cluster; the '' sentinel hides no rule |
| ReadViews.ListedOnce | storage/ocp_recommendations_storage.go:1395-1517 | in both views a cluster is listed once under a rule for which it has a row and not at all otherwise, as long as no module holds a bar |
| ReadViews.ListedAreRows | storage/ocp_recommendations_storage.go:1395-1517 | every rule ID listed in a view is that of a row of the cluster under the organization |
| ReadViews.RuleIdsOverRuns | storage/ocp_recommendations_storage.go:1050-1057 | every run keeps rule_id equal to FQDN, bar and error key, as the transpose law needs |
| MigrationEngine.InitInfoTable | migration/migration.go:82-121 | afterwards exactly one row, new at version 0, or an error and no change |
| MigrationEngine.GetDbVersion | migration/migration.go:124-142 | an error unless the info table has exactly one row |
| MigrationEngine.RunSteps | migration/migration.go:212-229 | both loops stay in range, never wrap, and fold exactly the steps between the versions |
| MigrationEngine.ExecStepsInTx | migration/migration.go:199-233 | commit on success, nothing changed on any error or panic |
| MigrationEngine.SetDbVersion | migration/migration.go:146-174 | all-or-nothing: on success the fold of exactly those steps and one info row at the target, otherwise no change; which outcome without faults |
| MigrationEngine.PathUp | migration/migration.go:213-220 | the fold upwards is a chain of the StepUps of exactly the versions on the way, up to the first that fails or panics |
| MigrationEngine.PathDown | migration/migration.go:222-229 | the fold downwards is a chain of the StepDowns of exactly the versions left, up to the first that fails or panics |
| MigrationEngine.PathsCompose | migration/migration.go:214-229 | going over an intermediate version equals going directly |
| MigrationEngine.DownRebuilds | migration/migration.go:223-229 | if steps down undo steps up, going down lands on the database built from scratch |
| MigrationEngine.OnlyLastTargetMatters | migration/migration.go:146-233 | after any series of successful changes the data depend only on the last target |
| RecommendationMigrations.MigratedFqdnExactly | migration/ocpmigrations/mig_0019_modify_recommendation_table.go:28-38 | for a module ending in ".report" and any key, backslashes included, the migrated FQDN is the writer's iff no bar in either field and no dot in the error key |
| RecommendationMigrations.ExpandPieces | migration/ocpmigrations/mig_0019_modify_recommendation_table.go:28-38 | what a replacement text stands for, escape by escape |
| RecommendationMigrations.MigrationsMatchWriter | migration/ocpmigrations/mig_0016_add_recommendations_table.go:44-64 | for every clean rule_hit table and order of the rows, if the update goes through the table holds exactly the writer's rule_fqdn and rule_id, one row per hit |
| RecommendationMigrations.MigrationsSucceedExactly | migration/ocpmigrations/mig_0019_modify_recommendation_table.go:35-38 | on a clean table the update succeeds in every order iff no module is another followed by what its error key stands for |
| RecommendationMigrations.SomeOrderSucceeds | migration/ocpmigrations/mig_0019_modify_recommendation_table.go:35-38 | some order always succeeds |
| OrgColumnMigrations.Mig26StepUp | migration/ocpmigrations/mig_0026_add_and_populate_org_id_columns.go:44-66 | every table gets the column filled from report, or an error |
| OrgColumnMigrations.Mig27StepUp | migration/ocpmigrations/mig_0027_cleanup_invalid_rows_missing_org_id.go:44-68 | every table loses the rows at the default organization, or an error |
| OrgColumnMigrations.MigrateOrgColumns | migration/ocpmigrations/mig_0027_cleanup_invalid_rows_missing_org_id.go:15-20 | together a join: a row survives iff its cluster has a report under a non-zero organization, which is the number its org_id stands for; nothing else changes |
| Selectors.ParseInvertsPrint | server/router_utils.go:181-218 | parsing succeeds exactly on r, bar, e with both parts non-empty words of letters, digits, underscores and dots, and inverts printing |
| Selectors.ParseRefuses | server/router_utils.go:190-213 | which of the two refusals, exactly |
| Selectors.RatingStorage.RateOnRule | storage/rating.go:29-67 | the table stays what the submissions made of it; the row gets the rating and its time, an existing one keeps rated_at and rule_id, all others stay |
| Selectors.RatingStorage.GetRuleRating | storage/rating.go:70-96 | a rating stored under the selector, nothing if there is none; the last one submitted if only one rated rule prints as the selector |
| Selectors.LookupReturnsLast | storage/rating.go:29-96 | after any history in which one rated rule prints as the selector, a lookup returns exactly the last rating submitted under it |
| Selectors.HistoryRows | storage/rating.go:36-43 | after any history each rated rule has one row: first rated at its first submission, with rating and time of its last |
| Selectors.LookupExactly | storage/rating.go:70-96 | over any history a lookup can return exactly the last ratings of the rules printing as the selector |
| Selectors.ParsedPrintOneRule | server/rating.go:40-45 | rules that came through the selector parser never print alike |
| Selectors.AmbiguousSelectors | storage/rating.go:56-57 | over any history the lookup can return something else than the last rating iff a rule printing alike was last rated differently |
| Selectors.GetRuleHitsCsv | storage/redis_storage.go:498-516 | the comma-joined list of stripped module, bar, error key |
| Selectors.CsvRoundTrip | storage/redis_storage.go:503-512 | a non-empty list without separators is recovered from its CSV |
| Selectors.EmptyCsvIsNotDecodable | storage/redis_storage.go:498-516 | the empty list prints as nothing and reads back as one empty field |
| Consumer.IsReportWithEmptyAttributes | consumer/ocp_processing.go:250-271 | true iff the system attribute has no host name and every other one but the metadata is an empty array or object |
| Consumer.CheckReportStructure | consumer/ocp_processing.go:274-308 | well-formed iff all three keys are there; else empty iff every attribute but the metadata is without content; else missing, with exactly the absent keys in order |
| Consumer.StructureMeaning | consumer/ocp_processing.go:225-308 | the three verdicts over the raw attributes: what counts as no data, empty array or object, and empty system |
| Consumer.KindMeaning | consumer/processing.go:284-339 | which messages are empty, refused by the allow list or handed to storeInDB, over report, content, list and organization |
| Consumer.KafkaConsumer.ParseMessage | consumer/ocp_processing.go:336-356 | received is tracked exactly for deserialised messages; the verdict before storage |
| Consumer.KafkaConsumer.ProcessMessage | consumer/processing.go:303-339 | a well-formed report is refused, and nothing stored, iff the allow list is enabled and is missing or lacks the organization; otherwise storeInDB decides; any other message stores nothing and succeeds iff it is an empty report |
| Consumer.KafkaConsumer.HandleMessage | consumer/processing.go:150-224 | counter, tracker records, dead letter and storage effect of one message |
| Consumer.KafkaConsumer.ConsumeClaim | consumer/kafka_consumer.go:205-220 | the accounts of a whole claim, every message marked, and the claim as a run of exactly the messages to store |
| Consumer.SuccessesPlusErrors | consumer/processing.go:173-194 | over a claim both counters together grow by the messages marked, modulo their width |
| Consumer.DeadLettersAreErrors | consumer/processing.go:218-224 | the dead letters are the failed messages whose send succeeds, each once and in order; none without a queue |
| Consumer.AsManyDeadLetters | consumer/processing.go:218-224 | with a working queue there are as many dead letters as errors |
| Consumer.TracesMatchCounters | consumer/processing.go:165-194 | each status is tracked for exactly the messages it applies to that have an ID and can be sent; with no failure and all IDs these are the counters |
| Consumer.TracesInOrder | consumer/processing.go:165-194 | the tracker records are exactly those due, message by message, received before processed before the verdict, each under its message's request ID; none without a tracker |
| Consumer.NothingStored | consumer/processing.go:310-329 | a claim of empty, malformed or refused messages leaves tables and cache untouched |

## Left out

- HTTP routing, authentication, response encoding, CLI, configuration, metrics, logging, SQL hooks, the Redis client, Kafka sessions and rebalancing: plumbing around libraries.
- JSON, gzip, UUID and date parsing, and the quoting of the stored DVO report: decoded values are inputs, and decoding is taken to invert encoding.
- Isolation levels, time zones and resolution below a microsecond, the limit on statement parameters, and the outcome of a commit whose answer is lost: transactions are atomic steps.
- A failed statement aborts its transaction only where the code goes on after it, in the org move; elsewhere the code gives up itself or reads outside the transaction.
- Reads of earlier times arrive complete or fail; an iteration that breaks off unnoticed is modelled for Init only.
- JSON field names match exactly here; the decoder of the system attribute also accepts other letter cases.
- Database drivers other than Postgres: writing with them fails like a failed begin, and their branches in the migrations are not modelled.
- The library function that builds composite rule IDs: a partial function shared by writer and server.
- Concurrent access to one instance's cache: an instance handles one message at a time.
- consumer_error rows, noop storages, debug printing and deletes, and the upserts of votes, toggles and disabled rules: easy members outside the protocol.
- The list of 32 migrations: the engine is over any list; the two pairs above are the ones whose data transformation is not plain.
- The DVO consumer's claim loop: it is the OCP one with the other storeInDB.
- Null attributes in a report and a failing Prepare in RateOnRule: the source dereferences a null pointer there.
- Consumer.KafkaConsumer.UpdatePayloadTracker: records the request ID and status only, because organization, account and date are passed through unchanged.
