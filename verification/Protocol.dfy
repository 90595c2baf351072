/**
 The report write protocol as a function of its inputs: four transactions, each
 of which may fail, over the tables and one storage instance's cache.

 Faults, the clock and whatever SQL leaves open (which row LIMIT 1 returns, in
 which order rows arrive) are inputs; `...Answer` predicates say which answers
 a database could give.
 */
module Protocol {
  import opened Options
  import opened Timeline
  import opened Schema
  import opened Inserts

  datatype InfoItem = InfoItem(infoId: string, details: map<string, string>)

  const VERSION_INFO_KEY := "version_info|CLUSTER_VERSION_INFO"

  /** A decoded message; `lastChecked` is None when the date does not parse. */
  datatype Message = Message(
    org: OrgId, cluster: Cluster, report: string, hits: seq<Hit>, info: seq<InfoItem>,
    lastChecked: Option<Time>, gatheredAt: Option<Time>)

  /** The shared tables and one instance's clustersLastChecked. */
  datatype Store = Store(tables: Tables, cache: map<Cluster, Time>)

  /** Which database calls fail; `begin` also stands for an unsupported driver. */
  datatype OrgFaults = OrgFaults(begin: bool, check: set<TableId>, update: set<TableId>, commit: bool)
  datatype WriteFaults = WriteFaults(
    begin: bool, freshness: bool, lookup: bool, delete: bool, insert: bool, upsert: bool, commit: bool)
  datatype RecFaults = RecFaults(decode: bool, begin: bool, lookup: bool, delete: bool, insert: bool, commit: bool)
  datatype InfoFaults = InfoFaults(begin: bool, upsert: bool, commit: bool)

  /** A failed UPDATE aborts its transaction, which then cannot commit, although the code goes on to try. */
  predicate FailureAborts(f: OrgFaults)
  {
    f.update == {} || f.commit
  }

  /** Everything about one storeInDB call that the message and the tables do not determine. */
  datatype Env = Env(
    org: OrgFaults, marshal: bool, write: WriteFaults, rec: RecFaults, info: InfoFaults,
    storedAt: Time, clock: nat -> Time)

  /** What the reads of one storeInDB call returned. */
  datatype Answers = Answers(current: Option<OrgId>, created: map<string, Time>, impacted: map<string, Time>)

  /** How reading the report rows goes: at most `rows` of them arrive, and `scan` says that the next one fails
      to scan; without it the iteration ends early and nobody notices. */
  datatype InitFaults = InitFaults(query: bool, rows: nat, scan: bool, close: bool)

  /** The cache after reading the report rows of the clusters in `read`: the database wins over what was cached. */
  function Loaded(cache: map<Cluster, Time>, report: map<Cluster, ReportRow>, read: set<Cluster>): map<Cluster, Time>
  {
    cache + map c | c in report && c in read :: report[c].lastChecked
  }

  // ---------------------------------------------------------------------------
  // Moving the cluster to its organization
  // ---------------------------------------------------------------------------

  const TABLES_TO_CHECK: seq<TableId> := [Report, Recommendation, ReportInfo]
  const TABLES_TO_UPDATE: seq<TableId> :=
    [Report, Recommendation, ReportInfo, RuleHit, RuleToggle, UserFeedback, DisableFeedback]

  /** The check reaches a failing query before it finds a row. */
  ghost predicate CheckFails(t: Tables, c: Cluster, ids: seq<TableId>, failing: set<TableId>)
  {
    exists i :: 0 <= i < |ids| && ids[i] in failing && forall j :: 0 <= j < i ==> !HasRows(t, ids[j], c)
  }

  /** `current` is the organization of a row of the first table that has one. */
  ghost predicate IsCurrentOrg(t: Tables, c: Cluster, ids: seq<TableId>, current: Option<OrgId>)
  {
    match current
    case None => forall i :: 0 <= i < |ids| ==> !HasRows(t, ids[i], c)
    case Some(org) =>
      exists i :: 0 <= i < |ids| && HasOrg(t, ids[i], c, org) && forall j :: 0 <= j < i ==> !HasRows(t, ids[j], c)
  }

  predicate Updates(id: TableId, ids: set<TableId>, failing: set<TableId>)
  {
    id in ids && id !in failing
  }

  /** The tables after UPDATE on those in `ids`; failing or colliding updates leave their table alone. */
  ghost function MoveTables(t: Tables, c: Cluster, org: OrgId, ids: set<TableId>, failing: set<TableId>): Tables
  {
    Tables(
      if Updates(Report, ids, failing) then MoveReport(t.report, c, org) else t.report,
      if Updates(RuleHit, ids, failing) && CanMove(t.hits, c, org) then Move(t.hits, c, org) else t.hits,
      if Updates(Recommendation, ids, failing) && CanMove(t.recs, c, org) then Move(t.recs, c, org) else t.recs,
      if Updates(ReportInfo, ids, failing) then MoveInfo(t.info, c, org) else t.info,
      if Updates(RuleToggle, ids, failing) then MoveUsers(t.toggles, c, org) else t.toggles,
      if Updates(UserFeedback, ids, failing) then MoveUsers(t.feedback, c, org) else t.feedback,
      if Updates(DisableFeedback, ids, failing) then MoveUsers(t.disables, c, org) else t.disables)
  }

  const ALL_TABLES: set<TableId> :=
    {Report, Recommendation, ReportInfo, RuleHit, RuleToggle, UserFeedback, DisableFeedback}

  ghost function MoveAll(t: Tables, c: Cluster, org: OrgId, failing: set<TableId>): Tables
  {
    MoveTables(t, c, org, ALL_TABLES, failing)
  }

  ghost predicate OrgAnswer(t: Tables, c: Cluster, f: OrgFaults, current: Option<OrgId>)
  {
    f.begin || CheckFails(t, c, TABLES_TO_CHECK, f.check) || IsCurrentOrg(t, c, TABLES_TO_CHECK, current)
  }

  datatype Moved = Moved(tables: Tables, ok: bool)

  /** No query or commit of the org transaction fails. */
  ghost predicate OrgStepWorks(t: Tables, c: Cluster, f: OrgFaults)
  {
    !f.begin && !CheckFails(t, c, TABLES_TO_CHECK, f.check) && !f.commit
  }

  /** UpdateOrgIDForCluster. */
  ghost function MoveOrg(t: Tables, c: Cluster, org: OrgId, f: OrgFaults, current: Option<OrgId>): Moved
  {
    if !OrgStepWorks(t, c, f) then Moved(t, false)
    else if current.None? || current.value == org then Moved(t, true)
    else Moved(MoveAll(t, c, org, f.update), true)
  }

  // ---------------------------------------------------------------------------
  // Reading the times recorded earlier
  // ---------------------------------------------------------------------------

  function CreatedTimes(t: map<Key<Rule>, HitRow>): map<Key<Rule>, Option<Time>>
  {
    map k | k in t :: t[k].createdAt
  }

  function ImpactedTimes(t: map<Key<Rule>, RecommendationRow>): map<Key<Rule>, Option<Time>>
  {
    map k | k in t :: t[k].impactedSince
  }

  /** `m` is what getRuleKeyCreatedAtMap can return: rows with a NULL time are skipped, and rows whose
      module and error key concatenate to the same string overwrite one another. */
  ghost predicate IsLookup(m: map<string, Time>, times: map<Key<Rule>, Option<Time>>, org: OrgId, c: Cluster)
  {
    && (forall s :: s in m ==> exists k :: k in times && k.org == org && k.cluster == c && LookupKey(k.id) == s
                                           && times[k].Some? && m[s] == ToSecond(times[k].value))
    && (forall k :: k in times && k.org == org && k.cluster == c && times[k].Some? ==> LookupKey(k.id) in m)
  }

  // ---------------------------------------------------------------------------
  // Writing the report
  // ---------------------------------------------------------------------------

  datatype WriteOutcome = Accepted | Discarded | OldReport | Failed

  datatype Written = Written(store: Store, outcome: WriteOutcome)

  /** The instance has already seen a report at least as new. */
  predicate RefusedByCache(cache: map<Cluster, Time>, c: Cluster, last: Time)
  {
    c in cache && last <= cache[c]
  }

  /** The database has a newer report of the cluster under this organization. */
  predicate NewerInDb(t: Tables, org: OrgId, c: Cluster, last: Time)
  {
    c in t.report && t.report[c].org == org && t.report[c].lastChecked > last
  }

  /** The call gets as far as reading the creation times. */
  predicate ReadsCreated(s: Store, m: Message, last: Time, f: WriteFaults)
  {
    !RefusedByCache(s.cache, m.cluster, last) && !f.begin && !f.freshness
    && !NewerInDb(s.tables, m.org, m.cluster, last) && !f.lookup
  }

  /** The instance or the database knows the report to be out of date. */
  predicate IsStale(s: Store, m: Message, last: Time)
  {
    RefusedByCache(s.cache, m.cluster, last) || NewerInDb(s.tables, m.org, m.cluster, last)
  }

  predicate RulesDistinct(hits: seq<Hit>)
  {
    forall i, j :: 0 <= i < j < |hits| ==> hits[i].rule != hits[j].rule
  }

  /** No statement of the report transaction fails; reading the earlier times may. */
  predicate StatementsWork(m: Message, f: WriteFaults)
  {
    && !f.begin && !f.freshness && !f.delete && !f.upsert
    && (m.hits != [] ==> !f.insert && RulesDistinct(m.hits))
  }

  /** updateReport: None when a statement fails. */
  ghost function UpdateReport(t: Tables, m: Message, last: Time, e: Env, created: map<string, Time>): Option<Tables>
  {
    var f := e.write;
    var kept := DeleteFor(t.hits, m.org, m.cluster);
    var rows := HitRows(m.org, m.cluster, m.hits, if f.lookup then map[] else created, e.clock);
    if f.delete || (m.hits != [] && (f.insert || !CanInsert(kept, rows))) || f.upsert then None
    else Some(t.(hits := Insert(kept, rows),
                 report := t.report[m.cluster := ReportRow(m.org, m.report, e.storedAt, last, m.gatheredAt)]))
  }

  /** WriteReportForCluster. The cache is set before the commit. */
  ghost function WriteReport(s: Store, m: Message, last: Time, e: Env, created: map<string, Time>): Written
  {
    var f := e.write;
    if RefusedByCache(s.cache, m.cluster, last) then Written(s, OldReport)
    else if f.begin || f.freshness then Written(s, Failed)
    else if NewerInDb(s.tables, m.org, m.cluster, last) then Written(s, if f.commit then Failed else Discarded)
    else
      match UpdateReport(s.tables, m, last, e, created)
      case None => Written(s, Failed)
      case Some(t) =>
        var cache := s.cache[m.cluster := last];
        if f.commit then Written(Store(s.tables, cache), Failed) else Written(Store(t, cache), Accepted)
  }

  // ---------------------------------------------------------------------------
  // Writing the recommendations
  // ---------------------------------------------------------------------------

  predicate ReadsImpacted(s: Store, c: Cluster, f: RecFaults)
  {
    !f.decode && !f.begin && c in s.cache && !f.lookup
  }

  /** WriteRecommendationsForCluster: earlier rows are deleted only if the cache knows the cluster. */
  ghost function WriteRecommendations(s: Store, m: Message, e: Env, impacted: map<string, Time>): Option<Store>
  {
    var f := e.rec;
    var known := m.cluster in s.cache;
    var kept := if known then DeleteFor(s.tables.recs, m.org, m.cluster) else s.tables.recs;
    var rows := RecommendationRows(m.org, m.cluster, m.hits, ToSecond(e.storedAt),
                                   if known && !f.lookup then impacted else map[]);
    if f.decode || f.begin || (known && f.delete) || (m.hits != [] && (f.insert || !CanInsert(kept, rows))) || f.commit
    then None
    else Some(s.(tables := s.tables.(recs := Insert(kept, rows))))
  }

  // ---------------------------------------------------------------------------
  // Writing the info report
  // ---------------------------------------------------------------------------

  function VersionOf(item: InfoItem): string
  {
    if "version" in item.details then item.details["version"] else ""
  }

  /** The version of the last version-info item, if any. */
  function LastVersion(info: seq<InfoItem>): Option<string>
  {
    if info == [] then None
    else if info[|info| - 1].infoId == VERSION_INFO_KEY then Some(VersionOf(info[|info| - 1]))
    else LastVersion(info[..|info| - 1])
  }

  /** WriteReportInfoForCluster. */
  ghost function WriteInfo(s: Store, m: Message, f: InfoFaults): Option<Store>
  {
    var version := LastVersion(m.info);
    if f.begin || (version.Some? && f.upsert) || f.commit then None
    else if version.None? then Some(s)
    else Some(s.(tables := s.tables.(info := s.tables.info[m.cluster := InfoRow(m.org, version.value)])))
  }

  // ---------------------------------------------------------------------------
  // The whole protocol
  // ---------------------------------------------------------------------------

  /** Result of storeInDB: the store it leaves, whether it returned nil, and what became of the report. */
  datatype StoreResult = StoreResult(store: Store, ok: bool, report: WriteOutcome)

  ghost function MovedStore(s: Store, m: Message, e: Env, a: Answers): Store
  {
    s.(tables := MoveOrg(s.tables, m.cluster, m.org, e.org, a.current).tables)
  }

  /** The protocol reaches the report write: the move succeeded, the date parses, the report marshals. */
  ghost predicate ReachesReport(s: Store, m: Message, e: Env, a: Answers)
  {
    MoveOrg(s.tables, m.cluster, m.org, e.org, a.current).ok && m.lastChecked.Some? && !e.marshal
  }

  ghost function ReportWritten(s: Store, m: Message, e: Env, a: Answers): Written
    requires m.lastChecked.Some?
  {
    WriteReport(MovedStore(s, m, e, a), m, m.lastChecked.value, e, a.created)
  }

  /** storeInDB of the OCP processor: a stale report is swallowed and the later stages still run. */
  ghost function StoreInDb(s: Store, m: Message, e: Env, a: Answers): StoreResult
  {
    if !ReachesReport(s, m, e, a) then StoreResult(MovedStore(s, m, e, a), false, Failed)
    else
      var w := ReportWritten(s, m, e, a);
      if w.outcome == Failed then StoreResult(w.store, false, Failed)
      else
        match WriteRecommendations(w.store, m, e, a.impacted)
        case None => StoreResult(w.store, false, w.outcome)
        case Some(s2) =>
          match WriteInfo(s2, m, e.info)
          case None => StoreResult(s2, false, w.outcome)
          case Some(s3) => StoreResult(s3, true, w.outcome)
  }

  /** The answers are ones the database could give during this call. */
  ghost predicate PossibleAnswers(s: Store, m: Message, e: Env, a: Answers)
  {
    && OrgAnswer(s.tables, m.cluster, e.org, a.current)
    && (ReachesReport(s, m, e, a) ==>
          var moved := MovedStore(s, m, e, a);
          && (ReadsCreated(moved, m, m.lastChecked.value, e.write) ==>
                IsLookup(a.created, CreatedTimes(moved.tables.hits), m.org, m.cluster))
          && var w := ReportWritten(s, m, e, a);
             w.outcome != Failed && ReadsImpacted(w.store, m.cluster, e.rec) ==>
               IsLookup(a.impacted, ImpactedTimes(w.store.tables.recs), m.org, m.cluster))
  }
}
