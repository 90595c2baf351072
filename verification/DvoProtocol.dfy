/**
 The DVO write protocol: one row per affected namespace, replaced as a whole by
 every accepted report, with the namespace's first reported_at carried over.
 */
module DvoProtocol {
  import opened Options
  import opened Timeline
  import opened Schema
  import opened DvoAggregates

  /** A row of dvo_report; `report` holds the decoded report, None when encoding it failed and "{}" was stored. */
  datatype DvoRow = DvoRow(
    name: string, report: Option<seq<Recommendation>>, recommendations: nat, objects: nat,
    reportedAt: Option<Time>, lastChecked: Time, hits: map<string, nat>)

  type Table = map<Key<string>, DvoRow>

  datatype DvoMessage = DvoMessage(org: OrgId, cluster: Cluster, recs: seq<Recommendation>, lastChecked: Option<Time>)

  datatype DvoStore = DvoStore(table: Table, cache: map<Cluster, Time>)

  /** Which database calls fail; `begin` also stands for an unsupported driver. */
  datatype DvoOrgFaults = DvoOrgFaults(begin: bool, check: bool, update: bool, commit: bool)
  datatype DvoWriteFaults = DvoWriteFaults(
    begin: bool, freshness: bool, lookup: bool, delete: bool, encode: bool, insert: bool, commit: bool)

  /** A failed UPDATE aborts its transaction, which then cannot commit. */
  predicate FailureAborts(f: DvoOrgFaults)
  {
    !f.update || f.commit
  }

  datatype DvoEnv = DvoEnv(org: DvoOrgFaults, marshal: bool, write: DvoWriteFaults, compose: Composer)

  /** The organization the LIMIT 1 query returned. */
  ghost predicate IsCurrentOrg(t: Table, c: Cluster, current: Option<OrgId>)
  {
    match current
    case None => forall k :: k in t ==> k.cluster != c
    case Some(org) => exists k :: k in t && k.cluster == c && k.org == org
  }

  ghost predicate OrgAnswer(t: Table, c: Cluster, f: DvoOrgFaults, current: Option<OrgId>)
  {
    f.begin || f.check || IsCurrentOrg(t, c, current)
  }

  datatype Moved = Moved(table: Table, ok: bool)

  /** No query or commit of the org transaction fails. */
  predicate OrgStepWorks(f: DvoOrgFaults)
  {
    !f.begin && !f.check && !f.commit
  }

  /** UpdateOrgIDForCluster: a failing update is skipped, as for the OCP tables. */
  ghost function MoveOrg(t: Table, c: Cluster, org: OrgId, f: DvoOrgFaults, current: Option<OrgId>): Moved
  {
    if !OrgStepWorks(f) then Moved(t, false)
    else if current.None? || current.value == org || f.update || !CanMove(t, c, org) then Moved(t, true)
    else Moved(Move(t, c, org), true)
  }

  /** getReportedAtMap: the known reported_at per namespace, in whole seconds. */
  ghost predicate IsReportedAt(m: map<string, Time>, t: Table, org: OrgId, c: Cluster)
  {
    && (forall ns :: ns in m ==> Key(org, c, ns) in t && t[Key(org, c, ns)].reportedAt.Some?
                                 && m[ns] == ToSecond(t[Key(org, c, ns)].reportedAt.value))
    && (forall k :: k in t && k.org == org && k.cluster == c && t[k].reportedAt.Some? ==> k.id in m)
  }

  datatype WriteOutcome = Accepted | Discarded | OldReport | Failed

  datatype Written = Written(store: DvoStore, outcome: WriteOutcome)

  predicate RefusedByCache(cache: map<Cluster, Time>, c: Cluster, last: Time)
  {
    c in cache && last <= cache[c]
  }

  /** Some row of the cluster under this organization is newer. */
  predicate NewerInDb(t: Table, org: OrgId, c: Cluster, last: Time)
  {
    exists k :: k in t && k.org == org && k.cluster == c && t[k].lastChecked > last
  }

  predicate ReadsReportedAt(s: DvoStore, m: DvoMessage, last: Time, f: DvoWriteFaults)
  {
    !RefusedByCache(s.cache, m.cluster, last) && !f.begin && !f.freshness
    && !NewerInDb(s.table, m.org, m.cluster, last) && !f.lookup
  }

  /** The call gets as far as aggregating the report. */
  predicate AggregatesReport(s: DvoStore, m: DvoMessage, last: Time, f: DvoWriteFaults)
  {
    !RefusedByCache(s.cache, m.cluster, last) && !f.begin && !f.freshness
    && !NewerInDb(s.table, m.org, m.cluster, last) && !f.delete
  }

  /** No statement of the report transaction fails. */
  predicate StatementsWork(m: DvoMessage, f: DvoWriteFaults)
  {
    !f.begin && !f.freshness && !f.delete && (AllWorkloads(m.recs) != [] ==> !f.insert)
  }

  /** The row of one namespace. */
  function RowOf(agg: Aggregates, ns: string, m: DvoMessage, last: Time, e: DvoEnv, earlier: map<string, Time>): DvoRow
    requires ns in agg.names && agg.names.Keys == agg.objects.Keys == agg.recommendations.Keys == agg.hits.Keys
  {
    DvoRow(agg.names[ns], if e.write.encode then None else Some(m.recs), agg.recommendations[ns], agg.objects[ns],
           Some(if ns in earlier then earlier[ns] else last), last, agg.hits[ns])
  }

  function NewRows(agg: Aggregates, m: DvoMessage, last: Time, e: DvoEnv, earlier: map<string, Time>): Table
    requires agg.names.Keys == agg.objects.Keys == agg.recommendations.Keys == agg.hits.Keys
  {
    map ns | ns in agg.names :: Key(m.org, m.cluster, ns) := RowOf(agg, ns, m, last, e, earlier)
  }

  /** What the reads and the aggregation of one call produced. */
  datatype DvoAnswers = DvoAnswers(current: Option<OrgId>, reportedAt: map<string, Time>, agg: Aggregates)

  predicate SameKeys(agg: Aggregates)
  {
    agg.names.Keys == agg.objects.Keys == agg.recommendations.Keys == agg.hits.Keys
  }

  /** updateReport: None when a statement fails. */
  ghost function UpdateReport(t: Table, m: DvoMessage, last: Time, e: DvoEnv, a: DvoAnswers): Option<Table>
    requires SameKeys(a.agg)
  {
    var f := e.write;
    if f.delete || (f.insert && a.agg.names != map[]) then None
    else Some(DeleteFor(t, m.org, m.cluster) + NewRows(a.agg, m, last, e, if f.lookup then map[] else a.reportedAt))
  }

  /** WriteReportForCluster. The cache is set before the commit. */
  ghost function WriteReport(s: DvoStore, m: DvoMessage, last: Time, e: DvoEnv, a: DvoAnswers): Written
    requires SameKeys(a.agg)
  {
    var f := e.write;
    if RefusedByCache(s.cache, m.cluster, last) then Written(s, OldReport)
    else if f.begin || f.freshness then Written(s, Failed)
    else if NewerInDb(s.table, m.org, m.cluster, last) then Written(s, if f.commit then Failed else Discarded)
    else
      match UpdateReport(s.table, m, last, e, a)
      case None => Written(s, Failed)
      case Some(t) =>
        var cache := s.cache[m.cluster := last];
        if f.commit then Written(DvoStore(s.table, cache), Failed) else Written(DvoStore(t, cache), Accepted)
  }

  datatype StoreResult = StoreResult(store: DvoStore, ok: bool, report: WriteOutcome)

  ghost function MovedStore(s: DvoStore, m: DvoMessage, e: DvoEnv, a: DvoAnswers): DvoStore
  {
    s.(table := MoveOrg(s.table, m.cluster, m.org, e.org, a.current).table)
  }

  ghost predicate ReachesReport(s: DvoStore, m: DvoMessage, e: DvoEnv, a: DvoAnswers)
  {
    MoveOrg(s.table, m.cluster, m.org, e.org, a.current).ok && m.lastChecked.Some? && !e.marshal
  }

  /** storeInDB of the DVO processor. */
  ghost function StoreInDb(s: DvoStore, m: DvoMessage, e: DvoEnv, a: DvoAnswers): StoreResult
    requires SameKeys(a.agg)
  {
    var moved := MovedStore(s, m, e, a);
    if !ReachesReport(s, m, e, a) then StoreResult(moved, false, Failed)
    else
      var w := WriteReport(moved, m, m.lastChecked.value, e, a);
      StoreResult(w.store, w.outcome != Failed, w.outcome)
  }

  /** The answers are ones the database could give, and the aggregates those of the message. */
  ghost predicate PossibleAnswers(s: DvoStore, m: DvoMessage, e: DvoEnv, a: DvoAnswers)
  {
    && OrgAnswer(s.table, m.cluster, e.org, a.current)
    && SameKeys(a.agg)
    && (ReachesReport(s, m, e, a) ==>
          var moved := MovedStore(s, m, e, a);
          && (ReadsReportedAt(moved, m, m.lastChecked.value, e.write) ==>
                IsReportedAt(a.reportedAt, moved.table, m.org, m.cluster))
          && (AggregatesReport(moved, m, m.lastChecked.value, e.write) ==> Summarises(a.agg, m.recs, e.compose)))
  }
}
