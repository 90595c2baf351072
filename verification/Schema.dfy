/**
 The tables of the OCP database as finite maps keyed by their primary keys, and
 the effect of the SQL statements on them.
 */
module Schema {
  import opened Options
  import opened Timeline

  type OrgId = nat
  type Cluster = string

  /** A rule hit is identified by a module (rule FQDN) and an error key. */
  datatype Rule = Rule(fqdn: string, key: string)

  /** Primary key (org_id, cluster_id, ...) of rule_hit, recommendation and dvo_report. */
  datatype Key<D> = Key(org: OrgId, cluster: Cluster, id: D)

  datatype HitRow = HitRow(templateData: string, createdAt: Option<Time>)

  datatype RecommendationRow = RecommendationRow(ruleId: string, createdAt: Option<Time>, impactedSince: Option<Time>)

  /** `cluster` is UNIQUE in report and report_info, so the cluster alone is the key. */
  datatype ReportRow = ReportRow(org: OrgId, report: string, reportedAt: Time, lastChecked: Time, gatheredAt: Option<Time>)

  datatype InfoRow = InfoRow(org: OrgId, version: string)

  /** Key of the user tables; org_id is not part of it. */
  datatype UserKey = UserKey(cluster: Cluster, rest: string)

  datatype Tables = Tables(
    report: map<Cluster, ReportRow>,
    hits: map<Key<Rule>, HitRow>,
    recs: map<Key<Rule>, RecommendationRow>,
    info: map<Cluster, InfoRow>,
    toggles: map<UserKey, OrgId>,
    feedback: map<UserKey, OrgId>,
    disables: map<UserKey, OrgId>)

  datatype TableId = Report | Recommendation | ReportInfo | RuleHit | RuleToggle | UserFeedback | DisableFeedback

  // ---------------------------------------------------------------------------
  // DELETE FROM t WHERE org_id = org AND cluster_id = c
  // ---------------------------------------------------------------------------

  function DeleteFor<D(==), V>(t: map<Key<D>, V>, org: OrgId, c: Cluster): map<Key<D>, V>
  {
    map k | k in t && !(k.org == org && k.cluster == c) :: t[k]
  }

  // ---------------------------------------------------------------------------
  // The times stored for a cluster, seen as one report with unknown predecessors
  // ---------------------------------------------------------------------------

  ghost predicate TimesKnown<D(!new)>(times: map<Key<D>, Option<Time>>, c: Cluster)
  {
    forall k :: k in times && k.cluster == c ==> times[k].Some?
  }

  ghost function StoredIds<D(!new)>(times: map<Key<D>, Option<Time>>, c: Cluster): set<D>
  {
    set k | k in times && k.cluster == c && times[k].Some? :: k.id
  }

  ghost function StoredTime<D(!new)>(times: map<Key<D>, Option<Time>>, c: Cluster, d: D): Time
    requires d in StoredIds(times, c)
  {
    var k :| k in times && k.cluster == c && times[k].Some? && k.id == d;
    times[k].value
  }

  ghost function StoredTimes<D(!new)>(times: map<Key<D>, Option<Time>>, c: Cluster): map<D, Time>
  {
    map d | d in StoredIds(times, c) :: StoredTime(times, c, d)
  }

  ghost function AtStart<D(!new)>(times: map<Key<D>, Option<Time>>, c: Cluster): History<D>
  {
    [Entry(StoredTimes(times, c), false)]
  }

  /** If all rows of the cluster are under one organization, the history keeps exactly their times. */
  lemma StoredKept<D(!new)>(times: map<Key<D>, Option<Time>>, c: Cluster, org: OrgId)
    requires TimesKnown(times, c) && forall k :: k in times && k.cluster == c ==> k.org == org
    ensures forall k :: k in times && k.cluster == c ==>
                          InLast(AtStart(times, c), k.id) && times[k] == Some(Kept(AtStart(times, c), k.id))
    ensures forall d :: InLast(AtStart(times, c), d) ==> exists k :: k in times && k.cluster == c && k.id == d
  {
    forall k | k in times && k.cluster == c
      ensures k.id in StoredTimes(times, c) && StoredTimes(times, c)[k.id] == times[k].value {
      forall l | l in times && l.cluster == c && l.id == k.id ensures l == k {
        assert l.org == org == k.org;
      }
    }
  }

  // ---------------------------------------------------------------------------
  // Multi-row INSERT
  // ---------------------------------------------------------------------------

  /** No row violates the primary key, neither against the table nor against another row. */
  predicate CanInsert<K(==), V>(t: map<K, V>, rows: seq<(K, V)>)
  {
    && (forall i :: 0 <= i < |rows| ==> rows[i].0 !in t)
    && (forall i, j :: 0 <= i < j < |rows| ==> rows[i].0 != rows[j].0)
  }

  function AsMap<K(==), V>(rows: seq<(K, V)>): (m: map<K, V>)
    requires forall i, j :: 0 <= i < j < |rows| ==> rows[i].0 != rows[j].0
    ensures forall i :: 0 <= i < |rows| ==> rows[i].0 in m && m[rows[i].0] == rows[i].1
    ensures forall k :: k in m ==> exists i :: 0 <= i < |rows| && rows[i].0 == k
  {
    map i | 0 <= i < |rows| :: rows[i].0 := rows[i].1
  }

  function Insert<K(==), V>(t: map<K, V>, rows: seq<(K, V)>): map<K, V>
    requires CanInsert(t, rows)
  {
    t + AsMap(rows)
  }

  // ---------------------------------------------------------------------------
  // UPDATE t SET org_id = org WHERE cluster_id = c
  // ---------------------------------------------------------------------------

  function MoveKey<D>(k: Key<D>, c: Cluster, org: OrgId): Key<D>
  {
    if k.cluster == c then k.(org := org) else k
  }

  /** The update keeps primary keys distinct. */
  predicate CanMove<D(==), V>(t: map<Key<D>, V>, c: Cluster, org: OrgId)
  {
    forall k, l :: k in t && l in t && MoveKey(k, c, org) == MoveKey(l, c, org) ==> k == l
  }

  function Move<D(==), V>(t: map<Key<D>, V>, c: Cluster, org: OrgId): map<Key<D>, V>
    requires CanMove(t, c, org)
  {
    map k | k in t :: MoveKey(k, c, org) := t[k]
  }

  /** The rows of `t'` are those of `t`, the cluster's under `org` and all other columns as before. */
  ghost predicate Rehomed<D(!new), V>(t: map<Key<D>, V>, t': map<Key<D>, V>, c: Cluster, org: OrgId)
  {
    && (forall k :: k in t && k.cluster != c ==> k in t' && t'[k] == t[k])
    && (forall k :: k in t && k.cluster == c ==> Key(org, c, k.id) in t' && t'[Key(org, c, k.id)] == t[k])
    && (forall l :: l in t' && l.cluster != c ==> l in t)
    && (forall l :: l in t' && l.cluster == c ==> l.org == org && exists k :: k in t && k.cluster == c && k.id == l.id)
  }

  function MoveReport(t: map<Cluster, ReportRow>, c: Cluster, org: OrgId): map<Cluster, ReportRow>
  {
    if c in t then t[c := t[c].(org := org)] else t
  }

  function MoveInfo(t: map<Cluster, InfoRow>, c: Cluster, org: OrgId): map<Cluster, InfoRow>
  {
    if c in t then t[c := t[c].(org := org)] else t
  }

  function MoveUsers(t: map<UserKey, OrgId>, c: Cluster, org: OrgId): map<UserKey, OrgId>
  {
    map k | k in t :: if k.cluster == c then org else t[k]
  }

  /** One UPDATE; None when it would violate a primary key. */
  function MoveTable(t: Tables, id: TableId, c: Cluster, org: OrgId): Option<Tables>
  {
    match id
    case Report => Some(t.(report := MoveReport(t.report, c, org)))
    case Recommendation => if CanMove(t.recs, c, org) then Some(t.(recs := Move(t.recs, c, org))) else None
    case ReportInfo => Some(t.(info := MoveInfo(t.info, c, org)))
    case RuleHit => if CanMove(t.hits, c, org) then Some(t.(hits := Move(t.hits, c, org))) else None
    case RuleToggle => Some(t.(toggles := MoveUsers(t.toggles, c, org)))
    case UserFeedback => Some(t.(feedback := MoveUsers(t.feedback, c, org)))
    case DisableFeedback => Some(t.(disables := MoveUsers(t.disables, c, org)))
  }

  // ---------------------------------------------------------------------------
  // SELECT org_id FROM t WHERE cluster = c LIMIT 1
  // ---------------------------------------------------------------------------

  /** The query on table `id` can return `org`. */
  ghost predicate HasOrg(t: Tables, id: TableId, c: Cluster, org: OrgId)
  {
    match id
    case Report => c in t.report && t.report[c].org == org
    case Recommendation => exists k :: k in t.recs && k.cluster == c && k.org == org
    case ReportInfo => c in t.info && t.info[c].org == org
    case RuleHit => exists k :: k in t.hits && k.cluster == c && k.org == org
    case RuleToggle => exists k :: k in t.toggles && k.cluster == c && t.toggles[k] == org
    case UserFeedback => exists k :: k in t.feedback && k.cluster == c && t.feedback[k] == org
    case DisableFeedback => exists k :: k in t.disables && k.cluster == c && t.disables[k] == org
  }

  ghost predicate HasRows(t: Tables, id: TableId, c: Cluster)
  {
    exists org :: HasOrg(t, id, c, org)
  }
}
