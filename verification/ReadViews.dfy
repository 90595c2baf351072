/**
 The two read views of the recommendation table: clusters per rule, and rules
 per cluster. They are transposes of each other.
 */
module ReadViews {
  import opened Options
  import opened Timeline
  import opened Schema
  import opened Inserts
  import opened Protocol
  import opened SingleOrg
  import opened Mirror
  import opened Runs
  import opened CreationTimes
  import Selectors
  import Sums

  type Recommendations = map<Key<Rule>, RecommendationRow>

  /** The rows of cluster `c` under rule ID `r`. */
  ghost function RowsOf(recs: Recommendations, org: OrgId, c: Cluster, r: string): set<Key<Rule>>
  {
    set k | k in recs && k.org == org && k.cluster == c && recs[k].ruleId == r
  }

  /** Number of times `x` occurs in the list stored under `k`. */
  function Count(m: map<string, seq<string>>, k: string, x: string): nat
  {
    if k in m then multiset(m[k])[x] else 0
  }

  lemma CountAppend(m: map<string, seq<string>>, k: string, x: string)
    ensures var m' := m[k := (if k in m then m[k] else []) + [x]];
            forall j, y :: Count(m', j, y) == Count(m, j, y) + (if j == k && y == x then 1 else 0)
  {
  }

  /** The part of `rows` that counts for (c, r). */
  ghost function Among(recs: Recommendations, rows: set<Key<Rule>>, c: Cluster, r: string): set<Key<Rule>>
    requires rows <= recs.Keys
  {
    set k | k in rows && k.cluster == c && recs[k].ruleId == r
  }

  lemma AmongAdd(recs: Recommendations, rows: set<Key<Rule>>, k: Key<Rule>)
    requires rows <= recs.Keys && k in recs && k !in rows
    ensures forall c, r :: |Among(recs, rows + {k}, c, r)| ==
                           |Among(recs, rows, c, r)| + (if c == k.cluster && r == recs[k].ruleId then 1 else 0)
  {
    forall c, r ensures |Among(recs, rows + {k}, c, r)| ==
                        |Among(recs, rows, c, r)| + (if c == k.cluster && r == recs[k].ruleId then 1 else 0) {
      assert Among(recs, rows + {k}, c, r) ==
             Among(recs, rows, c, r) + (if c == k.cluster && r == recs[k].ruleId then {k} else {});
    }
  }

  /** The lists of `m`, keyed by rule ID, count the rows. */
  ghost predicate CountsByRule(m: map<string, seq<string>>, recs: Recommendations, rows: set<Key<Rule>>)
    requires rows <= recs.Keys
  {
    forall r, c :: Count(m, r, c) == |Among(recs, rows, c, r)|
  }

  lemma CountByRuleStep(m: map<string, seq<string>>, recs: Recommendations, rows: set<Key<Rule>>, k: Key<Rule>)
    requires rows <= recs.Keys && k in recs && k !in rows && CountsByRule(m, recs, rows)
    ensures var r := recs[k].ruleId;
            CountsByRule(m[r := (if r in m then m[r] else []) + [k.cluster]], recs, rows + {k})
  {
    AmongAdd(recs, rows, k);
    CountAppend(m, recs[k].ruleId, k.cluster);
  }

  /** The view by rule: each requested cluster is listed once per recommendation row it has under the rule. */
  ghost predicate IsByRule(m: map<string, seq<Cluster>>, recs: Recommendations, clusters: seq<Cluster>, org: OrgId)
  {
    forall r, c :: Count(m, r, c) == if c in clusters then |RowsOf(recs, org, c, r)| else 0
  }

  lemma AllCounted(m: map<string, seq<Cluster>>, recs: Recommendations, clusters: seq<Cluster>, org: OrgId)
    requires CountsByRule(m, recs, set k | k in recs && k.org == org && k.cluster in clusters)
    ensures IsByRule(m, recs, clusters, org)
  {
    var done := set k | k in recs && k.org == org && k.cluster in clusters;
    forall r, c ensures Count(m, r, c) == if c in clusters then |RowsOf(recs, org, c, r)| else 0 {
      assert Count(m, r, c) == |Among(recs, done, c, r)|;
      if c in clusters {
        assert Among(recs, done, c, r) == RowsOf(recs, org, c, r);
      } else {
        assert Among(recs, done, c, r) == {};
      }
    }
  }

  lemma NothingCounted(recs: Recommendations)
    ensures CountsByRule(map[], recs, {})
  {
    assert forall c, r :: Among(recs, {}, c, r) == {};
  }

  /** ReadRecommendationsForClusters: rows arrive in any order. */
  method ReadRecommendationsForClusters(recs: Recommendations, clusters: seq<Cluster>, org: OrgId)
    returns (impacted: map<string, seq<Cluster>>)
    ensures IsByRule(impacted, recs, clusters, org)
  {
    impacted := map[];
    if |clusters| < 1 {
      return;
    }
    var rows := set k | k in recs && k.org == org && k.cluster in clusters;
    ghost var all := rows;
    NothingCounted(recs);
    Sums.AllTaken(all);
    while rows != {}
      invariant rows <= all
      invariant CountsByRule(impacted, recs, all - rows)
      decreases |rows|
    {
      var k :| k in rows;
      Sums.TakeOne(all, rows, k);
      CountByRuleStep(impacted, recs, all - rows, k);
      rows := rows - {k};
      var r := recs[k].ruleId;
      impacted := impacted[r := (if r in impacted then impacted[r] else []) + [k.cluster]];
    }
    AllCounted(impacted, recs, clusters, org);
  }

  /** One entry of the cluster list. */
  datatype ClusterEntry = ClusterEntry(createdAt: Time, recommendations: seq<string>, version: string)

  type ClusterMap = map<Cluster, ClusterEntry>

  /** A row of report LEFT JOIN recommendation: a match, or the '' sentinel of a report without one. */
  datatype JoinRow = Match(k: Key<Rule>) | NoMatch(c: Cluster)

  function ClusterOf(row: JoinRow): Cluster
  {
    match row
    case Match(k) => k.cluster
    case NoMatch(c) => c
  }

  /** The report rows the query asks for. */
  predicate Requested(t: Tables, clusters: seq<Cluster>, org: OrgId, c: Cluster)
  {
    c in clusters && c in t.report && t.report[c].org == org
  }

  function Join(t: Tables, clusters: seq<Cluster>, org: OrgId): set<JoinRow>
  {
    (set k | k in t.recs && k.org == org && Requested(t, clusters, org, k.cluster) :: Match(k))
    + (set c | c in t.report && Requested(t, clusters, org, c) && (forall k :: k in t.recs ==> !(k.org == org && k.cluster == c))
         :: NoMatch(c))
  }

  function Lists(m: ClusterMap): map<string, seq<string>>
  {
    map c | c in m :: m[c].recommendations
  }

  /** Entries as the row loop creates them: the report's last_checked_at and no version yet. */
  ghost predicate Fresh(m: ClusterMap, report: map<Cluster, ReportRow>)
  {
    forall c :: c in m ==> c in report && m[c].createdAt == report[c].lastChecked && m[c].version == ""
  }

  /** The lists of `m`, keyed by cluster, count the matched rows; an empty rule ID is never listed. */
  ghost predicate CountsByCluster(m: ClusterMap, recs: Recommendations, rows: set<Key<Rule>>)
    requires rows <= recs.Keys
  {
    forall c, r :: Count(Lists(m), c, r) == if r == "" then 0 else |Among(recs, rows, c, r)|
  }

  /** Adds one row to the map, as the loop of ReadClusterListRecommendations does. */
  method AddJoinRow(t: Tables, m: ClusterMap, row: JoinRow, ghost rows: set<Key<Rule>>) returns (r: ClusterMap)
    requires row.Match? ==> row.k in t.recs && row.k !in rows
    requires ClusterOf(row) in t.report
    requires rows <= t.recs.Keys && Fresh(m, t.report) && CountsByCluster(m, t.recs, rows)
    ensures r.Keys == m.Keys + {ClusterOf(row)} && Fresh(r, t.report)
    ensures CountsByCluster(r, t.recs, if row.Match? then rows + {row.k} else rows)
  {
    r := m;
    var cluster := ClusterOf(row);
    var ruleId := if row.Match? then t.recs[row.k].ruleId else "";
    if cluster !in r {
      r := r[cluster := ClusterEntry(t.report[cluster].lastChecked, [], "")];
    }
    EmptyListCounts(m, cluster, r);
    assert CountsByCluster(r, t.recs, rows);
    ghost var before := r;
    if ruleId != "" {
      r := r[cluster := r[cluster].(recommendations := r[cluster].recommendations + [ruleId])];
    }
    ListRow(before, t.recs, rows, cluster, ruleId, row);
  }

  /** Listing the rule ID of a row, unless it is empty, keeps the counts. */
  lemma ListRow(m: ClusterMap, recs: Recommendations, rows: set<Key<Rule>>, c: Cluster, ruleId: string, row: JoinRow)
    requires rows <= recs.Keys && CountsByCluster(m, recs, rows) && c in m && c == ClusterOf(row)
    requires row.Match? ==> row.k in recs && row.k !in rows
    requires ruleId == if row.Match? then recs[row.k].ruleId else ""
    ensures var m' := if ruleId != "" then m[c := m[c].(recommendations := m[c].recommendations + [ruleId])] else m;
            CountsByCluster(m', recs, if row.Match? then rows + {row.k} else rows)
  {
    ListAppend(m, c, ruleId);
    if row.Match? {
      AmongAdd(recs, rows, row.k);
    }
  }

  lemma ListAppend(m: ClusterMap, c: Cluster, x: string)
    requires c in m
    ensures var m' := m[c := m[c].(recommendations := m[c].recommendations + [x])];
            forall d, y :: Count(Lists(m'), d, y) == Count(Lists(m), d, y) + (if d == c && y == x then 1 else 0)
  {
    CountAppend(Lists(m), c, x);
    var m' := m[c := m[c].(recommendations := m[c].recommendations + [x])];
    assert Lists(m') == Lists(m)[c := Lists(m)[c] + [x]];
  }

  lemma EmptyListCounts(m: ClusterMap, cluster: Cluster, r: ClusterMap)
    requires cluster in r
    requires r == m || (cluster !in m && r == m[cluster := r[cluster]] && r[cluster].recommendations == [])
    ensures forall c, x :: Count(Lists(r), c, x) == Count(Lists(m), c, x)
  {
  }

  /** The view by cluster: every requested cluster with a report appears, if only with an empty list. */
  ghost predicate IsByCluster(m: ClusterMap, t: Tables, clusters: seq<Cluster>, org: OrgId)
  {
    && (forall c :: c in m <==> c in clusters && c in t.report && t.report[c].org == org)
    && (forall c :: c in m ==> m[c].createdAt == t.report[c].lastChecked)
    && (forall c, r :: c in m ==> Count(Lists(m), c, r) == if r == "" then 0 else |RowsOf(t.recs, org, c, r)|)
  }

  /** ReadClusterListRecommendations. */
  method ReadClusterListRecommendations(t: Tables, clusters: seq<Cluster>, org: OrgId, versionsFail: bool)
    returns (m: ClusterMap)
    ensures IsByCluster(m, t, clusters, org)
    ensures forall c :: c in m ==>
              m[c].version == if !versionsFail && c in t.info && t.info[c].org == org then t.info[c].version else ""
  {
    m := map[];
    if |clusters| < 1 {
      return;
    }
    var collected := CollectJoin(t, clusters, org);
    m := FillInMetadata(collected, t.info, org, versionsFail);
    assert Lists(m) == Lists(collected);
  }

  /** The row loop of ReadClusterListRecommendations. */
  method CollectJoin(t: Tables, clusters: seq<Cluster>, org: OrgId) returns (m: ClusterMap)
    ensures IsByCluster(m, t, clusters, org) && Fresh(m, t.report)
  {
    m := map[];
    var rows := Join(t, clusters, org);
    m := CollectRows(t, rows);
    JoinComplete(t, clusters, org, m);
  }

  method CollectRows(t: Tables, all: set<JoinRow>) returns (m: ClusterMap)
    requires RowsExist(t, all)
    ensures Collected(m, t, all)
  {
    m := map[];
    var rows := all;
    NothingCollected(t);
    Sums.AllTaken(all);
    while rows != {}
      invariant rows <= all
      invariant Collected(m, t, all - rows)
      decreases |rows|
    {
      var row :| row in rows;
      Sums.TakeOne(all, rows, row);
      m := CollectRow(t, m, row, all - rows);
      rows := rows - {row};
    }
  }

  /** The rows a join can have: matches of existing recommendations, of clusters with a report. */
  predicate RowsExist(t: Tables, rows: set<JoinRow>)
  {
    forall row :: row in rows ==> ClusterOf(row) in t.report && (row.Match? ==> row.k in t.recs)
  }

  /** The map after the rows in `done`. */
  ghost predicate Collected(m: ClusterMap, t: Tables, done: set<JoinRow>)
  {
    && m.Keys == ClustersOf(done) && MatchedOf(done) <= t.recs.Keys
    && Fresh(m, t.report) && CountsByCluster(m, t.recs, MatchedOf(done))
  }

  lemma NothingCollected(t: Tables)
    ensures Collected(map[], t, {})
  {
    assert forall c, r :: Among(t.recs, {}, c, r) == {};
  }

  method CollectRow(t: Tables, m: ClusterMap, row: JoinRow, ghost done: set<JoinRow>) returns (r: ClusterMap)
    requires RowsExist(t, {row}) && row !in done && Collected(m, t, done)
    ensures Collected(r, t, done + {row})
  {
    assert row in {row};
    JoinRowStep(t, done, row);
    r := AddJoinRow(t, m, row, MatchedOf(done));
  }

  ghost function ClustersOf(rows: set<JoinRow>): set<Cluster>
  {
    set row | row in rows :: ClusterOf(row)
  }

  /** The matches among `rows`. */
  ghost function MatchedOf(rows: set<JoinRow>): set<Key<Rule>>
  {
    set row | row in rows && row.Match? :: row.k
  }

  lemma JoinRowStep(t: Tables, done: set<JoinRow>, row: JoinRow)
    requires row.Match? ==> row.k in t.recs
    requires row !in done && MatchedOf(done) <= t.recs.Keys
    ensures row.Match? ==> row.k !in MatchedOf(done)
    ensures ClustersOf(done + {row}) == ClustersOf(done) + {ClusterOf(row)}
    ensures MatchedOf(done + {row}) == if row.Match? then MatchedOf(done) + {row.k} else MatchedOf(done)
    ensures MatchedOf(done + {row}) <= t.recs.Keys
  {
  }

  lemma JoinComplete(t: Tables, clusters: seq<Cluster>, org: OrgId, m: ClusterMap)
    requires Collected(m, t, Join(t, clusters, org))
    ensures IsByCluster(m, t, clusters, org)
  {
    var matched := MatchedOf(Join(t, clusters, org));
    forall c ensures c in m <==> Requested(t, clusters, org, c) {
      JoinCovers(t, clusters, org, c);
    }
    forall c, r | c in m ensures Among(t.recs, matched, c, r) == RowsOf(t.recs, org, c, r) {
      assert Requested(t, clusters, org, c);
      forall k | k in RowsOf(t.recs, org, c, r) ensures k in matched {
        assert Match(k) in Join(t, clusters, org);
      }
    }
  }

  /** The join has a row for exactly the requested clusters. */
  lemma JoinCovers(t: Tables, clusters: seq<Cluster>, org: OrgId, c: Cluster)
    ensures (exists row :: row in Join(t, clusters, org) && ClusterOf(row) == c) <==> Requested(t, clusters, org, c)
  {
    if Requested(t, clusters, org, c) {
      if k :| k in t.recs && k.org == org && k.cluster == c {
        assert Match(k) in Join(t, clusters, org);
      } else {
        assert NoMatch(c) in Join(t, clusters, org);
      }
    }
  }

  /** fillInMetadata: changes versions only, no key and no list. */
  method FillInMetadata(m: ClusterMap, info: map<Cluster, InfoRow>, org: OrgId, fails: bool) returns (r: ClusterMap)
    ensures r.Keys == m.Keys
    ensures forall c :: c in m ==> r[c].recommendations == m[c].recommendations && r[c].createdAt == m[c].createdAt
    ensures forall c :: c in m ==>
              r[c].version == if !fails && c in info && info[c].org == org then info[c].version else m[c].version
  {
    r := m;
    if fails {
      return;
    }
    var rows := set c | c in m && c in info && info[c].org == org;
    ghost var all := rows;
    while rows != {}
      invariant rows <= all && r.Keys == m.Keys
      invariant forall c :: c in m ==> r[c].recommendations == m[c].recommendations && r[c].createdAt == m[c].createdAt
      invariant forall c :: c in m ==> r[c].version == if c in all && c !in rows then info[c].version else m[c].version
      decreases |rows|
    {
      var c :| c in rows;
      r := r[c := r[c].(version := info[c].version)];
      rows := rows - {c};
    }
  }

  // ---------------------------------------------------------------------------
  // The transpose law
  // ---------------------------------------------------------------------------

  /** Every recommendation's rule_id is its rule FQDN and error key. */
  ghost predicate RuleIdsExact(recs: Recommendations)
  {
    forall k :: k in recs ==> recs[k].ruleId == RuleIdOf(k.id)
  }

  /** For every requested cluster with a report, the count of the cluster under a rule in one view is the count
      of the rule under the cluster in the other; the '' sentinel hides no rule. */
  lemma ViewsAreTransposes(byRule: map<string, seq<Cluster>>, byCluster: ClusterMap, t: Tables, clusters: seq<Cluster>,
                           org: OrgId)
    requires RuleIdsExact(t.recs)
    requires IsByRule(byRule, t.recs, clusters, org) && IsByCluster(byCluster, t, clusters, org)
    ensures forall c, r :: c in byCluster ==> Count(byRule, r, c) == Count(Lists(byCluster), c, r)
  {
    forall c, r | c in byCluster ensures Count(byRule, r, c) == Count(Lists(byCluster), c, r) {
      assert Requested(t, clusters, org, c);
      if r == "" {
        NoEmptyRuleId(t.recs, org, c);
      }
    }
  }

  lemma NoEmptyRuleId(recs: Recommendations, org: OrgId, c: Cluster)
    requires RuleIdsExact(recs)
    ensures RowsOf(recs, org, c, "") == {}
  {
    forall k | k in recs ensures recs[k].ruleId != "" {
      assert recs[k].ruleId == RuleIdOf(k.id);
      assert |RuleIdOf(k.id)| > 0;
    }
  }

  /** One rule in the two views: while no module holds a bar, a cluster lists a rule once or not at all, and lists it
      exactly if it has the row. */
  lemma ListedOnce(byRule: map<string, seq<Cluster>>, byCluster: ClusterMap, t: Tables, clusters: seq<Cluster>, org: OrgId,
                   c: Cluster, d: Rule)
    requires RuleIdsExact(t.recs) && '|' !in d.fqdn && forall k :: k in t.recs ==> '|' !in k.id.fqdn
    requires IsByRule(byRule, t.recs, clusters, org) && IsByCluster(byCluster, t, clusters, org)
    ensures Count(byRule, d.fqdn + "|" + d.key, c) == if c in clusters && Key(org, c, d) in t.recs then 1 else 0
    ensures c in byCluster ==>
              Count(Lists(byCluster), c, d.fqdn + "|" + d.key) == if Key(org, c, d) in t.recs then 1 else 0
  {
    var r := RuleIdOf(d);
    assert r == d.fqdn + "|" + d.key && |r| > 0;
    forall k | k in RowsOf(t.recs, org, c, r) ensures k == Key(org, c, d) {
      Selectors.SelectorInjective(k.id, d);
    }
    assert RowsOf(t.recs, org, c, r) == if Key(org, c, d) in t.recs then {Key(org, c, d)} else {};
  }

  /** Nothing else is listed: a rule ID in either view is that of a row of the cluster. */
  lemma ListedAreRows(byRule: map<string, seq<Cluster>>, byCluster: ClusterMap, t: Tables, clusters: seq<Cluster>,
                      org: OrgId, c: Cluster, r: string)
    requires RuleIdsExact(t.recs)
    requires IsByRule(byRule, t.recs, clusters, org) && IsByCluster(byCluster, t, clusters, org)
    requires (r in byRule && c in byRule[r]) || (c in byCluster && r in byCluster[c].recommendations)
    ensures exists d :: Key(org, c, d) in t.recs && r == d.fqdn + "|" + d.key
  {
    assert Count(byRule, r, c) > 0 || Count(Lists(byCluster), c, r) > 0;
    assert RowsOf(t.recs, org, c, r) != {};
    var k :| k in RowsOf(t.recs, org, c, r);
    assert k == Key(org, c, k.id) && r == RuleIdOf(k.id);
  }

  /** Every run keeps rule IDs exact, so the transpose law applies to whatever storeInDB has written. */
  lemma {:induction false} RuleIdsOverRuns(w: World, evs: seq<Event>)
    requires Good(w.tables) && PossibleRun(w, evs) && RuleIdsExact(w.tables.recs)
    ensures RuleIdsExact(Run(w, evs).tables.recs)
  {
    if evs != [] {
      var front, ev := evs[..|evs| - 1], evs[|evs| - 1];
      RuleIdsOverRuns(w, front);
      SingleOrgForever(w, front);
      if ev.Process? {
        RuleIdsKept(StoreOf(Run(w, front), ev.instance), ev.m, ev.e, ev.a);
      }
    }
  }

  lemma RuleIdsKept(s: Store, m: Message, e: Env, a: Answers)
    requires Good(s.tables) && FailureAborts(e.org) && RuleIdsExact(s.tables.recs)
    ensures RuleIdsExact(StoreInDb(s, m, e, a).store.tables.recs)
  {
    MoveOrgTables(s.tables, m.cluster, m.org, e.org, a.current);
    MovedRuleIds(s.tables.recs, m.cluster, m.org);
    RecommendationsLeft(s, m, e, a);
    if CommitsRecommendations(s, m, e, a) {
      ReportKeepsRecommendations(MovedStore(s, m, e, a), m, m.lastChecked.value, e, a.created);
      WrittenRuleIds(ReportWritten(s, m, e, a).store, m, e, a.impacted);
    }
  }

  lemma MovedRuleIds(recs: Recommendations, c: Cluster, org: OrgId)
    requires CanMove(recs, c, org) && RuleIdsExact(recs)
    ensures RuleIdsExact(Move(recs, c, org))
  {
    forall l | l in Move(recs, c, org) ensures Move(recs, c, org)[l].ruleId == RuleIdOf(l.id) {
      var k :| k in recs && MoveKey(k, c, org) == l;
    }
  }

  lemma WrittenRuleIds(s: Store, m: Message, e: Env, impacted: map<string, Time>)
    requires RuleIdsExact(s.tables.recs)
    ensures match WriteRecommendations(s, m, e, impacted)
            case None => true
            case Some(s') => RuleIdsExact(s'.tables.recs)
  {
  }
}
