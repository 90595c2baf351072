/**
 The OCP storage: a shared database and the in-memory timestamps of one
 instance, written one transaction at a time, and the consumer's storeInDB.
 */
module OcpStorage {
  import opened Options
  import opened Timeline
  import opened Schema
  import opened Inserts
  import opened Protocol

  class Database {
    var tables: Tables

    constructor (tables: Tables)
      ensures this.tables == tables
    {
      this.tables := tables;
    }
  }

  /** checkOrgIDForCluster's query on one table: the organization of some row. */
  method SelectOrg(t: Tables, id: TableId, c: Cluster) returns (org: Option<OrgId>)
    ensures org.Some? ==> HasOrg(t, id, c, org.value)
    ensures org.None? ==> !HasRows(t, id, c)
  {
    match id {
      case Report => org := if c in t.report then Some(t.report[c].org) else None;
      case ReportInfo => org := if c in t.info then Some(t.info[c].org) else None;
      case Recommendation => org := SelectKeyOrg(t.recs, c);
      case RuleHit => org := SelectKeyOrg(t.hits, c);
      case RuleToggle => org := SelectUserOrg(t.toggles, c);
      case UserFeedback => org := SelectUserOrg(t.feedback, c);
      case DisableFeedback => org := SelectUserOrg(t.disables, c);
    }
  }

  method SelectKeyOrg<V>(t: map<Key<Rule>, V>, c: Cluster) returns (org: Option<OrgId>)
    ensures org.Some? ==> exists k :: k in t && k.cluster == c && k.org == org.value
    ensures org.None? ==> forall k :: k in t ==> k.cluster != c
  {
    if k :| k in t && k.cluster == c {
      return Some(k.org);
    }
    return None;
  }

  method SelectUserOrg(t: map<UserKey, OrgId>, c: Cluster) returns (org: Option<OrgId>)
    ensures org.Some? ==> exists k :: k in t && k.cluster == c && t[k] == org.value
    ensures org.None? ==> forall k :: k in t ==> k.cluster != c
  {
    if k :| k in t && k.cluster == c {
      return Some(t[k]);
    }
    return None;
  }

  /** checkOrgIDForCluster. */
  method CheckOrgIdForCluster(t: Tables, c: Cluster, ids: seq<TableId>, failing: set<TableId>)
    returns (err: bool, current: Option<OrgId>)
    ensures err <==> CheckFails(t, c, ids, failing)
    ensures !err ==> IsCurrentOrg(t, c, ids, current)
  {
    for i := 0 to |ids|
      invariant forall j :: 0 <= j < i ==> !HasRows(t, ids[j], c) && ids[j] !in failing
    {
      if ids[i] in failing {
        return true, None;
      }
      current := SelectOrg(t, ids[i], c);
      if current.Some? {
        assert HasRows(t, ids[i], c);
        return false, current;
      }
    }
    return false, None;
  }

  ghost function Elements(ids: seq<TableId>): set<TableId>
  {
    set id | id in ids
  }

  lemma TablesToUpdate()
    ensures forall i, j :: 0 <= i < j < |TABLES_TO_UPDATE| ==> TABLES_TO_UPDATE[i] != TABLES_TO_UPDATE[j]
    ensures Elements(TABLES_TO_UPDATE) == ALL_TABLES
  {
    var ids := TABLES_TO_UPDATE;
    assert ids[0] in ids && ids[1] in ids && ids[2] in ids && ids[3] in ids && ids[4] in ids && ids[5] in ids && ids[6] in ids;
  }

  /** One more UPDATE, on a table not updated yet. */
  lemma MoveOneMore(t: Tables, c: Cluster, org: OrgId, done: set<TableId>, id: TableId, failing: set<TableId>)
    requires id !in done
    ensures var tx := MoveTables(t, c, org, done, failing);
            MoveTables(t, c, org, done + {id}, failing) ==
              if id in failing || MoveTable(tx, id, c, org).None? then tx else MoveTable(tx, id, c, org).value
  {
    if id in failing {
      SkipOne(t, c, org, done, id, failing);
    } else {
      UpdateOne(t, c, org, done, id, failing);
    }
  }

  lemma SkipOne(t: Tables, c: Cluster, org: OrgId, done: set<TableId>, id: TableId, failing: set<TableId>)
    requires id in failing
    ensures MoveTables(t, c, org, done + {id}, failing) == MoveTables(t, c, org, done, failing)
  {
    AllUpdatesStep(done, id, failing);
  }

  lemma UpdateOne(t: Tables, c: Cluster, org: OrgId, done: set<TableId>, id: TableId, failing: set<TableId>)
    requires id !in done && id !in failing
    ensures var tx := MoveTables(t, c, org, done, failing);
            MoveTables(t, c, org, done + {id}, failing) ==
              if MoveTable(tx, id, c, org).None? then tx else MoveTable(tx, id, c, org).value
  {
    AllUpdatesStep(done, id, failing);
  }

  lemma AllUpdatesStep(done: set<TableId>, id: TableId, failing: set<TableId>)
    ensures forall other ::
              Updates(other, done + {id}, failing) <==> Updates(other, done, failing) || (other == id && id !in failing)
  {
    forall other
      ensures Updates(other, done + {id}, failing) <==> Updates(other, done, failing) || (other == id && id !in failing) {
      UpdatesStep(other, done, id, failing);
    }
  }

  lemma UpdatesStep(other: TableId, done: set<TableId>, id: TableId, failing: set<TableId>)
    ensures Updates(other, done + {id}, failing) <==> Updates(other, done, failing) || (other == id && id !in failing)
  {
  }

  /** updateOrgIDInTables: an update that fails is skipped and the loop goes on. */
  method UpdateOrgIdInTables(t: Tables, org: OrgId, c: Cluster, ids: seq<TableId>, failing: set<TableId>)
    returns (tx: Tables)
    requires forall i, j :: 0 <= i < j < |ids| ==> ids[i] != ids[j]
    ensures tx == MoveTables(t, c, org, Elements(ids), failing)
  {
    tx := t;
    ghost var done: set<TableId> := {};
    for i := 0 to |ids|
      invariant forall id :: id in done <==> id in ids[..i]
      invariant tx == MoveTables(t, c, org, done, failing)
    {
      MoveOneMore(t, c, org, done, ids[i], failing);
      done := done + {ids[i]};
      if ids[i] in failing {
        continue;
      }
      var moved := MoveTable(tx, ids[i], c, org);
      if moved.Some? {
        tx := moved.value;
      }
    }
    assert done == Elements(ids);
  }

  /** The cache has the stored time of the clusters read and what it had of the others. */
  predicate IsLoaded(cache': map<Cluster, Time>, cache: map<Cluster, Time>, report: map<Cluster, ReportRow>, read: set<Cluster>)
  {
    && read <= report.Keys && cache'.Keys == cache.Keys + read
    && forall c :: c in cache' ==> cache'[c] == if c in read then report[c].lastChecked else cache[c]
  }

  /** The same while reading: the other rows are still to come. */
  predicate IsReading(cache': map<Cluster, Time>, cache: map<Cluster, Time>, report: map<Cluster, ReportRow>,
                      read: set<Cluster>, rows: set<Cluster>)
  {
    rows <= report.Keys && read == report.Keys - rows && IsLoaded(cache', cache, report, read)
  }

  lemma NothingRead(cache: map<Cluster, Time>, report: map<Cluster, ReportRow>)
    ensures IsReading(cache, cache, report, {}, report.Keys)
  {
  }

  lemma LoadOneMore(cache': map<Cluster, Time>, cache: map<Cluster, Time>, report: map<Cluster, ReportRow>,
                    read: set<Cluster>, rows: set<Cluster>, c: Cluster)
    requires IsReading(cache', cache, report, read, rows) && c in rows
    ensures IsReading(cache'[c := report[c].lastChecked], cache, report, read + {c}, rows - {c})
    ensures |read + {c}| == |read| + 1
  {
    assert read + {c} == report.Keys - (rows - {c}) && c !in read;
    CacheOne(cache', cache, report, read, c);
  }

  lemma CacheOne(cache': map<Cluster, Time>, cache: map<Cluster, Time>, report: map<Cluster, ReportRow>,
                 read: set<Cluster>, c: Cluster)
    requires IsLoaded(cache', cache, report, read) && c in report
    ensures IsLoaded(cache'[c := report[c].lastChecked], cache, report, read + {c})
  {
  }

  /** The cache Init leaves is that of a loading instance in a run. */
  lemma LoadedMeaning(cache': map<Cluster, Time>, cache: map<Cluster, Time>, report: map<Cluster, ReportRow>, read: set<Cluster>)
    requires IsLoaded(cache', cache, report, read)
    ensures cache' == Loaded(cache, report, read)
  {
  }

  lemma Unread(all: set<Cluster>, rows: set<Cluster>)
    requires rows <= all
    ensures |all - rows| == |all| - |rows|
    ensures rows != {} ==> |rows| > 0
  {
    assert all == (all - rows) + rows;
  }

  /** getRuleKeyCreatedAtMap: rows in whatever order they arrive. */
  method GetRuleKeyCreatedAtMap(times: map<Key<Rule>, Option<Time>>, org: OrgId, c: Cluster)
    returns (m: map<string, Time>)
    ensures IsLookup(m, times, org, c)
  {
    m := map[];
    var rows := set k | k in times && k.org == org && k.cluster == c;
    var done := {};
    while rows != {}
      invariant forall k :: k in times && k.org == org && k.cluster == c <==> k in rows || k in done
      invariant forall s :: s in m ==> exists k :: k in done && LookupKey(k.id) == s
                                                   && times[k].Some? && m[s] == ToSecond(times[k].value)
      invariant forall k :: k in done && times[k].Some? ==> LookupKey(k.id) in m
      decreases |rows|
    {
      var row :| row in rows;
      rows, done := rows - {row}, done + {row};
      if times[row].None? {
        continue;
      }
      ghost var before := m;
      m := m[LookupKey(row.id) := ToSecond(times[row].value)];
      assert forall s :: s in m && s != LookupKey(row.id) ==> s in before && m[s] == before[s];
    }
  }

  class Storage {
    const db: Database
    var clustersLastChecked: map<Cluster, Time>

    /** A new instance; its cache starts empty until Init. */
    constructor (db: Database)
      ensures this.db == db && clustersLastChecked == map[]
    {
      this.db := db;
      clustersLastChecked := map[];
    }

    ghost function State(): Store
      reads this, db
    {
      Store(db.tables, clustersLastChecked)
    }

    /** Init: reads cluster and last_checked_at of the report rows, as far as they arrive. An error leaves what was
        read in the cache; an iteration that ends early is no error. */
    method Init(f: InitFaults) returns (ok: bool, ghost read: set<Cluster>)
      modifies this
      ensures IsLoaded(clustersLastChecked, old(clustersLastChecked), db.tables.report, read)
      ensures |read| == if f.query then 0 else if f.rows < |db.tables.report| then f.rows else |db.tables.report|
      ensures ok <==> !f.query && !f.close && (f.scan ==> f.rows >= |db.tables.report|)
    {
      read := {};
      if f.query {
        return false, read;
      }
      ghost var before := clustersLastChecked;
      var report := db.tables.report;
      var rows, n := report.Keys, 0;
      NothingRead(before, report);
      while rows != {} && n < f.rows
        invariant IsReading(clustersLastChecked, before, report, read, rows)
        invariant n == |read| <= f.rows
        decreases |rows|
      {
        var c :| c in rows;
        LoadOneMore(clustersLastChecked, before, report, read, rows, c);
        clustersLastChecked := clustersLastChecked[c := report[c].lastChecked];
        rows, read, n := rows - {c}, read + {c}, n + 1;
      }
      Unread(report.Keys, rows);
      if rows != {} && f.scan {
        return false, read;
      }
      ok := !f.close;
    }

    /** UpdateOrgIDForCluster. */
    method UpdateOrgIdForCluster(org: OrgId, c: Cluster, f: OrgFaults) returns (ok: bool, ghost current: Option<OrgId>)
      modifies db
      ensures OrgAnswer(old(db.tables), c, f, current)
      ensures Moved(db.tables, ok) == MoveOrg(old(db.tables), c, org, f, current)
    {
      current := None;
      if f.begin {
        return false, current;
      }
      var tx := db.tables;
      var err, found := CheckOrgIdForCluster(tx, c, TABLES_TO_CHECK, f.check);
      current := found;
      if err {
        return false, current;
      }
      if found.Some? && found.value != org {
        TablesToUpdate();
        tx := UpdateOrgIdInTables(tx, org, c, TABLES_TO_UPDATE, f.update);
      }
      if f.commit {
        return false, current;
      }
      db.tables := tx;
      ok := true;
    }

    /** WriteReportForCluster. */
    method WriteReportForCluster(m: Message, last: Time, e: Env) returns (outcome: WriteOutcome, ghost created: map<string, Time>)
      modifies this, db
      ensures ReadsCreated(old(State()), m, last, e.write) ==>
                IsLookup(created, CreatedTimes(old(db.tables.hits)), m.org, m.cluster)
      ensures Written(State(), outcome) == WriteReport(old(State()), m, last, e, created)
    {
      created := map[];
      if m.cluster in clustersLastChecked && last <= clustersLastChecked[m.cluster] {
        return OldReport, created;
      }
      if e.write.begin || e.write.freshness {
        return Failed, created;
      }
      var tx := db.tables;
      if NewerInDb(tx, m.org, m.cluster, last) {
        return if e.write.commit then Failed else Discarded, created;
      }
      var ok;
      ok, tx, created := UpdateReportInTx(tx, m, last, e);
      if !ok {
        return Failed, created;
      }
      clustersLastChecked := clustersLastChecked[m.cluster := last];
      if e.write.commit {
        return Failed, created;
      }
      db.tables := tx;
      return Accepted, created;
    }

    /** updateReport: the statements of the transaction, in order. */
    static method UpdateReportInTx(t: Tables, m: Message, last: Time, e: Env)
      returns (ok: bool, tx: Tables, ghost created: map<string, Time>)
      ensures !e.write.lookup ==> IsLookup(created, CreatedTimes(t.hits), m.org, m.cluster)
      ensures UpdateReport(t, m, last, e, created) == if ok then Some(tx) else None
    {
      tx := t;
      var earlier: map<string, Time> := map[];
      created := map[];
      if !e.write.lookup {
        earlier := GetRuleKeyCreatedAtMap(CreatedTimes(t.hits), m.org, m.cluster);
        created := earlier;
      }
      if e.write.delete {
        return false, tx, created;
      }
      tx := tx.(hits := DeleteFor(tx.hits, m.org, m.cluster));
      if |m.hits| > 0 {
        var rows := BuildHitRows(m.org, m.cluster, m.hits, earlier, e.clock);
        if e.write.insert || !CanInsert(tx.hits, rows) {
          return false, tx, created;
        }
        tx := tx.(hits := Insert(tx.hits, rows));
      } else {
        assert Insert(tx.hits, HitRows(m.org, m.cluster, m.hits, earlier, e.clock)) == tx.hits;
      }
      if e.write.upsert {
        return false, tx, created;
      }
      tx := tx.(report := tx.report[m.cluster := ReportRow(m.org, m.report, e.storedAt, last, m.gatheredAt)]);
      return true, tx, created;
    }

    /** insertRecommendations: nothing for a report without hits. */
    static method InsertRecommendations(recs: map<Key<Rule>, RecommendationRow>, m: Message, e: Env, earlier: map<string, Time>)
      returns (ok: bool, r: map<Key<Rule>, RecommendationRow>)
      ensures var rows := RecommendationRows(m.org, m.cluster, m.hits, ToSecond(e.storedAt), earlier);
              if m.hits != [] && (e.rec.insert || !CanInsert(recs, rows)) then !ok
              else ok && CanInsert(recs, rows) && r == Insert(recs, rows)
    {
      if |m.hits| == 0 {
        assert Insert(recs, RecommendationRows(m.org, m.cluster, m.hits, ToSecond(e.storedAt), earlier)) == recs;
        return true, recs;
      }
      ToSecondIdempotent(e.storedAt);
      var rows := BuildRecommendationRows(m.org, m.cluster, m.hits, ToSecond(e.storedAt), earlier);
      if e.rec.insert || !CanInsert(recs, rows) {
        return false, recs;
      }
      return true, Insert(recs, rows);
    }

    /** WriteRecommendationsForCluster. */
    method WriteRecommendationsForCluster(m: Message, e: Env) returns (ok: bool, ghost impacted: map<string, Time>)
      modifies db
      ensures ReadsImpacted(old(State()), m.cluster, e.rec) ==>
                IsLookup(impacted, ImpactedTimes(old(db.tables.recs)), m.org, m.cluster)
      ensures clustersLastChecked == old(clustersLastChecked)
      ensures match WriteRecommendations(old(State()), m, e, impacted)
              case None => !ok && db.tables == old(db.tables)
              case Some(s) => ok && State() == s
    {
      impacted := map[];
      if e.rec.decode || e.rec.begin {
        return false, impacted;
      }
      var recs := db.tables.recs;
      var earlier: map<string, Time> := map[];
      if m.cluster in clustersLastChecked {
        if !e.rec.lookup {
          earlier := GetRuleKeyCreatedAtMap(ImpactedTimes(recs), m.org, m.cluster);
          impacted := earlier;
        }
        if e.rec.delete {
          return false, impacted;
        }
        recs := DeleteFor(recs, m.org, m.cluster);
      }
      ok, recs := InsertRecommendations(recs, m, e, earlier);
      if !ok {
        return false, impacted;
      }
      if e.rec.commit {
        return false, impacted;
      }
      db.tables := db.tables.(recs := recs);
    }

    /** WriteReportInfoForCluster: upserts the version of every version-info item, in order. */
    method WriteReportInfoForCluster(m: Message, f: InfoFaults) returns (ok: bool)
      modifies db
      ensures clustersLastChecked == old(clustersLastChecked)
      ensures match WriteInfo(old(State()), m, f)
              case None => !ok && db.tables == old(db.tables)
              case Some(s) => ok && State() == s
    {
      if f.begin {
        return false;
      }
      var tx := db.tables;
      for i := 0 to |m.info|
        invariant f.upsert ==> LastVersion(m.info[..i]).None?
        invariant tx == if LastVersion(m.info[..i]).None? then old(db.tables)
                        else old(db.tables).(info := old(db.tables.info)[m.cluster :=
                               InfoRow(m.org, LastVersion(m.info[..i]).value)])
      {
        assert m.info[..i + 1][..i] == m.info[..i];
        if m.info[i].infoId != VERSION_INFO_KEY {
          continue;
        }
        if f.upsert {
          VersionStays(m.info, i + 1);
          return false;
        }
        tx := tx.(info := tx.info[m.cluster := InfoRow(m.org, VersionOf(m.info[i]))]);
      }
      assert m.info[..|m.info|] == m.info;
      if f.commit {
        return false;
      }
      db.tables := tx;
      ok := true;
    }
  }

  lemma {:induction false} VersionStays(info: seq<InfoItem>, n: nat)
    requires n <= |info| && LastVersion(info[..n]).Some?
    ensures LastVersion(info).Some?
  {
    if n < |info| {
      assert info[..|info| - 1][..n] == info[..n];
      VersionStays(info[..|info| - 1], n);
    } else {
      assert info[..n] == info;
    }
  }

  /** storeInDB of the OCP processor. */
  method StoreMessage(storage: Storage, m: Message, e: Env) returns (ok: bool, ghost a: Answers, ghost report: WriteOutcome)
    modifies storage, storage.db
    ensures PossibleAnswers(old(storage.State()), m, e, a)
    ensures StoreResult(storage.State(), ok, report) == StoreInDb(old(storage.State()), m, e, a)
  {
    a := Answers(None, map[], map[]);
    report := Failed;
    var moved;
    ghost var current;
    moved, current := storage.UpdateOrgIdForCluster(m.org, m.cluster, e.org);
    a := a.(current := current);
    if !moved {
      return false, a, report;
    }
    if m.lastChecked.None? || e.marshal {
      return false, a, report;
    }
    var outcome;
    ghost var created;
    outcome, created := storage.WriteReportForCluster(m, m.lastChecked.value, e);
    a := a.(created := created);
    report := outcome;
    if outcome == Failed {
      return false, a, report;
    }
    ghost var impacted;
    ok, impacted := storage.WriteRecommendationsForCluster(m, e);
    a := a.(impacted := impacted);
    if !ok {
      return false, a, report;
    }
    ok := storage.WriteReportInfoForCluster(m, e.info);
  }
}
