/**
 The DVO storage and the DVO processor's storeInDB.
 */
module DvoStorage {
  import opened Options
  import opened Timeline
  import opened Schema
  import opened DvoAggregates
  import opened DvoProtocol
  import Sums

  class Database {
    var table: Table

    constructor (table: Table)
      ensures this.table == table
    {
      this.table := table;
    }
  }

  /** getReportedAtMap. */
  method GetReportedAtMap(t: Table, org: OrgId, c: Cluster) returns (m: map<string, Time>)
    ensures IsReportedAt(m, t, org, c)
  {
    m := map[];
    var rows := set k | k in t && k.org == org && k.cluster == c;
    while rows != {}
      invariant forall k :: k in rows ==> k in t && k.org == org && k.cluster == c
      invariant forall ns :: ns in m ==> Key(org, c, ns) in t && t[Key(org, c, ns)].reportedAt.Some?
                                         && m[ns] == ToSecond(t[Key(org, c, ns)].reportedAt.value)
      invariant forall k :: k in t && k.org == org && k.cluster == c && t[k].reportedAt.Some? ==> k in rows || k.id in m
      decreases |rows|
    {
      var row :| row in rows;
      rows := rows - {row};
      if t[row].reportedAt.None? {
        continue;
      }
      assert row == Key(org, c, row.id);
      m := m[row.id := ToSecond(t[row].reportedAt.value)];
    }
  }

  lemma EmptySummary(compose: Composer)
    ensures Summarises(Aggregates(map[], map[], map[], map[]), [], compose)
  {
  }

  /** updateReport: one INSERT per namespace, in whatever order Go visits the map. */
  method UpdateReportInTx(t: Table, m: DvoMessage, last: Time, e: DvoEnv, ghost a0: DvoAnswers)
    returns (ok: bool, tx: Table, ghost a: DvoAnswers)
    ensures SameKeys(a.agg) && a.current == a0.current
    ensures !e.write.lookup ==> IsReportedAt(a.reportedAt, t, m.org, m.cluster)
    ensures !e.write.delete ==> Summarises(a.agg, m.recs, e.compose)
    ensures UpdateReport(t, m, last, e, a) == if ok then Some(tx) else None
  {
    tx := t;
    var earlier: map<string, Time> := map[];
    a := DvoAnswers(a0.current, map[], Aggregates(map[], map[], map[], map[]));
    if !e.write.lookup {
      earlier := GetReportedAtMap(t, m.org, m.cluster);
      a := a.(reportedAt := earlier);
    }
    if e.write.delete {
      return false, tx, a;
    }
    tx := DeleteFor(tx, m.org, m.cluster);
    EmptySummary(e.compose);
    if |m.recs| == 0 {
      assert tx + NewRows(a.agg, m, last, e, earlier) == tx;
      return true, tx, a;
    }
    var agg := MapWorkloadRecommendations(m.recs, e.compose);
    a := a.(agg := agg);
    ok, tx := InsertNamespaces(tx, m, last, e, earlier, agg);
  }

  lemma AddThenUpdate<K, V>(t: map<K, V>, rows: map<K, V>, k: K, v: V)
    ensures (t + rows)[k := v] == t + rows[k := v]
  {
  }

  /** The rows of the namespaces in `done`. */
  ghost function RowsFor(done: set<string>, agg: Aggregates, m: DvoMessage, last: Time, e: DvoEnv,
                         earlier: map<string, Time>): Table
    requires SameKeys(agg) && done <= agg.names.Keys
  {
    map ns | ns in done :: Key(m.org, m.cluster, ns) := RowOf(agg, ns, m, last, e, earlier)
  }

  lemma RowsForOneMore(done: set<string>, ns: string, agg: Aggregates, m: DvoMessage, last: Time, e: DvoEnv,
                       earlier: map<string, Time>)
    requires SameKeys(agg) && done <= agg.names.Keys && ns in agg.names
    ensures RowsFor(done + {ns}, agg, m, last, e, earlier) ==
            RowsFor(done, agg, m, last, e, earlier)[Key(m.org, m.cluster, ns) := RowOf(agg, ns, m, last, e, earlier)]
  {
  }

  lemma InsertOneMore(t: Table, done: set<string>, ns: string, agg: Aggregates, m: DvoMessage, last: Time, e: DvoEnv,
                      earlier: map<string, Time>)
    requires SameKeys(agg) && done <= agg.names.Keys && ns in agg.names && ns !in done
    requires forall k :: k in t ==> !(k.org == m.org && k.cluster == m.cluster)
    ensures var tx, k := t + RowsFor(done, agg, m, last, e, earlier), Key(m.org, m.cluster, ns);
            k !in tx && tx[k := RowOf(agg, ns, m, last, e, earlier)] == t + RowsFor(done + {ns}, agg, m, last, e, earlier)
  {
    RowsForOneMore(done, ns, agg, m, last, e, earlier);
    AddThenUpdate(t, RowsFor(done, agg, m, last, e, earlier), Key(m.org, m.cluster, ns),
                  RowOf(agg, ns, m, last, e, earlier));
  }

  lemma NoRowsYet(t: Table, agg: Aggregates, m: DvoMessage, last: Time, e: DvoEnv, earlier: map<string, Time>)
    requires SameKeys(agg)
    ensures t + RowsFor({}, agg, m, last, e, earlier) == t
  {
    assert RowsFor({}, agg, m, last, e, earlier) == map[];
  }

  lemma AllRows(agg: Aggregates, m: DvoMessage, last: Time, e: DvoEnv, earlier: map<string, Time>)
    requires SameKeys(agg)
    ensures RowsFor(agg.names.Keys, agg, m, last, e, earlier) == NewRows(agg, m, last, e, earlier)
  {
  }

  /** The INSERT loop; the assertion says that no insert can violate the primary key. */
  method InsertNamespaces(t: Table, m: DvoMessage, last: Time, e: DvoEnv, earlier: map<string, Time>, agg: Aggregates)
    returns (ok: bool, tx: Table)
    requires SameKeys(agg)
    requires forall k :: k in t ==> !(k.org == m.org && k.cluster == m.cluster)
    ensures ok <==> !(e.write.insert && agg.names != map[])
    ensures ok ==> tx == t + NewRows(agg, m, last, e, earlier)
  {
    tx := t;
    var pending := agg.names.Keys;
    ghost var all := pending;
    Sums.AllTaken(all);
    NoRowsYet(t, agg, m, last, e, earlier);
    while pending != {}
      invariant pending <= all
      invariant e.write.insert ==> pending == all
      invariant tx == t + RowsFor(all - pending, agg, m, last, e, earlier)
      decreases |pending|
    {
      var ns :| ns in pending;
      if e.write.insert {
        return false, tx;
      }
      Sums.TakeOne(all, pending, ns);
      InsertOneMore(t, all - pending, ns, agg, m, last, e, earlier);
      assert Key(m.org, m.cluster, ns) !in tx;
      tx := tx[Key(m.org, m.cluster, ns) := RowOf(agg, ns, m, last, e, earlier)];
      pending := pending - {ns};
    }
    AllRows(agg, m, last, e, earlier);
    ok := true;
  }

  class Storage {
    const db: Database
    var clustersLastChecked: map<Cluster, Time>

    constructor (db: Database)
      ensures this.db == db && clustersLastChecked == map[]
    {
      this.db := db;
      clustersLastChecked := map[];
    }

    ghost function State(): DvoStore
      reads this, db
    {
      DvoStore(db.table, clustersLastChecked)
    }

    /** UpdateOrgIDForCluster. */
    method UpdateOrgIdForCluster(org: OrgId, c: Cluster, f: DvoOrgFaults) returns (ok: bool, ghost current: Option<OrgId>)
      modifies db
      ensures OrgAnswer(old(db.table), c, f, current)
      ensures Moved(db.table, ok) == MoveOrg(old(db.table), c, org, f, current)
    {
      current := None;
      if f.begin || f.check {
        return false, current;
      }
      var tx := db.table;
      var found: Option<OrgId> := None;
      if k :| k in tx && k.cluster == c {
        found := Some(k.org);
      }
      current := found;
      if found.Some? && found.value != org && !f.update && CanMove(tx, c, org) {
        tx := Move(tx, c, org);
      }
      if f.commit {
        return false, current;
      }
      db.table := tx;
      ok := true;
    }

    /** WriteReportForCluster. */
    method WriteReportForCluster(m: DvoMessage, last: Time, e: DvoEnv, ghost a0: DvoAnswers)
      returns (outcome: WriteOutcome, ghost a: DvoAnswers)
      modifies this, db
      ensures SameKeys(a.agg) && a.current == a0.current
      ensures ReadsReportedAt(old(State()), m, last, e.write) ==> IsReportedAt(a.reportedAt, old(db.table), m.org, m.cluster)
      ensures AggregatesReport(old(State()), m, last, e.write) ==> Summarises(a.agg, m.recs, e.compose)
      ensures Written(State(), outcome) == WriteReport(old(State()), m, last, e, a)
    {
      a := DvoAnswers(a0.current, map[], Aggregates(map[], map[], map[], map[]));
      if m.cluster in clustersLastChecked && last <= clustersLastChecked[m.cluster] {
        return OldReport, a;
      }
      if e.write.begin || e.write.freshness {
        return Failed, a;
      }
      var tx := db.table;
      if NewerInDb(tx, m.org, m.cluster, last) {
        return if e.write.commit then Failed else Discarded, a;
      }
      var ok;
      ok, tx, a := UpdateReportInTx(tx, m, last, e, a0);
      if !ok {
        return Failed, a;
      }
      clustersLastChecked := clustersLastChecked[m.cluster := last];
      if e.write.commit {
        return Failed, a;
      }
      db.table := tx;
      return Accepted, a;
    }
  }

  /** storeInDB of the DVO processor. */
  method StoreMessage(storage: Storage, m: DvoMessage, e: DvoEnv)
    returns (ok: bool, ghost a: DvoAnswers, ghost report: WriteOutcome)
    modifies storage, storage.db
    ensures PossibleAnswers(old(storage.State()), m, e, a)
    ensures StoreResult(storage.State(), ok, report) == StoreInDb(old(storage.State()), m, e, a)
  {
    a := DvoAnswers(None, map[], Aggregates(map[], map[], map[], map[]));
    report := Failed;
    var moved;
    ghost var current;
    moved, current := storage.UpdateOrgIdForCluster(m.org, m.cluster, e.org);
    a := a.(current := current);
    if !moved || m.lastChecked.None? || e.marshal {
      return false, a, report;
    }
    var outcome;
    outcome, a := storage.WriteReportForCluster(m, m.lastChecked.value, e, a);
    report := outcome;
    ok := outcome != Failed;
  }
}
