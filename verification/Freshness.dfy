/**
 A stored report is never replaced by an older one: what holds for one write,
 for sequential runs with org moves, and for interleaved transactions when every
 cluster keeps its organization.
 */
module Freshness {
  import opened Options
  import opened Timeline
  import opened Schema
  import opened Inserts
  import opened Protocol
  import opened SingleOrg
  import opened Mirror
  import opened Runs

  /** Some report of `t` is older, or missing, in `t'`. */
  predicate Lowers(t: map<Cluster, ReportRow>, t': map<Cluster, ReportRow>, c: Cluster)
  {
    c in t && (c !in t' || t'[c].lastChecked < t[c].lastChecked)
  }

  /** No report gets older or lost. */
  ghost predicate NoneLowered(t: map<Cluster, ReportRow>, t': map<Cluster, ReportRow>)
  {
    forall c :: !Lowers(t, t', c)
  }

  // ---------------------------------------------------------------------------
  // One write
  // ---------------------------------------------------------------------------

  /** The rows of a report can be inserted iff its rules are distinct: the earlier rows are deleted first. */
  lemma InsertableExactly(t: map<Key<Rule>, HitRow>, org: OrgId, c: Cluster, hits: seq<Hit>,
                          earlier: map<string, Time>, clock: nat -> Time)
    ensures CanInsert(DeleteFor(t, org, c), HitRows(org, c, hits, earlier, clock)) <==> RulesDistinct(hits)
  {
    var rows := HitRows(org, c, hits, earlier, clock);
    if CanInsert(DeleteFor(t, org, c), rows) {
      forall i, j | 0 <= i < j < |hits| ensures hits[i].rule != hits[j].rule {
        assert rows[i].0 != rows[j].0;
      }
    }
  }

  /** A report is accepted iff it is not known to be stale and no statement and no commit fails. */
  lemma AcceptedExactly(s: Store, m: Message, last: Time, e: Env, created: map<string, Time>)
    ensures WriteReport(s, m, last, e, created).outcome == Accepted <==>
            !IsStale(s, m, last) && StatementsWork(m, e.write) && !e.write.commit
  {
    InsertableExactly(s.tables.hits, m.org, m.cluster, m.hits, if e.write.lookup then map[] else created, e.clock);
  }

  /** A report write lowers a cluster's last_checked_at iff a newer row sits under another organization and
      nothing fails: the freshness query filters by organization, the upsert does not. */
  lemma WriteLowersExactly(s: Store, m: Message, last: Time, e: Env, created: map<string, Time>, c: Cluster)
    ensures Lowers(s.tables.report, WriteReport(s, m, last, e, created).store.tables.report, c) <==>
              && c == m.cluster && c in s.tables.report
              && s.tables.report[c].org != m.org && last < s.tables.report[c].lastChecked
              && !RefusedByCache(s.cache, c, last) && StatementsWork(m, e.write) && !e.write.commit
  {
    AcceptedExactly(s, m, last, e, created);
    if WriteReport(s, m, last, e, created).outcome == Accepted {
      WriteShape(s, m, last, e, created);
    } else {
      RefusedWrite(s, m, last, e, created);
    }
  }

  /** Within one instance a cached timestamp only ever grows. A write sets it, to a strictly larger one, iff
      the report is not stale and no statement fails, even if the commit then does. */
  lemma CacheGrows(s: Store, m: Message, last: Time, e: Env, created: map<string, Time>)
    ensures var cache := WriteReport(s, m, last, e, created).store.cache;
            && (forall c :: c != m.cluster ==> (c in s.cache <==> c in cache) && (c in s.cache ==> cache[c] == s.cache[c]))
            && (if !IsStale(s, m, last) && StatementsWork(m, e.write)
                then m.cluster in cache && cache[m.cluster] == last && (m.cluster in s.cache ==> s.cache[m.cluster] < last)
                else cache == s.cache)
  {
    InsertableExactly(s.tables.hits, m.org, m.cluster, m.hits, if e.write.lookup then map[] else created, e.clock);
  }

  /** The cache may run ahead of the database: a write fails and the same instance then refuses the very report
      it failed to store, iff the write was in order and only its commit failed. */
  lemma RefusedAfterFailedCommit(s: Store, m: Message, last: Time, e: Env, created: map<string, Time>,
                                 e': Env, created': map<string, Time>)
    ensures var w := WriteReport(s, m, last, e, created);
            && (w.outcome == Failed ==> w.store.tables == s.tables)
            && (w.outcome == Failed && WriteReport(w.store, m, last, e', created').outcome == OldReport <==>
                  !IsStale(s, m, last) && StatementsWork(m, e.write) && e.write.commit)
  {
    CacheGrows(s, m, last, e, created);
    AcceptedExactly(s, m, last, e, created);
    if WriteReport(s, m, last, e, created).outcome == Failed {
      RefusedWrite(s, m, last, e, created);
    }
  }

  // ---------------------------------------------------------------------------
  // The whole protocol, one call after another
  // ---------------------------------------------------------------------------

  lemma MoveOrgReport(t: Tables, c: Cluster, org: OrgId, f: OrgFaults, current: Option<OrgId>)
    requires OrgAnswer(t, c, f, current)
    ensures var r := MoveOrg(t, c, org, f, current);
            && r.tables.report.Keys == t.report.Keys
            && (forall d :: d in t.report ==> r.tables.report[d] == t.report[d].(org := r.tables.report[d].org))
            && (forall d :: d in t.report && d != c ==> r.tables.report[d] == t.report[d])
            && (r.ok && c in t.report ==>
                  r.tables.report[c].org == if Report in f.update then t.report[c].org else org)
  {
    var r := MoveOrg(t, c, org, f, current);
    if r.ok && c in t.report {
      assert IsCurrentOrg(t, c, TABLES_TO_CHECK, current);
      MainRows(t, c);
      assert TABLES_TO_CHECK[0] == Report;
      assert HasRows(t, TABLES_TO_CHECK[0], c);
      assert current == Some(t.report[c].org) by {
        if current.Some? {
          var i :| 0 <= i < |TABLES_TO_CHECK| && HasOrg(t, TABLES_TO_CHECK[i], c, current.value)
                   && forall j :: 0 <= j < i ==> !HasRows(t, TABLES_TO_CHECK[j], c);
          assert i == 0;
        }
      }
    }
  }

  /** storeInDB writes the report table in its first two stages only. */
  lemma StoreInDbReport(s: Store, m: Message, e: Env, a: Answers)
    ensures StoreInDb(s, m, e, a).store.tables.report ==
            if ReachesReport(s, m, e, a) then ReportWritten(s, m, e, a).store.tables.report
            else MovedStore(s, m, e, a).tables.report
    ensures StoreInDb(s, m, e, a).store.cache ==
            if ReachesReport(s, m, e, a) then ReportWritten(s, m, e, a).store.cache else s.cache
    ensures StoreInDb(s, m, e, a).report ==
            if ReachesReport(s, m, e, a) then ReportWritten(s, m, e, a).outcome else Failed
  {
    if ReachesReport(s, m, e, a) {
      var w := ReportWritten(s, m, e, a);
      RecommendationFrame(w.store, m, e, a.impacted);
      var r := WriteRecommendations(w.store, m, e, a.impacted);
      if r.Some? {
        InfoFrame(r.value, m, e.info);
      }
    }
  }

  /** storeInDB accepts a report iff its instance has not seen one as new, the database has no newer one of the
      cluster, under whatever organization, and neither the move nor the write fails. */
  lemma StoreInDbAcceptsExactly(s: Store, m: Message, e: Env, a: Answers)
    requires PossibleAnswers(s, m, e, a) && FailureAborts(e.org)
    ensures StoreInDb(s, m, e, a).report == Accepted <==>
            && OrgStepWorks(s.tables, m.cluster, e.org) && m.lastChecked.Some? && !e.marshal
            && !RefusedByCache(s.cache, m.cluster, m.lastChecked.value)
            && (m.cluster in s.tables.report ==> s.tables.report[m.cluster].lastChecked <= m.lastChecked.value)
            && StatementsWork(m, e.write) && !e.write.commit
  {
    MoveOrgReport(s.tables, m.cluster, m.org, e.org, a.current);
    StoreInDbReport(s, m, e, a);
    if ReachesReport(s, m, e, a) {
      AcceptedExactly(MovedStore(s, m, e, a), m, m.lastChecked.value, e, a.created);
    }
  }

  /** storeInDB never makes a report older, whatever the caches, faults and other tables. */
  lemma StoreInDbNeverLowers(s: Store, m: Message, e: Env, a: Answers, c: Cluster)
    requires PossibleAnswers(s, m, e, a) && FailureAborts(e.org)
    ensures !Lowers(s.tables.report, StoreInDb(s, m, e, a).store.tables.report, c)
  {
    StoreInDbLowersExactly(s, m, e, a, c);
  }

  /** Why that needs a database whose failed statements abort their transaction: on any other, storeInDB lowers a
      cluster's last_checked_at iff the report table's update fails in a committed move to another organization
      and an older report then gets through. */
  lemma StoreInDbLowersExactly(s: Store, m: Message, e: Env, a: Answers, c: Cluster)
    requires PossibleAnswers(s, m, e, a)
    ensures Lowers(s.tables.report, StoreInDb(s, m, e, a).store.tables.report, c) <==>
              && OrgStepWorks(s.tables, m.cluster, e.org) && Report in e.org.update
              && m.lastChecked.Some? && !e.marshal
              && c == m.cluster && c in s.tables.report
              && s.tables.report[c].org != m.org && m.lastChecked.value < s.tables.report[c].lastChecked
              && !RefusedByCache(s.cache, c, m.lastChecked.value) && StatementsWork(m, e.write) && !e.write.commit
  {
    MoveOrgReport(s.tables, m.cluster, m.org, e.org, a.current);
    StoreInDbReport(s, m, e, a);
    if ReachesReport(s, m, e, a) {
      WriteLowersExactly(MovedStore(s, m, e, a), m, m.lastChecked.value, e, a.created, c);
    }
  }

  /** Over every sequential run, for any number of instances with whatever caches and any faults, no report
      gets older. */
  lemma {:induction false} FreshnessOverRuns(w: World, evs: seq<Event>)
    requires PossibleRun(w, evs)
    ensures NoneLowered(w.tables.report, Run(w, evs).tables.report)
  {
    if evs != [] {
      var front, ev := evs[..|evs| - 1], evs[|evs| - 1];
      FreshnessOverRuns(w, front);
      var before := Run(w, front);
      if ev.Process? {
        forall c ensures !Lowers(w.tables.report, Run(w, evs).tables.report, c) {
          assert !Lowers(w.tables.report, before.tables.report, c);
          StoreInDbNeverLowers(StoreOf(before, ev.instance), ev.m, ev.e, ev.a, c);
        }
      } else {
        assert Run(w, evs).tables == before.tables;
      }
    }
  }

  /** The run never restarts or reloads instance `i`. */
  ghost predicate KeepsRunning(evs: seq<Event>, i: nat)
  {
    forall j :: 0 <= j < |evs| ==> !evs[j].Process? ==> evs[j].instance != i
  }

  /** The event makes instance `i` cache a time for `c`: a report that is not stale gets as far as its commit. */
  ghost predicate Caches(w: World, ev: Event, i: nat, c: Cluster)
  {
    && ev.Process? && ev.instance == i && ev.m.cluster == c
    && var s := StoreOf(w, i);
       && ReachesReport(s, ev.m, ev.e, ev.a)
       && !IsStale(MovedStore(s, ev.m, ev.e, ev.a), ev.m, ev.m.lastChecked.value) && StatementsWork(ev.m, ev.e.write)
  }

  ghost predicate EverCaches(w: World, evs: seq<Event>, i: nat, c: Cluster)
  {
    evs != [] && (EverCaches(w, evs[..|evs| - 1], i, c) || Caches(Run(w, evs[..|evs| - 1]), evs[|evs| - 1], i, c))
  }

  /** Over a run, the time cached by one instance never decreases, and grows iff the instance caches a report. */
  lemma {:induction false} CacheOverRuns(w: World, evs: seq<Event>, i: nat, c: Cluster)
    requires KeepsRunning(evs, i) && c in CacheOf(w, i)
    ensures c in CacheOf(Run(w, evs), i) && CacheOf(w, i)[c] <= CacheOf(Run(w, evs), i)[c]
    ensures CacheOf(w, i)[c] < CacheOf(Run(w, evs), i)[c] <==> EverCaches(w, evs, i, c)
  {
    if evs != [] {
      var front, ev := evs[..|evs| - 1], evs[|evs| - 1];
      assert forall j :: 0 <= j < |front| ==> front[j] == evs[j];
      CacheOverRuns(w, front, i, c);
      assert !evs[|evs| - 1].Process? ==> evs[|evs| - 1].instance != i;
      if ev.Process? && ev.instance == i {
        var s := StoreOf(Run(w, front), i);
        StoreInDbReport(s, ev.m, ev.e, ev.a);
        if ReachesReport(s, ev.m, ev.e, ev.a) {
          CacheGrows(MovedStore(s, ev.m, ev.e, ev.a), ev.m, ev.m.lastChecked.value, ev.e, ev.a.created);
        }
      }
    }
  }

  // ---------------------------------------------------------------------------
  // Interleaved transactions
  // ---------------------------------------------------------------------------

  /** One transaction of any instance, in any order and with any outcome. */
  datatype Transaction =
    | MoveTx(c: Cluster, org: OrgId, orgFaults: OrgFaults, current: Option<OrgId>)
    | ReportTx(i: nat, m: Message, last: Time, e: Env, created: map<string, Time>)
    | RecommendationTx(i: nat, m: Message, e: Env, impacted: map<string, Time>)
    | InfoTx(i: nat, m: Message, infoFaults: InfoFaults)
    | RestartTx(i: nat)
    | LoadTx(i: nat, read: set<Cluster>)

  ghost function After(w: World, tx: Transaction): World
  {
    match tx
    case MoveTx(c, org, f, current) => w.(tables := MoveOrg(w.tables, c, org, f, current).tables)
    case ReportTx(i, m, last, e, created) =>
      var s := WriteReport(StoreOf(w, i), m, last, e, created).store;
      World(s.tables, w.caches[i := s.cache])
    case RecommendationTx(i, m, e, impacted) =>
      (match WriteRecommendations(StoreOf(w, i), m, e, impacted)
       case None => w
       case Some(s) => w.(tables := s.tables))
    case InfoTx(i, m, f) =>
      (match WriteInfo(StoreOf(w, i), m, f)
       case None => w
       case Some(s) => w.(tables := s.tables))
    case RestartTx(i) => w.(caches := w.caches[i := map[]])
    case LoadTx(i, read) => w.(caches := w.caches[i := Loaded(CacheOf(w, i), w.tables.report, read)])
  }

  ghost function AfterAll(w: World, txs: seq<Transaction>): World
  {
    if txs == [] then w else After(AfterAll(w, txs[..|txs| - 1]), txs[|txs| - 1])
  }

  /** The transaction names cluster and organization of its message as `home` does. */
  ghost predicate AtHome(tx: Transaction, home: Cluster -> OrgId)
  {
    match tx
    case MoveTx(c, org, _, _) => org == home(c)
    case ReportTx(_, m, _, _, _) => m.org == home(m.cluster)
    case _ => true
  }

  ghost predicate ReportsAtHome(t: map<Cluster, ReportRow>, home: Cluster -> OrgId)
  {
    forall c :: c in t ==> t[c].org == home(c)
  }

  /** If every cluster keeps one organization, no interleaving of transactions of any number of instances,
      whatever their caches and faults, makes a report older. */
  lemma {:induction false} FreshnessOfInterleavings(w: World, txs: seq<Transaction>, home: Cluster -> OrgId)
    requires ReportsAtHome(w.tables.report, home)
    requires forall i :: 0 <= i < |txs| ==> AtHome(txs[i], home)
    ensures ReportsAtHome(AfterAll(w, txs).tables.report, home)
    ensures NoneLowered(w.tables.report, AfterAll(w, txs).tables.report)
  {
    if txs != [] {
      var front, tx := txs[..|txs| - 1], txs[|txs| - 1];
      assert forall i :: 0 <= i < |front| ==> front[i] == txs[i];
      FreshnessOfInterleavings(w, front, home);
      var before := AfterAll(w, front);
      assert AtHome(txs[|txs| - 1], home);
      TransactionAtHome(before, tx, home);
      forall c ensures !Lowers(w.tables.report, After(before, tx).tables.report, c) {
        assert !Lowers(w.tables.report, before.tables.report, c);
        assert !Lowers(before.tables.report, After(before, tx).tables.report, c);
      }
    }
  }

  /** Without that, they can: two instances move the cluster back and forth between their organizations, and
      the one that wrote first does so under the organization of the other. */
  lemma InterleavingLowers(w: World, c: Cluster, i: nat, j: nat, m: Message, m': Message, e: Env, e': Env,
                           created: map<string, Time>, created': map<string, Time>)
    requires c in w.tables.report && w.tables.report[c].org == m.org != m'.org
    requires m.cluster == m'.cluster == c && m.lastChecked.Some? && m'.lastChecked.Some? && i != j
    requires w.tables.report[c].lastChecked <= m'.lastChecked.value < m.lastChecked.value
    requires c !in CacheOf(w, i) && c !in CacheOf(w, j)
    requires StatementsWork(m, e.write) && !e.write.commit && StatementsWork(m', e'.write) && !e'.write.commit
    ensures var none := OrgFaults(false, {}, {}, false);
            var txs := [MoveTx(c, m'.org, none, Some(m.org)), MoveTx(c, m.org, none, Some(m'.org)),
                        ReportTx(i, m, m.lastChecked.value, e, created),
                        ReportTx(j, m', m'.lastChecked.value, e', created')];
            Lowers(AfterAll(w, txs[..3]).tables.report, AfterAll(w, txs).tables.report, c)
  {
    var none := OrgFaults(false, {}, {}, false);
    var to, back := MoveTx(c, m'.org, none, Some(m.org)), MoveTx(c, m.org, none, Some(m'.org));
    var first := ReportTx(i, m, m.lastChecked.value, e, created);
    FourTransactions(w, to, back, first, ReportTx(j, m', m'.lastChecked.value, e', created'));
    var w2 := After(After(w, to), back);
    MovedBack(w, c, m.org, m'.org);
    AcceptedExactly(StoreOf(w2, i), m, m.lastChecked.value, e, created);
    WriteShape(StoreOf(w2, i), m, m.lastChecked.value, e, created);
    WriteLowersExactly(StoreOf(After(w2, first), j), m', m'.lastChecked.value, e', created', c);
  }

  lemma FourTransactions(w: World, t0: Transaction, t1: Transaction, t2: Transaction, t3: Transaction)
    ensures var txs := [t0, t1, t2, t3];
            && AfterAll(w, txs[..3]) == After(After(After(w, t0), t1), t2)
            && AfterAll(w, txs) == After(AfterAll(w, txs[..3]), t3)
  {
    var txs := [t0, t1, t2, t3];
    assert txs[..3][..2] == txs[..2] && txs[..2][..1] == txs[..1] && txs[..1][..0] == [];
    assert AfterAll(w, txs[..1]) == After(w, t0);
    assert AfterAll(w, txs[..2]) == After(AfterAll(w, txs[..1]), t1);
  }

  lemma MovedBack(w: World, c: Cluster, org: OrgId, org': OrgId)
    requires c in w.tables.report && w.tables.report[c].org == org != org'
    ensures var none := OrgFaults(false, {}, {}, false);
            var w' := After(After(w, MoveTx(c, org', none, Some(org))), MoveTx(c, org, none, Some(org')));
            w'.tables.report == w.tables.report && w'.caches == w.caches
  {
    var none := OrgFaults(false, {}, {}, false);
    MoveReportRows(w.tables, c, org', org);
    MoveReportRows(MoveOrg(w.tables, c, org', none, Some(org)).tables, c, org, org');
  }

  lemma MoveReportRows(t: Tables, c: Cluster, org: OrgId, from: OrgId)
    requires from != org
    ensures MoveOrg(t, c, org, OrgFaults(false, {}, {}, false), Some(from)).tables.report == MoveReport(t.report, c, org)
  {
  }

  lemma TransactionAtHome(w: World, tx: Transaction, home: Cluster -> OrgId)
    requires ReportsAtHome(w.tables.report, home) && AtHome(tx, home)
    ensures ReportsAtHome(After(w, tx).tables.report, home)
    ensures NoneLowered(w.tables.report, After(w, tx).tables.report)
  {
    match tx
    case ReportTx(i, m, last, e, created) =>
      var r := WriteReport(StoreOf(w, i), m, last, e, created);
      if r.outcome == Accepted {
        WriteShape(StoreOf(w, i), m, last, e, created);
      }
      forall c ensures !Lowers(w.tables.report, r.store.tables.report, c) {
        WriteLowersExactly(StoreOf(w, i), m, last, e, created, c);
      }
    case RecommendationTx(i, m, e, impacted) =>
      RecommendationFrame(StoreOf(w, i), m, e, impacted);
    case InfoTx(i, m, f) =>
      InfoFrame(StoreOf(w, i), m, f);
    case _ =>
  }
}
