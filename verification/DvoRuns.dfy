/**
 What every run of the DVO processor keeps: one organization per cluster, the
 first reported_at of every namespace, and a summary that agrees with the page.
 */
module DvoRuns {
  import opened Options
  import opened Timeline
  import opened Schema
  import opened DvoAggregates
  import opened DvoServing
  import opened DvoProtocol

  // ---------------------------------------------------------------------------
  // One message
  // ---------------------------------------------------------------------------

  ghost predicate UnderOrg(t: Table, c: Cluster, org: OrgId)
  {
    forall k :: k in t && k.cluster == c ==> k.org == org
  }

  ghost predicate OneOrg(t: Table, c: Cluster)
  {
    exists org :: UnderOrg(t, c, org)
  }

  ghost predicate Good(t: Table)
  {
    forall c :: OneOrg(t, c)
  }

  ghost predicate SameRows(t: Table, t': Table, c: Cluster)
  {
    forall k: Key<string> :: k.cluster == c ==> (k in t <==> k in t') && (k in t ==> t[k] == t'[k])
  }

  ghost predicate OthersSame(t: Table, t': Table, c: Cluster)
  {
    forall d :: d != c ==> SameRows(t, t', d)
  }

  lemma GoodAfterChange(t: Table, t': Table, c: Cluster, org: OrgId)
    requires Good(t) && OthersSame(t, t', c) && UnderOrg(t', c, org)
    ensures Good(t')
  {
    forall d ensures OneOrg(t', d) {
      if d == c {
        assert UnderOrg(t', d, org);
      } else {
        assert SameRows(t, t', d) && OneOrg(t, d);
        var o :| UnderOrg(t, d, o);
        assert UnderOrg(t', d, o);
      }
    }
  }

  /** The move brings every row of the cluster under the organization, keeping all other columns. */
  lemma MoveReachesAll(t: Table, c: Cluster, org: OrgId)
    requires OneOrg(t, c)
    ensures CanMove(t, c, org)
    ensures UnderOrg(Move(t, c, org), c, org) && OthersSame(t, Move(t, c, org), c)
    ensures forall k :: k in t && k.cluster == c ==>
                          Key(org, c, k.id) in Move(t, c, org) && Move(t, c, org)[Key(org, c, k.id)] == t[k]
    ensures forall l :: l in Move(t, c, org) && l.cluster == c ==>
                          exists k :: k in t && k.cluster == c && k.id == l.id && t[k] == Move(t, c, org)[l]
  {
    var o :| UnderOrg(t, c, o);
    var t' := Move(t, c, org);
    forall k | k in t && k.cluster == c ensures Key(org, c, k.id) in t' && t'[Key(org, c, k.id)] == t[k] {
      assert MoveKey(k, c, org) == Key(org, c, k.id);
    }
    forall l | l in t' ensures exists k :: k in t && MoveKey(k, c, org) == l && t[k] == t'[l] {
    }
    forall d | d != c ensures SameRows(t, t', d) {
      forall k: Key<string> | k.cluster == d && k in t ensures k in t' && t[k] == t'[k] {
        assert MoveKey(k, c, org) == k;
      }
    }
  }

  lemma OrgStep(t: Table, c: Cluster, org: OrgId, f: DvoOrgFaults, current: Option<OrgId>)
    requires Good(t) && OrgAnswer(t, c, f, current) && FailureAborts(f)
    ensures var r := MoveOrg(t, c, org, f, current);
            && Good(r.table) && OthersSame(t, r.table, c) && (r.ok ==> UnderOrg(r.table, c, org))
            && (r.table == t || (CanMove(t, c, org) && r.table == Move(t, c, org)))
  {
    assert OneOrg(t, c);
    var o :| UnderOrg(t, c, o);
    var r := MoveOrg(t, c, org, f, current);
    MoveReachesAll(t, c, org);
    if r.ok && (current.None? || current.value == org) {
      assert UnderOrg(t, c, org);
    }
    if r.table != t {
      GoodAfterChange(t, r.table, c, org);
    }
  }

  ghost function EarlierOf(e: DvoEnv, a: DvoAnswers): map<string, Time>
  {
    if e.write.lookup then map[] else a.reportedAt
  }

  ghost function RowsOf(m: DvoMessage, e: DvoEnv, a: DvoAnswers): Table
    requires SameKeys(a.agg) && m.lastChecked.Some?
  {
    NewRows(a.agg, m, m.lastChecked.value, e, EarlierOf(e, a))
  }

  lemma AcceptedShape(s: DvoStore, m: DvoMessage, e: DvoEnv, a: DvoAnswers)
    requires SameKeys(a.agg) && StoreInDb(s, m, e, a).report == Accepted
    ensures ReachesReport(s, m, e, a)
    ensures StoreInDb(s, m, e, a).store.table ==
            DeleteFor(MovedStore(s, m, e, a).table, m.org, m.cluster) + RowsOf(m, e, a)
    ensures ReadsReportedAt(MovedStore(s, m, e, a), m, m.lastChecked.value, e.write) || e.write.lookup
  {
  }

  /** Replacing all rows of the cluster. */
  lemma ReplacedRows(t: Table, m: DvoMessage, last: Time, e: DvoEnv, agg: Aggregates, earlier: map<string, Time>)
    requires SameKeys(agg) && UnderOrg(t, m.cluster, m.org)
    ensures var t' := DeleteFor(t, m.org, m.cluster) + NewRows(agg, m, last, e, earlier);
            && (forall k :: k in t' && k.cluster == m.cluster <==>
                  k.org == m.org && k.cluster == m.cluster && k.id in agg.names)
            && (forall ns :: ns in agg.names ==>
                  Key(m.org, m.cluster, ns) in t' && t'[Key(m.org, m.cluster, ns)] == RowOf(agg, ns, m, last, e, earlier))
            && OthersSame(t, t', m.cluster)
  {
    NewRowKeys(agg, m, last, e, earlier);
    ReplacedOthers(t, m.org, m.cluster, NewRows(agg, m, last, e, earlier));
  }

  lemma NewRowKeys(agg: Aggregates, m: DvoMessage, last: Time, e: DvoEnv, earlier: map<string, Time>)
    requires SameKeys(agg)
    ensures forall k :: k in NewRows(agg, m, last, e, earlier) <==>
                          k.org == m.org && k.cluster == m.cluster && k.id in agg.names
  {
    forall k: Key<string> | k.org == m.org && k.cluster == m.cluster && k.id in agg.names
      ensures k in NewRows(agg, m, last, e, earlier) {
      assert k == Key(m.org, m.cluster, k.id);
    }
  }

  /** Replacing rows of one cluster keeps those of the others. */
  lemma ReplacedOthers(t: Table, org: OrgId, c: Cluster, rows: Table)
    requires forall k :: k in rows ==> k.cluster == c
    ensures OthersSame(t, DeleteFor(t, org, c) + rows, c)
  {
  }

  /** The row carries the namespace's first name, its aggregates in this report and the time of the check. */
  ghost predicate RowSummarises(row: DvoRow, ns: string, m: DvoMessage, last: Time, compose: Composer)
  {
    var ws := AllWorkloads(m.recs);
    && IsFirstName(ws, ns, row.name) && row.lastChecked == last
    && row.objects == |Uids(ws, ns)| && row.recommendations == RecommendationCount(m.recs, ns)
    && NoZeroEntry(row.hits)
    && (forall rule :: (if rule in row.hits then row.hits[rule] else 0) == HitCount(m.recs, compose, ns, rule))
  }

  lemma NewRowSummarises(agg: Aggregates, m: DvoMessage, last: Time, e: DvoEnv, earlier: map<string, Time>, ns: string)
    requires SameKeys(agg) && Summarises(agg, m.recs, e.compose) && ns in agg.names
    ensures RowSummarises(RowOf(agg, ns, m, last, e, earlier), ns, m, last, e.compose)
  {
    var row := RowOf(agg, ns, m, last, e, earlier);
    forall rule ensures (if rule in row.hits then row.hits[rule] else 0) == HitCount(m.recs, e.compose, ns, rule) {
      assert Stored(agg.hits, ns, rule) == HitCount(m.recs, e.compose, ns, rule);
    }
  }

  /** After an accepted write the cluster has exactly one row per affected namespace, all with the new
      last_checked_at and the aggregates of this report; other clusters are untouched. */
  lemma AcceptedWriteRows(s: DvoStore, m: DvoMessage, e: DvoEnv, a: DvoAnswers)
    requires Good(s.table) && PossibleAnswers(s, m, e, a) && FailureAborts(e.org)
    requires StoreInDb(s, m, e, a).report == Accepted
    ensures m.lastChecked.Some?
    ensures var t := StoreInDb(s, m, e, a).store.table;
            && (forall k :: k in t && k.cluster == m.cluster <==>
                  k.org == m.org && k.cluster == m.cluster && k.id in Namespaces(AllWorkloads(m.recs)))
            && (forall k :: k in t && k.cluster == m.cluster ==>
                  && RowSummarises(t[k], k.id, m, m.lastChecked.value, e.compose)
                  && k.id in a.agg.names && t[k] == RowOf(a.agg, k.id, m, m.lastChecked.value, e, EarlierOf(e, a)))
            && Summarises(a.agg, m.recs, e.compose)
            && OthersSame(s.table, t, m.cluster) && UnderOrg(t, m.cluster, m.org)
  {
    OrgStep(s.table, m.cluster, m.org, e.org, a.current);
    AcceptedShape(s, m, e, a);
    var moved := MovedStore(s, m, e, a).table;
    ReplacedRows(moved, m, m.lastChecked.value, e, a.agg, EarlierOf(e, a));
    var t := StoreInDb(s, m, e, a).store.table;
    assert a.agg.names.Keys == Namespaces(AllWorkloads(m.recs));
    forall k | k in t && k.cluster == m.cluster ensures t[k] == RowOf(a.agg, k.id, m, m.lastChecked.value, e, EarlierOf(e, a)) {
      assert k == Key(m.org, m.cluster, k.id);
    }
    forall k | k in t && k.cluster == m.cluster
      ensures RowSummarises(t[k], k.id, m, m.lastChecked.value, e.compose) {
      NewRowSummarises(a.agg, m, m.lastChecked.value, e, EarlierOf(e, a), k.id);
    }
    forall d | d != m.cluster ensures SameRows(s.table, t, d) {
      assert SameRows(s.table, moved, d) && SameRows(moved, t, d);
    }
  }

  lemma RefusedTable(s: DvoStore, m: DvoMessage, e: DvoEnv, a: DvoAnswers)
    requires SameKeys(a.agg) && StoreInDb(s, m, e, a).report != Accepted
    ensures StoreInDb(s, m, e, a).store.table == MovedStore(s, m, e, a).table
  {
  }

  lemma StoreInDbKeepsGood(s: DvoStore, m: DvoMessage, e: DvoEnv, a: DvoAnswers)
    requires Good(s.table) && PossibleAnswers(s, m, e, a) && FailureAborts(e.org)
    ensures Good(StoreInDb(s, m, e, a).store.table) && OthersSame(s.table, StoreInDb(s, m, e, a).store.table, m.cluster)
  {
    OrgStep(s.table, m.cluster, m.org, e.org, a.current);
    if StoreInDb(s, m, e, a).report == Accepted {
      AcceptedWriteRows(s, m, e, a);
      GoodAfterChange(s.table, StoreInDb(s, m, e, a).store.table, m.cluster, m.org);
    } else {
      RefusedTable(s, m, e, a);
    }
  }

  // ---------------------------------------------------------------------------
  // Runs
  // ---------------------------------------------------------------------------

  datatype World = World(table: Table, caches: map<nat, map<Cluster, Time>>)

  datatype Event =
    | Process(instance: nat, m: DvoMessage, e: DvoEnv, a: DvoAnswers)
    | Restart(instance: nat)
    | Load(instance: nat, read: map<Cluster, Time>)

  function CacheOf(w: World, i: nat): map<Cluster, Time>
  {
    if i in w.caches then w.caches[i] else map[]
  }

  function StoreOf(w: World, i: nat): DvoStore
  {
    DvoStore(w.table, CacheOf(w, i))
  }

  /** A step the system can take; Init reads the time of some row of each cluster that arrives. */
  ghost predicate Possible(w: World, ev: Event)
  {
    match ev
    case Process(i, m, e, a) => PossibleAnswers(StoreOf(w, i), m, e, a) && FailureAborts(e.org)
    case Restart(_) => true
    case Load(_, read) =>
      forall c :: c in read ==> exists k :: k in w.table && k.cluster == c && w.table[k].lastChecked == read[c]
  }

  ghost function Step(w: World, ev: Event): World
    requires Possible(w, ev)
  {
    match ev
    case Process(i, m, e, a) =>
      var s := StoreInDb(StoreOf(w, i), m, e, a).store;
      World(s.table, w.caches[i := s.cache])
    case Restart(i) => w.(caches := w.caches[i := map[]])
    case Load(i, read) => w.(caches := w.caches[i := CacheOf(w, i) + read])
  }

  /** A run: each step possible in the world the previous ones left. */
  datatype Trace = Start(w: World) | Then(before: Trace, ev: Event)

  ghost predicate PossibleRun(r: Trace)
    decreases r, 0
  {
    r.Then? ==> PossibleRun(r.before) && Possible(End(r.before), r.ev)
  }

  ghost function End(r: Trace): World
    requires PossibleRun(r)
    decreases r, 1
  {
    match r
    case Start(w) => w
    case Then(before, ev) => Step(End(before), ev)
  }

  ghost function First(r: Trace): World
  {
    if r.Start? then r.w else First(r.before)
  }

  lemma {:induction false} SingleOrgForever(r: Trace)
    requires PossibleRun(r) && Good(First(r).table)
    ensures Good(End(r).table)
  {
    if r.Then? {
      SingleOrgForever(r.before);
      if r.ev.Process? {
        StoreInDbKeepsGood(StoreOf(End(r.before), r.ev.instance), r.ev.m, r.ev.e, r.ev.a);
      }
    }
  }

  /** What an accepted report records: every affected namespace, at the time of the check. */
  ghost function ReportEntry(m: DvoMessage, e: DvoEnv): Entry<string>
    requires m.lastChecked.Some?
  {
    Entry(map ns | ns in Namespaces(AllWorkloads(m.recs)) :: m.lastChecked.value, !e.write.lookup)
  }

  ghost function NewReports(w: World, ev: Event, c: Cluster): History<string>
    requires Possible(w, ev)
  {
    if ev.Process? && ev.m.cluster == c && ev.m.lastChecked.Some?
       && StoreInDb(StoreOf(w, ev.instance), ev.m, ev.e, ev.a).report == Accepted
    then [ReportEntry(ev.m, ev.e)] else []
  }

  /** The accepted reports of cluster `c`, oldest first. */
  ghost function AcceptedReports(r: Trace, c: Cluster): History<string>
    requires PossibleRun(r)
  {
    match r
    case Start(_) => []
    case Then(before, ev) => AcceptedReports(before, c) + NewReports(End(before), ev, c)
  }

  /** The rows of `c` are the namespaces of its last accepted report, each with the kept reported_at. */
  ghost predicate Shows(t: Table, c: Cluster, hist: History<string>)
  {
    && (forall k :: k in t && k.cluster == c ==> InLast(hist, k.id) && t[k].reportedAt == Some(Kept(hist, k.id)))
    && (forall ns :: InLast(hist, ns) ==> exists k :: k in t && k.cluster == c && k.id == ns)
  }

  lemma MoveShows(t: Table, c: Cluster, org: OrgId, hist: History<string>)
    requires OneOrg(t, c) && Shows(t, c, hist)
    ensures CanMove(t, c, org) && Shows(Move(t, c, org), c, hist)
  {
    MoveReachesAll(t, c, org);
    var t' := Move(t, c, org);
    forall l | l in t' && l.cluster == c ensures InLast(hist, l.id) && t'[l].reportedAt == Some(Kept(hist, l.id)) {
      var k :| k in t && k.cluster == c && k.id == l.id && t[k] == t'[l];
    }
    forall ns | InLast(hist, ns) ensures exists l :: l in t' && l.cluster == c && l.id == ns {
      var k :| k in t && k.cluster == c && k.id == ns;
      assert Key(org, c, k.id) in t';
    }
  }

  lemma AcceptedShows(s: DvoStore, m: DvoMessage, e: DvoEnv, a: DvoAnswers, hist: History<string>)
    requires Good(s.table) && PossibleAnswers(s, m, e, a) && FailureAborts(e.org)
    requires StoreInDb(s, m, e, a).report == Accepted && m.lastChecked.Some?
    requires Shows(s.table, m.cluster, hist)
    ensures Shows(StoreInDb(s, m, e, a).store.table, m.cluster, hist + [ReportEntry(m, e)])
  {
    var moved := MovedStore(s, m, e, a).table;
    OrgStep(s.table, m.cluster, m.org, e.org, a.current);
    assert OneOrg(s.table, m.cluster);
    MoveShows(s.table, m.cluster, m.org, hist);
    AcceptedShape(s, m, e, a);
    AcceptedWriteRows(s, m, e, a);
    if !e.write.lookup {
      AllReportedAtMatch(moved, m.org, m.cluster, hist, a.reportedAt);
    }
    RewriteShows(StoreInDb(s, m, e, a).store.table, m.org, m.cluster, hist, ReportEntry(m, e), EarlierOf(e, a));
  }

  /** Rewriting all rows of a cluster with carried-over or new times extends the history by one report. */
  lemma RewriteShows(t: Table, org: OrgId, c: Cluster, hist: History<string>, entry: Entry<string>, earlier: map<string, Time>)
    requires forall k :: k in t && k.cluster == c <==> k.org == org && k.cluster == c && k.id in entry.seen
    requires forall k :: k in t && k.cluster == c ==>
               t[k].reportedAt == Some(if k.id in earlier then earlier[k.id] else entry.seen[k.id])
    requires !entry.remembered ==> earlier == map[]
    requires entry.remembered ==> forall ns :: ns in earlier <==> InLast(hist, ns)
    requires entry.remembered ==> forall ns :: InLast(hist, ns) ==> earlier[ns] == ToSecond(Kept(hist, ns))
    ensures Shows(t, c, hist + [entry])
  {
    var hist' := hist + [entry];
    assert hist'[..|hist|] == hist;
    forall ns | InLast(hist', ns) ensures exists k :: k in t && k.cluster == c && k.id == ns {
      assert Key(org, c, ns) in t;
    }
  }

  lemma AllReportedAtMatch(t: Table, org: OrgId, c: Cluster, hist: History<string>, reportedAt: map<string, Time>)
    requires UnderOrg(t, c, org) && Shows(t, c, hist) && IsReportedAt(reportedAt, t, org, c)
    ensures forall ns :: ns in reportedAt <==> InLast(hist, ns)
    ensures forall ns :: InLast(hist, ns) ==> reportedAt[ns] == ToSecond(Kept(hist, ns))
  {
    forall ns
      ensures (ns in reportedAt <==> InLast(hist, ns)) && (InLast(hist, ns) ==> reportedAt[ns] == ToSecond(Kept(hist, ns))) {
      ReportedAtMatches(t, org, c, hist, reportedAt, ns);
    }
  }

  lemma ReportedAtMatches(t: Table, org: OrgId, c: Cluster, hist: History<string>, reportedAt: map<string, Time>, ns: string)
    requires UnderOrg(t, c, org) && Shows(t, c, hist) && IsReportedAt(reportedAt, t, org, c)
    ensures ns in reportedAt <==> InLast(hist, ns)
    ensures InLast(hist, ns) ==> reportedAt[ns] == ToSecond(Kept(hist, ns))
  {
    if InLast(hist, ns) {
      var k :| k in t && k.cluster == c && k.id == ns;
      assert k == Key(org, c, ns);
    }
  }

  /** Over every run, every row of `c` shows the time of the first report of the unbroken suffix of accepted
      reports that affect its namespace, truncated to seconds once carried over. */
  lemma {:induction false} ReportedAtOverRuns(r: Trace, c: Cluster)
    requires PossibleRun(r) && Good(First(r).table)
    requires TimesKnown(ReportedTimes(First(r).table), c)
    ensures Shows(End(r).table, c, HistoryOf(r, c))
  {
    if r.Then? {
      ReportedAtOverRuns(r.before, c);
      SingleOrgForever(r.before);
      ReportedAtStep(End(r.before), r.ev, c, HistoryOf(r.before, c));
      assert HistoryOf(r, c) == HistoryOf(r.before, c) + NewReports(End(r.before), r.ev, c);
    } else {
      assert OneOrg(r.w.table, c);
      var org :| UnderOrg(r.w.table, c, org);
      StoredKept(ReportedTimes(r.w.table), c, org);
      assert HistoryOf(r, c) == AtStart(ReportedTimes(r.w.table), c);
      assert forall k :: k in r.w.table ==> ReportedTimes(r.w.table)[k] == r.w.table[k].reportedAt;
    }
  }

  function ReportedTimes(t: Table): map<Key<string>, Option<Time>>
  {
    map k | k in t :: t[k].reportedAt
  }

  /** The reports that decide reported_at: what was stored at the start, then every accepted one. */
  ghost function HistoryOf(r: Trace, c: Cluster): History<string>
    requires PossibleRun(r)
  {
    AtStart(ReportedTimes(First(r).table), c) + AcceptedReports(r, c)
  }

  /** The same, row by row: a namespace of consecutive reports keeps its first time up to whole seconds, and
      one that disappeared and came back starts again. */
  lemma RowReportedAtFirstReport(r: Trace, c: Cluster, k: Key<string>) returns (i: nat)
    requires PossibleRun(r) && Good(First(r).table)
    requires TimesKnown(ReportedTimes(First(r).table), c)
    requires k in End(r).table && k.cluster == c
    ensures var hist := HistoryOf(r, c);
            && StartsSuffix(hist, k.id, i) && (forall j :: StartsSuffix(hist, k.id, j) ==> j == i)
            && End(r).table[k].reportedAt ==
               Some(if i == |hist| - 1 then hist[i].seen[k.id] else ToSecond(hist[i].seen[k.id]))
  {
    ReportedAtOverRuns(r, c);
    i := KeptIsFirstOfSuffix(HistoryOf(r, c), k.id);
  }

  lemma ReportedAtStep(w: World, ev: Event, c: Cluster, hist: History<string>)
    requires Good(w.table) && Possible(w, ev) && Shows(w.table, c, hist)
    ensures Shows(Step(w, ev).table, c, hist + NewReports(w, ev, c))
  {
    assert hist + [] == hist;
    if ev.Process? {
      var s := StoreOf(w, ev.instance);
      if ev.m.cluster != c {
        StoreInDbKeepsGood(s, ev.m, ev.e, ev.a);
        assert SameRows(s.table, StoreInDb(s, ev.m, ev.e, ev.a).store.table, c);
      } else if StoreInDb(s, ev.m, ev.e, ev.a).report == Accepted {
        AcceptedShape(s, ev.m, ev.e, ev.a);
        AcceptedShows(s, ev.m, ev.e, ev.a, hist);
      } else {
        RefusedTable(s, ev.m, ev.e, ev.a);
        OrgStep(s.table, c, ev.m.org, ev.e.org, ev.a.current);
        assert OneOrg(s.table, c);
        MoveShows(s.table, c, ev.m.org, hist);
      }
    }
  }

  // ---------------------------------------------------------------------------
  // The stored row against the page computed from it
  // ---------------------------------------------------------------------------

  /** What the overview row says about its namespace agrees with the page built from the row's own report. */
  ghost predicate AgreesWithPage(row: DvoRow, ns: string, compose: Composer)
  {
    row.report.Some? ==>
      var recs := row.report.value;
      var page := View(recs, ns, compose);
      && (forall rule :: ListedObjects(page, rule) == if rule in row.hits then row.hits[rule] else 0)
      && |page| <= row.recommendations && (|page| == row.recommendations <==> AllValidIn(recs, ns, compose))
      && |ServedUids(page)| <= row.objects && (AllValidIn(recs, ns, compose) ==> |ServedUids(page)| == row.objects)
  }

  lemma NewRowAgrees(agg: Aggregates, m: DvoMessage, last: Time, e: DvoEnv, earlier: map<string, Time>, ns: string)
    requires SameKeys(agg) && Summarises(agg, m.recs, e.compose) && ns in agg.names
    ensures AgreesWithPage(RowOf(agg, ns, m, last, e, earlier), ns, e.compose)
  {
    CountsAgree(agg, m.recs, e.compose, ns, RowOf(agg, ns, m, last, e, earlier));
  }

  lemma CountsAgree(agg: Aggregates, recs: seq<Recommendation>, compose: Composer, ns: string, row: DvoRow)
    requires SameKeys(agg) && Summarises(agg, recs, compose) && ns in agg.names
    requires row.report.Some? ==> row.report.value == recs
    requires row.recommendations == agg.recommendations[ns] && row.objects == agg.objects[ns] && row.hits == agg.hits[ns]
    ensures AgreesWithPage(row, ns, compose)
  {
    SummaryAgreesWithView(agg, recs, compose, ns);
    forall rule ensures ListedObjects(View(recs, ns, compose), rule) == if rule in row.hits then row.hits[rule] else 0 {
      assert ListedObjects(View(recs, ns, compose), rule) == Stored(agg.hits, ns, rule);
    }
  }

  ghost predicate AllAgree(t: Table, compose: Composer)
  {
    forall k :: k in t ==> AgreesWithPage(t[k], k.id, compose)
  }

  ghost predicate UsesComposer(r: Trace, compose: Composer)
  {
    r.Then? ==> UsesComposer(r.before, compose) && (r.ev.Process? ==> r.ev.e.compose == compose)
  }

  /** Over every run, every stored overview row agrees with the page served for it. */
  lemma {:induction false} PagesAgreeOverRuns(r: Trace, compose: Composer)
    requires PossibleRun(r) && Good(First(r).table) && AllAgree(First(r).table, compose) && UsesComposer(r, compose)
    ensures AllAgree(End(r).table, compose)
  {
    if r.Then? {
      PagesAgreeOverRuns(r.before, compose);
      SingleOrgForever(r.before);
      var w, ev := End(r.before), r.ev;
      if ev.Process? {
        PagesAgreeStep(StoreOf(w, ev.instance), ev.m, ev.e, ev.a);
      }
    }
  }

  lemma PagesAgreeStep(s: DvoStore, m: DvoMessage, e: DvoEnv, a: DvoAnswers)
    requires Good(s.table) && PossibleAnswers(s, m, e, a) && FailureAborts(e.org)
    requires AllAgree(s.table, e.compose)
    ensures AllAgree(StoreInDb(s, m, e, a).store.table, e.compose)
  {
    var t := StoreInDb(s, m, e, a).store.table;
    OrgStep(s.table, m.cluster, m.org, e.org, a.current);
    assert OneOrg(s.table, m.cluster);
    MoveReachesAll(s.table, m.cluster, m.org);
    StoreInDbKeepsGood(s, m, e, a);
    if StoreInDb(s, m, e, a).report == Accepted {
      AcceptedWriteRows(s, m, e, a);
    } else {
      RefusedTable(s, m, e, a);
    }
    forall k | k in t ensures AgreesWithPage(t[k], k.id, e.compose) {
      if k.cluster != m.cluster {
        assert SameRows(s.table, t, k.cluster);
      } else if StoreInDb(s, m, e, a).report == Accepted {
        NewRowAgrees(a.agg, m, m.lastChecked.value, e, EarlierOf(e, a), k.id);
      } else if t != s.table {
        var l :| l in s.table && l.cluster == m.cluster && l.id == k.id && s.table[l] == t[k];
      }
    }
  }

  // ---------------------------------------------------------------------------
  // Freshness
  // ---------------------------------------------------------------------------

  /** The org step works iff its queries and its commit do, a failed update notwithstanding, and otherwise changes
      nothing. With the update it brings every row of the cluster under the organization and keeps all other columns. */
  lemma OrgStepExactly(t: Table, c: Cluster, org: OrgId, f: DvoOrgFaults, current: Option<OrgId>)
    requires Good(t) && OrgAnswer(t, c, f, current)
    ensures var r := MoveOrg(t, c, org, f, current);
            && (r.ok <==> !f.begin && !f.check && !f.commit)
            && (!r.ok ==> r.table == t)
            && (r.ok && FailureAborts(f) ==> Rehomed(t, r.table, c, org))
  {
    var r := MoveOrg(t, c, org, f, current);
    if r.ok && FailureAborts(f) {
      OrgStep(t, c, org, f, current);
      assert OneOrg(t, c);
      if r.table == t {
        forall k | k in t && k.cluster == c ensures Key(org, c, k.id) == k {}
      } else {
        MoveIsRehoming(t, c, org);
      }
    }
  }

  lemma MoveIsRehoming(t: Table, c: Cluster, org: OrgId)
    requires OneOrg(t, c)
    ensures CanMove(t, c, org) && Rehomed(t, Move(t, c, org), c, org)
  {
    MoveReachesAll(t, c, org);
    forall d | d != c ensures SameRows(t, Move(t, c, org), d) {}
    forall k | k in t && k.cluster != c ensures k in Move(t, c, org) && Move(t, c, org)[k] == t[k] {
      assert SameRows(t, Move(t, c, org), k.cluster);
    }
    forall l | l in Move(t, c, org) && l.cluster != c ensures l in t {
      assert SameRows(t, Move(t, c, org), l.cluster);
    }
  }

  /** No row of the cluster, under whatever organization, is newer. */
  ghost predicate AllAtMost(t: Table, c: Cluster, last: Time)
  {
    forall k :: k in t && k.cluster == c ==> t[k].lastChecked <= last
  }

  /** The org step does not hide a newer row from the freshness check. */
  lemma MovedNewer(t: Table, c: Cluster, org: OrgId, f: DvoOrgFaults, current: Option<OrgId>, last: Time)
    requires Good(t) && OrgAnswer(t, c, f, current) && FailureAborts(f) && MoveOrg(t, c, org, f, current).ok
    ensures NewerInDb(MoveOrg(t, c, org, f, current).table, org, c, last) <==> !AllAtMost(t, c, last)
  {
    var t' := MoveOrg(t, c, org, f, current).table;
    OrgStep(t, c, org, f, current);
    assert OneOrg(t, c);
    MoveReachesAll(t, c, org);
    if !AllAtMost(t, c, last) {
      var k :| k in t && k.cluster == c && t[k].lastChecked > last;
      var l := if t' == t then k else Key(org, c, k.id);
      assert l in t' && l.org == org && t'[l] == t[k];
    }
  }

  lemma NamespacesEmpty(ws: seq<Workload>)
    ensures Namespaces(ws) == {} <==> ws == []
  {
    if ws != [] {
      assert ws[0] in ws && ws[0].namespaceUid in Namespaces(ws);
    }
  }

  /** storeInDB accepts a report iff its instance has not seen one as new, no row of the cluster is newer, under
      whatever organization, and neither the move nor the write fails. */
  lemma AcceptedExactly(s: DvoStore, m: DvoMessage, e: DvoEnv, a: DvoAnswers)
    requires Good(s.table) && PossibleAnswers(s, m, e, a) && FailureAborts(e.org)
    ensures StoreInDb(s, m, e, a).report == Accepted <==>
            && OrgStepWorks(e.org) && m.lastChecked.Some? && !e.marshal
            && !RefusedByCache(s.cache, m.cluster, m.lastChecked.value)
            && AllAtMost(s.table, m.cluster, m.lastChecked.value)
            && StatementsWork(m, e.write) && !e.write.commit
  {
    if ReachesReport(s, m, e, a) {
      MovedNewer(s.table, m.cluster, m.org, e.org, a.current, m.lastChecked.value);
      WriteAcceptedExactly(MovedStore(s, m, e, a), m, m.lastChecked.value, e, a);
      if AggregatesReport(MovedStore(s, m, e, a), m, m.lastChecked.value, e.write) {
        SummaryEmpty(a.agg, m.recs, e.compose);
      }
    }
  }

  lemma WriteAcceptedExactly(s: DvoStore, m: DvoMessage, last: Time, e: DvoEnv, a: DvoAnswers)
    requires SameKeys(a.agg)
    ensures WriteReport(s, m, last, e, a).outcome == Accepted <==>
            AggregatesReport(s, m, last, e.write) && !(e.write.insert && a.agg.names != map[]) && !e.write.commit
  {
  }

  lemma SummaryEmpty(agg: Aggregates, recs: seq<Recommendation>, compose: Composer)
    requires Summarises(agg, recs, compose)
    ensures agg.names == map[] <==> AllWorkloads(recs) == []
  {
    NamespacesEmpty(AllWorkloads(recs));
    assert agg.names.Keys == Namespaces(AllWorkloads(recs));
    assert agg.names == map[] <==> agg.names.Keys == {};
  }

  /** An accepted report leaves rows iff it has workloads, all with its own time. */
  lemma AcceptedLeavesRows(s: DvoStore, m: DvoMessage, e: DvoEnv, a: DvoAnswers)
    requires Good(s.table) && PossibleAnswers(s, m, e, a) && FailureAborts(e.org)
    requires StoreInDb(s, m, e, a).report == Accepted
    ensures m.lastChecked.Some?
    ensures var t := StoreInDb(s, m, e, a).store.table;
            && ((exists k :: k in t && k.cluster == m.cluster) <==> AllWorkloads(m.recs) != [])
            && (forall k :: k in t && k.cluster == m.cluster ==> t[k].lastChecked == m.lastChecked.value)
  {
    var t := StoreInDb(s, m, e, a).store.table;
    AcceptedWriteRows(s, m, e, a);
    NamespacesEmpty(AllWorkloads(m.recs));
    if AllWorkloads(m.recs) != [] {
      var ns :| ns in Namespaces(AllWorkloads(m.recs));
      var k := Key(m.org, m.cluster, ns);
      assert k.org == m.org && k.cluster == m.cluster && k.id in Namespaces(AllWorkloads(m.recs));
      assert k in t;
    }
  }

  /** storeInDB returns no error iff the cluster can be moved, the date parses, the report marshals, and the write stops
      at the cache, stops at a newer row, or goes through. A stale report is no failure. */
  lemma SucceedsExactly(s: DvoStore, m: DvoMessage, e: DvoEnv, a: DvoAnswers)
    requires Good(s.table) && PossibleAnswers(s, m, e, a) && FailureAborts(e.org)
    ensures StoreInDb(s, m, e, a).ok <==>
            && !e.org.begin && !e.org.check && !e.org.commit && m.lastChecked.Some? && !e.marshal
            && var last, f := m.lastChecked.value, e.write;
               || (m.cluster in s.cache && last <= s.cache[m.cluster])
               || (!f.begin && !f.freshness && !f.commit && (!AllAtMost(s.table, m.cluster, last) || StatementsWork(m, f)))
  {
    if ReachesReport(s, m, e, a) {
      MovedNewer(s.table, m.cluster, m.org, e.org, a.current, m.lastChecked.value);
      WriteFailsExactly(MovedStore(s, m, e, a), m, m.lastChecked.value, e, a);
      if AggregatesReport(MovedStore(s, m, e, a), m, m.lastChecked.value, e.write) {
        SummaryEmpty(a.agg, m.recs, e.compose);
      }
    }
  }

  lemma WriteFailsExactly(s: DvoStore, m: DvoMessage, last: Time, e: DvoEnv, a: DvoAnswers)
    requires SameKeys(a.agg)
    ensures WriteReport(s, m, last, e, a).outcome == Failed <==>
            && !RefusedByCache(s.cache, m.cluster, last)
            && (e.write.begin || e.write.freshness || e.write.commit
                || (!NewerInDb(s.table, m.org, m.cluster, last)
                    && (e.write.delete || (e.write.insert && a.agg.names != map[]))))
    ensures WriteReport(s, m, last, e, a).store.cache ==
            if AggregatesReport(s, m, last, e.write) && !(e.write.insert && a.agg.names != map[])
            then s.cache[m.cluster := last] else s.cache
  {
  }

  /** The instance caches the report's time iff it reaches the end of the write without being stale, even if the commit
      fails; otherwise its cache stays. */
  lemma CacheExactly(s: DvoStore, m: DvoMessage, e: DvoEnv, a: DvoAnswers)
    requires Good(s.table) && PossibleAnswers(s, m, e, a) && FailureAborts(e.org)
    ensures StoreInDb(s, m, e, a).store.cache ==
            if && !e.org.begin && !e.org.check && !e.org.commit && m.lastChecked.Some? && !e.marshal
               && !(m.cluster in s.cache && m.lastChecked.value <= s.cache[m.cluster])
               && AllAtMost(s.table, m.cluster, m.lastChecked.value) && StatementsWork(m, e.write)
            then s.cache[m.cluster := m.lastChecked.value] else s.cache
  {
    if ReachesReport(s, m, e, a) {
      MovedNewer(s.table, m.cluster, m.org, e.org, a.current, m.lastChecked.value);
      WriteFailsExactly(MovedStore(s, m, e, a), m, m.lastChecked.value, e, a);
      if AggregatesReport(MovedStore(s, m, e, a), m, m.lastChecked.value, e.write) {
        SummaryEmpty(a.agg, m.recs, e.compose);
      }
    }
  }

  /** The columns of an accepted report's rows that its workloads do not determine. */
  lemma ColumnsWritten(s: DvoStore, m: DvoMessage, e: DvoEnv, a: DvoAnswers, k: Key<string>)
    requires Good(s.table) && PossibleAnswers(s, m, e, a) && FailureAborts(e.org)
    requires StoreInDb(s, m, e, a).report == Accepted
    requires k in StoreInDb(s, m, e, a).store.table && k.cluster == m.cluster
    ensures m.lastChecked.Some?
    ensures var row := StoreInDb(s, m, e, a).store.table[k];
            && row.report == (if e.write.encode then None else Some(m.recs))
            && row.lastChecked == m.lastChecked.value
            && row.reportedAt == Some(if !e.write.lookup && k.id in a.reportedAt then a.reportedAt[k.id] else m.lastChecked.value)
  {
    AcceptedWriteRows(s, m, e, a);
  }

  predicate NoFaults(e: DvoEnv)
  {
    && e.org == DvoOrgFaults(false, false, false, false) && !e.marshal
    && e.write == DvoWriteFaults(false, false, false, false, false, false, false)
  }

  /** An instance that does not have the cluster in its cache accepts an older report after a newer one iff the newer
      one had no workloads: it left no row to remember its time. */
  lemma EmptyReportForgetsTime(s: DvoStore, m: DvoMessage, e: DvoEnv, a: DvoAnswers,
                               cache: map<Cluster, Time>, m': DvoMessage, e': DvoEnv, a': DvoAnswers)
    requires Good(s.table) && PossibleAnswers(s, m, e, a) && FailureAborts(e.org)
    requires StoreInDb(s, m, e, a).report == Accepted && m.lastChecked.Some?
    requires m'.cluster == m.cluster && m.cluster !in cache
    requires m'.lastChecked.Some? && m'.lastChecked.value < m.lastChecked.value
    requires PossibleAnswers(DvoStore(StoreInDb(s, m, e, a).store.table, cache), m', e', a') && NoFaults(e')
    ensures StoreInDb(DvoStore(StoreInDb(s, m, e, a).store.table, cache), m', e', a').report == Accepted <==>
            AllWorkloads(m.recs) == []
  {
    var t := StoreInDb(s, m, e, a).store.table;
    AcceptedLeavesRows(s, m, e, a);
    StoreInDbKeepsGood(s, m, e, a);
    AcceptedExactly(DvoStore(t, cache), m', e', a');
  }

  /** The database remembers a report of `c` at least as new as `last`. */
  ghost predicate RemembersAtLeast(t: Table, c: Cluster, last: Time)
  {
    (exists k :: k in t && k.cluster == c) && forall k :: k in t && k.cluster == c ==> last <= t[k].lastChecked
  }

  /** The event is an accepted report of `c` without workloads. */
  ghost predicate Empties(w: World, ev: Event, c: Cluster)
    requires Possible(w, ev)
  {
    && ev.Process? && ev.m.cluster == c && AllWorkloads(ev.m.recs) == []
    && StoreInDb(StoreOf(w, ev.instance), ev.m, ev.e, ev.a).report == Accepted
  }

  /** A step forgets how new the cluster's report was iff it accepts one without workloads. */
  lemma FreshnessStep(w: World, ev: Event, c: Cluster, last: Time)
    requires Good(w.table) && Possible(w, ev) && RemembersAtLeast(w.table, c, last)
    ensures RemembersAtLeast(Step(w, ev).table, c, last) <==> !Empties(w, ev, c)
  {
    if ev.Process? {
      var s := StoreOf(w, ev.instance);
      var t, t' := w.table, Step(w, ev).table;
      var k :| k in t && k.cluster == c;
      if ev.m.cluster != c {
        StoreInDbKeepsGood(s, ev.m, ev.e, ev.a);
        assert SameRows(t, t', c);
        assert k in t';
      } else if StoreInDb(s, ev.m, ev.e, ev.a).report == Accepted {
        AcceptedRemembers(s, ev.m, ev.e, ev.a, last);
      } else {
        RefusedTable(s, ev.m, ev.e, ev.a);
        OrgStep(t, c, ev.m.org, ev.e.org, ev.a.current);
        if t' != t {
          MoveRemembers(t, c, ev.m.org, last);
        }
      }
    }
  }

  lemma MoveRemembers(t: Table, c: Cluster, org: OrgId, last: Time)
    requires OneOrg(t, c) && RemembersAtLeast(t, c, last)
    ensures CanMove(t, c, org) && RemembersAtLeast(Move(t, c, org), c, last)
  {
    MoveReachesAll(t, c, org);
    var k :| k in t && k.cluster == c;
    assert Key(org, c, k.id) in Move(t, c, org);
  }

  lemma AcceptedIsNewer(s: DvoStore, m: DvoMessage, e: DvoEnv, a: DvoAnswers, last: Time)
    requires Good(s.table) && PossibleAnswers(s, m, e, a) && FailureAborts(e.org)
    requires StoreInDb(s, m, e, a).report == Accepted && RemembersAtLeast(s.table, m.cluster, last)
    ensures m.lastChecked.Some? && last <= m.lastChecked.value
  {
    AcceptedExactly(s, m, e, a);
    var k :| k in s.table && k.cluster == m.cluster;
    assert last <= s.table[k].lastChecked <= m.lastChecked.value;
  }

  lemma AcceptedRemembers(s: DvoStore, m: DvoMessage, e: DvoEnv, a: DvoAnswers, last: Time)
    requires Good(s.table) && PossibleAnswers(s, m, e, a) && FailureAborts(e.org)
    requires StoreInDb(s, m, e, a).report == Accepted && RemembersAtLeast(s.table, m.cluster, last)
    ensures RemembersAtLeast(StoreInDb(s, m, e, a).store.table, m.cluster, last) <==> AllWorkloads(m.recs) != []
  {
    AcceptedIsNewer(s, m, e, a, last);
    AcceptedLeavesRows(s, m, e, a);
  }

  ghost predicate NeverEmptied(r: Trace, c: Cluster)
    requires PossibleRun(r)
  {
    r.Then? ==> NeverEmptied(r.before, c) && !Empties(End(r.before), r.ev, c)
  }

  /** Over every run, the report of a cluster is never replaced by an older one, unless one without workloads was
      accepted in between. */
  lemma {:induction false} FreshnessOverRuns(r: Trace, c: Cluster, last: Time)
    requires PossibleRun(r) && Good(First(r).table) && NeverEmptied(r, c)
    requires RemembersAtLeast(First(r).table, c, last)
    ensures RemembersAtLeast(End(r).table, c, last)
  {
    if r.Then? {
      FreshnessOverRuns(r.before, c, last);
      SingleOrgForever(r.before);
      FreshnessStep(End(r.before), r.ev, c, last);
    }
  }
}
