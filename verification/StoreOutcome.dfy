/**
 What one message of the OCP processor does, said about the state before it and
 without the functions that compute it: when storeInDB succeeds, and what every
 row and the cache hold afterwards.
 */
module StoreOutcome {
  import opened Options
  import opened Timeline
  import opened Schema
  import opened Inserts
  import opened Protocol
  import opened SingleOrg
  import opened Mirror
  import opened Freshness

  // ---------------------------------------------------------------------------
  // The verdict
  // ---------------------------------------------------------------------------

  /** The instance has cached a report of the cluster at least as new. */
  predicate CachedAsNew(cache: map<Cluster, Time>, c: Cluster, last: Time)
  {
    c in cache && last <= cache[c]
  }

  /** The stored report of the cluster is newer, under whatever organization. */
  predicate NewerStored(t: Tables, c: Cluster, last: Time)
  {
    c in t.report && last < t.report[c].lastChecked
  }

  predicate DistinctStripped(hits: seq<Hit>)
  {
    forall i, j :: 0 <= i < j < |hits| ==> Stripped(hits[i].rule) != Stripped(hits[j].rule)
  }

  /** The cluster has a stored recommendation for the rule. */
  ghost predicate IsStored(recs: map<Key<Rule>, RecommendationRow>, c: Cluster, d: Rule)
  {
    exists k :: k in recs && k.cluster == c && k.id == d
  }

  /** A stored recommendation of the cluster is for a rule of the message. */
  ghost predicate Overlaps(recs: map<Key<Rule>, RecommendationRow>, m: Message)
  {
    exists i :: 0 <= i < |m.hits| && IsStored(recs, m.cluster, Stripped(m.hits[i].rule))
  }

  /** Nothing in the report stage fails: it stops at the cache, at a newer stored report, or writes. */
  predicate ReportStageWorks(s: Store, m: Message, last: Time, f: WriteFaults)
  {
    || CachedAsNew(s.cache, m.cluster, last)
    || (!f.begin && !f.freshness && !f.commit && (NewerStored(s.tables, m.cluster, last) || StatementsWork(m, f)))
  }

  /** The instance knows the cluster once the report stage is over. */
  predicate Knows(s: Store, m: Message, last: Time)
  {
    m.cluster in s.cache || !NewerStored(s.tables, m.cluster, last)
  }

  /** Nothing in the recommendation stage fails. Without knowing the cluster it adds to the stored recommendations. */
  ghost predicate RecommendationStageWorks(recs: map<Key<Rule>, RecommendationRow>, m: Message, f: RecFaults, knows: bool)
  {
    && !f.decode && !f.begin && !f.commit && (knows ==> !f.delete)
    && (m.hits != [] ==> !f.insert && DistinctStripped(m.hits) && (knows || !Overlaps(recs, m)))
  }

  predicate InfoStageWorks(m: Message, f: InfoFaults)
  {
    && !f.begin && !f.commit
    && (f.upsert ==> forall i :: 0 <= i < |m.info| ==> m.info[i].infoId != "version_info|CLUSTER_VERSION_INFO")
  }

  /** The report stage on the moved tables: when it fails, and whether it leaves the cluster in the cache. */
  lemma WriteFailsExactly(s: Store, m: Message, last: Time, e: Env, created: map<string, Time>)
    ensures var w, f := WriteReport(s, m, last, e, created), e.write;
            && (w.outcome != Failed <==>
                  || RefusedByCache(s.cache, m.cluster, last)
                  || (!f.begin && !f.freshness && !f.commit
                      && (NewerInDb(s.tables, m.org, m.cluster, last) || StatementsWork(m, f))))
            && (w.outcome != Failed ==>
                  (m.cluster in w.store.cache <==>
                     m.cluster in s.cache || !NewerInDb(s.tables, m.org, m.cluster, last)))
  {
    AcceptedExactly(s, m, last, e, created);
    CacheGrows(s, m, last, e, created);
  }

  lemma RecommendationsInsertable(recs: map<Key<Rule>, RecommendationRow>, m: Message, knows: bool, createdAt: Time,
                                  earlier: map<string, Time>)
    ensures CanInsert(if knows then DeleteFor(recs, m.org, m.cluster) else recs,
                      RecommendationRows(m.org, m.cluster, m.hits, createdAt, earlier)) <==>
            && DistinctStripped(m.hits)
            && (knows || forall i :: 0 <= i < |m.hits| ==> Key(m.org, m.cluster, Stripped(m.hits[i].rule)) !in recs)
  {
    var rows := RecommendationRows(m.org, m.cluster, m.hits, createdAt, earlier);
    var kept := if knows then DeleteFor(recs, m.org, m.cluster) else recs;
    assert forall i :: 0 <= i < |rows| ==> rows[i].0 == Key(m.org, m.cluster, Stripped(m.hits[i].rule));
    if CanInsert(kept, rows) {
      forall i, j | 0 <= i < j < |m.hits| ensures Stripped(m.hits[i].rule) != Stripped(m.hits[j].rule) {
        assert rows[i].0 != rows[j].0;
      }
      forall i | !knows && 0 <= i < |m.hits| ensures Key(m.org, m.cluster, Stripped(m.hits[i].rule)) !in recs {
        assert rows[i].0 !in recs;
      }
    }
  }

  /** The recommendation stage on the tables it finds. */
  lemma RecommendationsSucceedExactly(s: Store, m: Message, e: Env, impacted: map<string, Time>)
    ensures var knows := m.cluster in s.cache;
            WriteRecommendations(s, m, e, impacted).Some? <==>
              && !e.rec.decode && !e.rec.begin && !e.rec.commit && (knows ==> !e.rec.delete)
              && (m.hits != [] ==>
                    && !e.rec.insert && DistinctStripped(m.hits)
                    && (knows || forall i :: 0 <= i < |m.hits| ==>
                                   Key(m.org, m.cluster, Stripped(m.hits[i].rule)) !in s.tables.recs))
  {
    var knows := m.cluster in s.cache;
    RecommendationsInsertable(s.tables.recs, m, knows, ToSecond(e.storedAt),
                              if knows && !e.rec.lookup then impacted else map[]);
  }

  /** Moving the cluster neither makes nor removes overlaps. */
  lemma MovedOverlaps(t: map<Key<Rule>, RecommendationRow>, t': map<Key<Rule>, RecommendationRow>, m: Message)
    requires Rehomed(t, t', m.cluster, m.org)
    ensures (forall i :: 0 <= i < |m.hits| ==> Key(m.org, m.cluster, Stripped(m.hits[i].rule)) !in t') <==> !Overlaps(t, m)
  {
    forall i | 0 <= i < |m.hits|
      ensures Key(m.org, m.cluster, Stripped(m.hits[i].rule)) in t' <==> IsStored(t, m.cluster, Stripped(m.hits[i].rule)) {
      MovedRule(t, t', m.cluster, m.org, Stripped(m.hits[i].rule));
    }
  }

  lemma MovedRule(t: map<Key<Rule>, RecommendationRow>, t': map<Key<Rule>, RecommendationRow>, c: Cluster, org: OrgId, d: Rule)
    requires Rehomed(t, t', c, org)
    ensures Key(org, c, d) in t' <==> IsStored(t, c, d)
  {
    if k :| k in t && k.cluster == c && k.id == d {
      assert Key(org, c, k.id) in t';
    }
    if Key(org, c, d) in t' {
      assert Key(org, c, d).cluster == c;
      var k :| k in t && k.cluster == c && k.id == d;
    }
  }

  lemma InfoSucceedsExactly(s: Store, m: Message, f: InfoFaults)
    ensures WriteInfo(s, m, f).Some? <==> InfoStageWorks(m, f)
  {
    LastVersionMeaning(m.info);
  }

  /** storeInDB succeeds iff it goes through its stages one by one. */
  lemma SucceedsByStages(s: Store, m: Message, e: Env, a: Answers)
    ensures StoreInDb(s, m, e, a).ok <==>
            && ReachesReport(s, m, e, a) && ReportWritten(s, m, e, a).outcome != Failed
            && var r := WriteRecommendations(ReportWritten(s, m, e, a).store, m, e, a.impacted);
               r.Some? && WriteInfo(r.value, m, e.info).Some?
  {
  }

  /** The recommendation stage, over the tables before the message. */
  lemma RecommendationStage(s: Store, m: Message, e: Env, a: Answers)
    requires Good(s.tables) && PossibleAnswers(s, m, e, a) && FailureAborts(e.org) && ReachesReport(s, m, e, a)
    requires m.cluster in ReportWritten(s, m, e, a).store.cache <==> Knows(s, m, m.lastChecked.value)
    ensures WriteRecommendations(ReportWritten(s, m, e, a).store, m, e, a.impacted).Some? <==>
            RecommendationStageWorks(s.tables.recs, m, e.rec, Knows(s, m, m.lastChecked.value))
  {
    var w := ReportWritten(s, m, e, a).store;
    OrgStepExactly(s.tables, m.cluster, m.org, e.org, a.current);
    ReportKeepsRecommendations(MovedStore(s, m, e, a), m, m.lastChecked.value, e, a.created);
    RecommendationsSucceedExactly(w, m, e, a.impacted);
    MovedOverlaps(s.tables.recs, w.tables.recs, m);
  }

  /** The report stage, over the tables before the message. */
  lemma ReportStage(s: Store, m: Message, e: Env, a: Answers)
    requires Good(s.tables) && PossibleAnswers(s, m, e, a) && FailureAborts(e.org) && ReachesReport(s, m, e, a)
    ensures ReportWritten(s, m, e, a).outcome != Failed <==> ReportStageWorks(s, m, m.lastChecked.value, e.write)
    ensures ReportWritten(s, m, e, a).outcome != Failed ==>
              (m.cluster in ReportWritten(s, m, e, a).store.cache <==> Knows(s, m, m.lastChecked.value))
  {
    OrgStepExactly(s.tables, m.cluster, m.org, e.org, a.current);
    WriteFailsExactly(MovedStore(s, m, e, a), m, m.lastChecked.value, e, a.created);
  }

  /** storeInDB returns no error iff the cluster can be moved, the date parses, the report marshals, and nothing fails in
      the three stages. A stale report is no failure: neither one the instance has seen nor one the database knows to be
      older. */
  lemma SucceedsExactly(s: Store, m: Message, e: Env, a: Answers)
    requires Good(s.tables) && PossibleAnswers(s, m, e, a) && FailureAborts(e.org)
    ensures StoreInDb(s, m, e, a).ok <==>
            && !e.org.begin && !CheckBreaks(s.tables, m.cluster, e.org.check) && !e.org.commit
            && m.lastChecked.Some? && !e.marshal
            && ReportStageWorks(s, m, m.lastChecked.value, e.write)
            && RecommendationStageWorks(s.tables.recs, m, e.rec, Knows(s, m, m.lastChecked.value))
            && InfoStageWorks(m, e.info)
  {
    OrgStepExactly(s.tables, m.cluster, m.org, e.org, a.current);
    SucceedsByStages(s, m, e, a);
    if ReachesReport(s, m, e, a) {
      ReportStage(s, m, e, a);
      if ReportWritten(s, m, e, a).outcome != Failed {
        RecommendationStage(s, m, e, a);
        var r := WriteRecommendations(ReportWritten(s, m, e, a).store, m, e, a.impacted);
        if r.Some? {
          InfoSucceedsExactly(r.value, m, e.info);
        }
      }
    }
  }

  /** The recommendations are committed iff the first two stages work; the info stage does not matter. */
  lemma CommitsExactly(s: Store, m: Message, e: Env, a: Answers)
    requires Good(s.tables) && PossibleAnswers(s, m, e, a) && FailureAborts(e.org)
    ensures CommitsRecommendations(s, m, e, a) <==>
            && !e.org.begin && !CheckBreaks(s.tables, m.cluster, e.org.check) && !e.org.commit
            && m.lastChecked.Some? && !e.marshal
            && ReportStageWorks(s, m, m.lastChecked.value, e.write)
            && RecommendationStageWorks(s.tables.recs, m, e.rec, Knows(s, m, m.lastChecked.value))
  {
    OrgStepExactly(s.tables, m.cluster, m.org, e.org, a.current);
    if ReachesReport(s, m, e, a) {
      ReportStage(s, m, e, a);
      if ReportWritten(s, m, e, a).outcome != Failed {
        RecommendationStage(s, m, e, a);
      }
    }
  }

  predicate NoFaults(e: Env)
  {
    && e.org == OrgFaults(false, {}, {}, false) && !e.marshal
    && e.write == WriteFaults(false, false, false, false, false, false, false)
    && e.rec == RecFaults(false, false, false, false, false, false)
    && e.info == InfoFaults(false, false, false)
  }

  /** Without faults, a stale report is an error all the same iff it repeats a rule, or its instance does not know the
      cluster and a stored recommendation is for one of its rules: that one is then inserted a second time. */
  lemma StaleFailsExactly(s: Store, m: Message, e: Env, a: Answers)
    requires Good(s.tables) && PossibleAnswers(s, m, e, a) && NoFaults(e)
    requires m.lastChecked.Some?
    requires CachedAsNew(s.cache, m.cluster, m.lastChecked.value) || NewerStored(s.tables, m.cluster, m.lastChecked.value)
    ensures !StoreInDb(s, m, e, a).ok <==>
            !DistinctStripped(m.hits) || (m.cluster !in s.cache && Overlaps(s.tables.recs, m))
  {
    SucceedsExactly(s, m, e, a);
  }

  /** A cluster with a report of time 10 and one recommendation, and an instance with an empty cache. */
  function ForgottenStore(c: Cluster): Store
  {
    var recs := map[Key(1, c, Stripped(Rule("a.report", "KEY"))) := RecommendationRow("a|KEY", Some(0), Some(0))];
    Store(Tables(map[c := ReportRow(1, "", 0, 10, None)], map[], recs, map[], map[], map[], map[]), map[])
  }

  /** Such an input: an older report of the same rule, without any fault. */
  lemma StaleMessageFails(c: Cluster)
    ensures var s, m, a := ForgottenStore(c), OlderMessage(c), Answers(Some(1), map[], map[]);
            && Good(s.tables) && PossibleAnswers(s, m, Faultless(), a) && NoFaults(Faultless())
            && !StoreInDb(s, m, Faultless(), a).ok
  {
    var s, m, e, a := ForgottenStore(c), OlderMessage(c), Faultless(), Answers(Some(1), map[], map[]);
    forall d ensures OneOrg(s.tables, d) {
      assert UnderOrg(s.tables, d, 1);
    }
    assert HasOrg(s.tables, TABLES_TO_CHECK[0], c, 1);
    assert ReportWritten(s, m, e, a) == Written(MovedStore(s, m, e, a), Discarded);
    StaleFailsExactly(s, m, e, a);
    var k := Key(1, c, Stripped(Rule("a.report", "KEY")));
    assert k in s.tables.recs && k.id == Stripped(m.hits[0].rule);
    assert IsStored(s.tables.recs, c, Stripped(m.hits[0].rule));
  }

  // ---------------------------------------------------------------------------
  // What is stored
  // ---------------------------------------------------------------------------

  /** Every column of the rule hits of an accepted report. */
  lemma HitColumns(s: Store, m: Message, e: Env, a: Answers, i: nat)
    requires Good(s.tables) && PossibleAnswers(s, m, e, a) && FailureAborts(e.org)
    requires StoreInDb(s, m, e, a).report == Accepted && i < |m.hits|
    ensures var t, rule := StoreInDb(s, m, e, a).store.tables.hits, m.hits[i].rule;
            var k := Key(m.org, m.cluster, rule);
            && k in t && t[k].templateData == m.hits[i].templateData
            && t[k].createdAt == Some(if !e.write.lookup && rule.fqdn + rule.key in a.created
                                      then a.created[rule.fqdn + rule.key] else ToSecond(e.clock(i)))
  {
    AcceptedHits(s, m, e, a);
    HitColumnsOf(StoreInDb(s, m, e, a).store.tables.hits, m, e, a, i);
  }

  lemma HitColumnsOf(t: map<Key<Rule>, HitRow>, m: Message, e: Env, a: Answers, i: nat)
    requires ClusterRowsAre(t, m.cluster, HitRowsOf(m, e, a)) && i < |m.hits|
    ensures var rule := m.hits[i].rule;
            var k := Key(m.org, m.cluster, rule);
            && k in t && t[k].templateData == m.hits[i].templateData
            && t[k].createdAt == Some(if !e.write.lookup && rule.fqdn + rule.key in a.created
                                      then a.created[rule.fqdn + rule.key] else ToSecond(e.clock(i)))
  {
    var rows := HitRowsOf(m, e, a);
    assert rows[i].0 == Key(m.org, m.cluster, m.hits[i].rule);
  }

  /** Every column of the recommendations of a message that commits them; an instance that does not know the cluster
      does not look up earlier times. */
  lemma RecommendationColumns(s: Store, m: Message, e: Env, a: Answers, i: nat)
    requires CommitsRecommendations(s, m, e, a) && i < |m.hits|
    ensures var t, fqdn, key := StoreInDb(s, m, e, a).store.tables.recs, Stripped(m.hits[i].rule).fqdn, m.hits[i].rule.key;
            var k := Key(m.org, m.cluster, Rule(fqdn, key));
            && k in t && t[k].ruleId == fqdn + "|" + key && t[k].createdAt == Some(ToSecond(e.storedAt))
            && t[k].impactedSince ==
               Some(if m.cluster in StoreInDb(s, m, e, a).store.cache && !e.rec.lookup && fqdn + key in a.impacted
                    then a.impacted[fqdn + key] else ToSecond(e.storedAt))
  {
    CommittedShape(s, m, e, a);
    ToSecondIdempotent(e.storedAt);
    var knows := m.cluster in StoreInDb(s, m, e, a).store.cache;
    var rows := RecommendationRows(m.org, m.cluster, m.hits, ToSecond(e.storedAt),
                                   if knows && !e.rec.lookup then a.impacted else map[]);
    assert rows[i].0 == Key(m.org, m.cluster, Stripped(m.hits[i].rule));
  }

  /** Recommendations of earlier reports stay, moved to the message's organization, iff the instance does not know the
      cluster when it commits: only then are they not deleted first. */
  lemma EarlierRecommendations(s: Store, m: Message, e: Env, a: Answers, d: Rule)
    requires Good(s.tables) && PossibleAnswers(s, m, e, a) && FailureAborts(e.org) && CommitsRecommendations(s, m, e, a)
    requires forall i :: 0 <= i < |m.hits| ==> Stripped(m.hits[i].rule) != d
    ensures Key(m.org, m.cluster, d) in StoreInDb(s, m, e, a).store.tables.recs <==>
            IsStored(s.tables.recs, m.cluster, d) && !Knows(s, m, m.lastChecked.value)
    ensures var t, after := s.tables.recs, StoreInDb(s, m, e, a).store.tables.recs;
            forall k :: k in t && k.cluster == m.cluster && k.id == d && Key(m.org, m.cluster, d) in after ==>
              after[Key(m.org, m.cluster, d)] == t[k]
  {
    OrgStepExactly(s.tables, m.cluster, m.org, e.org, a.current);
    MovedRule(s.tables.recs, MovedStore(s, m, e, a).tables.recs, m.cluster, m.org, d);
    CommitKeeps(s, m, e, a, d);
    ReportStage(s, m, e, a);
    ReportKeepsRecommendations(MovedStore(s, m, e, a), m, m.lastChecked.value, e, a.created);
  }

  /** A commit, as seen by the row of a rule the message does not have. */
  lemma CommitKeeps(s: Store, m: Message, e: Env, a: Answers, d: Rule)
    requires CommitsRecommendations(s, m, e, a)
    requires forall i :: 0 <= i < |m.hits| ==> Stripped(m.hits[i].rule) != d
    ensures var moved, after := MovedStore(s, m, e, a).tables.recs, StoreInDb(s, m, e, a).store.tables.recs;
            var k := Key(m.org, m.cluster, d);
            && (k in after <==> k in moved && m.cluster !in ReportWritten(s, m, e, a).store.cache)
            && (k in after ==> after[k] == moved[k])
  {
    CommittedShape(s, m, e, a);
    RecommendationsLeft(s, m, e, a);
    var known := m.cluster in StoreInDb(s, m, e, a).store.cache;
    OtherRuleKept(MovedStore(s, m, e, a).tables.recs, m, known, ToSecond(e.storedAt),
                  if known && !e.rec.lookup then a.impacted else map[], d);
  }

  lemma OtherRuleKept(recs: map<Key<Rule>, RecommendationRow>, m: Message, known: bool, createdAt: Time,
                      earlier: map<string, Time>, d: Rule)
    requires CanInsert(if known then DeleteFor(recs, m.org, m.cluster) else recs,
                       RecommendationRows(m.org, m.cluster, m.hits, createdAt, earlier))
    requires forall i :: 0 <= i < |m.hits| ==> Stripped(m.hits[i].rule) != d
    ensures var k := Key(m.org, m.cluster, d);
            var after := Insert(if known then DeleteFor(recs, m.org, m.cluster) else recs,
                                RecommendationRows(m.org, m.cluster, m.hits, createdAt, earlier));
            (k in after <==> k in recs && !known) && (k in after ==> after[k] == recs[k])
  {
    var rows := RecommendationRows(m.org, m.cluster, m.hits, createdAt, earlier);
    assert forall i :: 0 <= i < |rows| ==> rows[i].0 == Key(m.org, m.cluster, Stripped(m.hits[i].rule));
  }

  /** The version of an info item. */
  ghost predicate StoresVersion(m: Message, i: nat, version: string)
  {
    && i < |m.info| && m.info[i].infoId == "version_info|CLUSTER_VERSION_INFO"
    && (forall j :: i < j < |m.info| ==> m.info[j].infoId != "version_info|CLUSTER_VERSION_INFO")
    && version == if "version" in m.info[i].details then m.info[i].details["version"] else ""
  }

  /** A successful message upserts the version of its last version item, and leaves the info rows alone without one. */
  lemma InfoStored(s: Store, m: Message, e: Env, a: Answers)
    requires StoreInDb(s, m, e, a).ok
    ensures var before, after := MovedStore(s, m, e, a).tables.info, StoreInDb(s, m, e, a).store.tables.info;
            && (forall c :: c != m.cluster ==> (c in after <==> c in before) && (c in after ==> after[c] == before[c]))
            && ((forall i, v :: !StoresVersion(m, i, v)) ==> after == before)
            && (forall i, v :: StoresVersion(m, i, v) ==> m.cluster in after && after[m.cluster] == InfoRow(m.org, v))
  {
    ReportAndInfoWritten(s, m, e, a);
    LastVersionMeaning(m.info);
    if LastVersion(m.info).Some? {
      var i: nat :| IsLastVersionItem(m.info, i) && LastVersion(m.info) == Some(VersionOf(m.info[i]));
      assert StoresVersion(m, i, VersionOf(m.info[i]));
      forall j, v | StoresVersion(m, j, v) ensures v == VersionOf(m.info[i]) {
        assert j == i;
      }
    }
  }

  /** What a message leaves as its org step made it: the user tables always, the hits and the report unless it is
      accepted, the recommendations unless it commits them, and the info rows unless it succeeds. */
  lemma OtherwiseAsMoved(s: Store, m: Message, e: Env, a: Answers)
    ensures var t, moved := StoreInDb(s, m, e, a).store.tables, MovedStore(s, m, e, a).tables;
            && t.toggles == moved.toggles && t.feedback == moved.feedback && t.disables == moved.disables
            && (StoreInDb(s, m, e, a).report != Accepted ==> t.hits == moved.hits && t.report == moved.report)
            && (!CommitsRecommendations(s, m, e, a) ==> t.recs == moved.recs)
            && (!StoreInDb(s, m, e, a).ok ==> t.info == moved.info)
  {
    RecommendationsLeft(s, m, e, a);
    UserTablesKept(s, m, e, a);
    if ReachesReport(s, m, e, a) {
      InfoUntouched(MovedStore(s, m, e, a), m, m.lastChecked.value, e, a.created);
      RecommendationFrame(ReportWritten(s, m, e, a).store, m, e, a.impacted);
      StoreInDbReport(s, m, e, a);
      if StoreInDb(s, m, e, a).report != Accepted {
        RefusedHits(s, m, e, a);
        RefusedWrite(MovedStore(s, m, e, a), m, m.lastChecked.value, e, a.created);
      }
    }
  }

  lemma UserTablesKept(s: Store, m: Message, e: Env, a: Answers)
    ensures var t, moved := StoreInDb(s, m, e, a).store.tables, MovedStore(s, m, e, a).tables;
            t.toggles == moved.toggles && t.feedback == moved.feedback && t.disables == moved.disables
  {
    if ReachesReport(s, m, e, a) {
      UpdateFrame(MovedStore(s, m, e, a).tables, m, m.lastChecked.value, e, a.created);
      var w := ReportWritten(s, m, e, a).store;
      RecommendationFrame(w, m, e, a.impacted);
      var r := WriteRecommendations(w, m, e, a.impacted);
      if r.Some? {
        InfoFrame(r.value, m, e.info);
      }
    }
  }

  /** The instance caches the report's time iff it reaches the end of the report stage without being stale, even if the
      commit fails; otherwise its cache stays. */
  lemma CacheExactly(s: Store, m: Message, e: Env, a: Answers)
    requires Good(s.tables) && PossibleAnswers(s, m, e, a) && FailureAborts(e.org)
    ensures StoreInDb(s, m, e, a).store.cache ==
            if && !e.org.begin && !CheckBreaks(s.tables, m.cluster, e.org.check) && !e.org.commit
               && m.lastChecked.Some? && !e.marshal
               && !CachedAsNew(s.cache, m.cluster, m.lastChecked.value)
               && !NewerStored(s.tables, m.cluster, m.lastChecked.value) && StatementsWork(m, e.write)
            then s.cache[m.cluster := m.lastChecked.value] else s.cache
  {
    OrgStepExactly(s.tables, m.cluster, m.org, e.org, a.current);
    StoreInDbReport(s, m, e, a);
    if ReachesReport(s, m, e, a) {
      CacheGrows(MovedStore(s, m, e, a), m, m.lastChecked.value, e, a.created);
    }
  }
}
