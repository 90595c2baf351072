/**
 What a message leaves in rule_hit and recommendation, and when the
 recommendations of a cluster mirror its rule hits.
 */
module Mirror {
  import opened Options
  import opened Timeline
  import opened Schema
  import opened Inserts
  import opened Protocol
  import opened SingleOrg

  /** The rows of cluster `c` are exactly `rows`. */
  ghost predicate ClusterRowsAre<V>(t: map<Key<Rule>, V>, c: Cluster, rows: seq<(Key<Rule>, V)>)
  {
    && (forall i :: 0 <= i < |rows| ==> rows[i].0 in t && t[rows[i].0] == rows[i].1 && rows[i].0.cluster == c)
    && (forall k :: k in t && k.cluster == c ==> exists i :: 0 <= i < |rows| && rows[i].0 == k)
    && (forall i, j :: 0 <= i < j < |rows| ==> rows[i].0 != rows[j].0)
  }

  lemma ReplacedRows<V>(t: map<Key<Rule>, V>, org: OrgId, c: Cluster, rows: seq<(Key<Rule>, V)>)
    requires forall k :: k in t && k.cluster == c ==> k.org == org
    requires forall i :: 0 <= i < |rows| ==> rows[i].0.cluster == c
    requires CanInsert(DeleteFor(t, org, c), rows)
    ensures ClusterRowsAre(Insert(DeleteFor(t, org, c), rows), c, rows)
  {
  }

  /** The creation times that a write uses. */
  ghost function EarlierHits(e: Env, a: Answers): map<string, Time>
  {
    if e.write.lookup then map[] else a.created
  }

  /** The hit rows an accepted message writes. */
  ghost function HitRowsOf(m: Message, e: Env, a: Answers): seq<(Key<Rule>, HitRow)>
  {
    HitRows(m.org, m.cluster, m.hits, EarlierHits(e, a), e.clock)
  }

  /** The recommendation rows a message writes when the instance knows the cluster. */
  ghost function RecommendationRowsOf(m: Message, e: Env, a: Answers): seq<(Key<Rule>, RecommendationRow)>
  {
    RecommendationRows(m.org, m.cluster, m.hits, ToSecond(e.storedAt), if e.rec.lookup then map[] else a.impacted)
  }

  lemma EmptyInsert<V>(t: map<Key<Rule>, V>, rows: seq<(Key<Rule>, V)>)
    requires rows == []
    ensures CanInsert(t, rows)
  {
  }

  /** What acceptance of the report says about the statements of its transaction. */
  lemma AcceptedShape(s: Store, m: Message, e: Env, a: Answers)
    requires StoreInDb(s, m, e, a).report == Accepted
    ensures ReachesReport(s, m, e, a)
    ensures var kept := DeleteFor(MovedStore(s, m, e, a).tables.hits, m.org, m.cluster);
            var rows := HitRowsOf(m, e, a);
            CanInsert(kept, rows) && StoreInDb(s, m, e, a).store.tables.hits == Insert(kept, rows)
    ensures m.cluster in StoreInDb(s, m, e, a).store.cache
  {
    AcceptedResult(s, m, e, a);
    WriteShape(MovedStore(s, m, e, a), m, m.lastChecked.value, e, a.created);
  }

  lemma AcceptedResult(s: Store, m: Message, e: Env, a: Answers)
    requires StoreInDb(s, m, e, a).report == Accepted
    ensures ReachesReport(s, m, e, a) && ReportWritten(s, m, e, a).outcome == Accepted
    ensures StoreInDb(s, m, e, a).store.tables.hits == ReportWritten(s, m, e, a).store.tables.hits
    ensures StoreInDb(s, m, e, a).store.tables.report == ReportWritten(s, m, e, a).store.tables.report
    ensures StoreInDb(s, m, e, a).store.cache == ReportWritten(s, m, e, a).store.cache
  {
    var w := ReportWritten(s, m, e, a);
    RecommendationFrame(w.store, m, e, a.impacted);
    var r := WriteRecommendations(w.store, m, e, a.impacted);
    if r.Some? {
      InfoFrame(r.value, m, e.info);
    }
  }

  /** Writing recommendations changes no other table and not the cache. */
  lemma RecommendationFrame(s: Store, m: Message, e: Env, impacted: map<string, Time>)
    ensures match WriteRecommendations(s, m, e, impacted)
            case None => true
            case Some(s') => s' == s.(tables := s.tables.(recs := s'.tables.recs))
  {
  }

  /** Writing the info report changes no other table and not the cache. */
  lemma InfoFrame(s: Store, m: Message, f: InfoFaults)
    ensures match WriteInfo(s, m, f)
            case None => true
            case Some(s') => s' == s.(tables := s.tables.(info := s'.tables.info))
  {
  }

  /** What acceptance says about the report transaction. */
  lemma WriteShape(s: Store, m: Message, last: Time, e: Env, created: map<string, Time>)
    requires WriteReport(s, m, last, e, created).outcome == Accepted
    ensures var w := WriteReport(s, m, last, e, created).store;
            var kept := DeleteFor(s.tables.hits, m.org, m.cluster);
            var rows := HitRows(m.org, m.cluster, m.hits, if e.write.lookup then map[] else created, e.clock);
            && CanInsert(kept, rows) && w.tables.hits == Insert(kept, rows)
            && w.tables.report == s.tables.report[m.cluster := ReportRow(m.org, m.report, e.storedAt, last, m.gatheredAt)]
            && w.cache == s.cache[m.cluster := last]
            && !RefusedByCache(s.cache, m.cluster, last) && !NewerInDb(s.tables, m.org, m.cluster, last)
  {
    var u := UpdateReport(s.tables, m, last, e, created);
    assert u.Some?;
    if m.hits == [] {
      EmptyInsert(DeleteFor(s.tables.hits, m.org, m.cluster),
                  HitRows(m.org, m.cluster, m.hits, if e.write.lookup then map[] else created, e.clock));
    }
  }

  /** What the committed recommendation transaction wrote. */
  lemma RecommendationShape(s: Store, m: Message, e: Env, impacted: map<string, Time>)
    requires WriteRecommendations(s, m, e, impacted).Some?
    ensures var known := m.cluster in s.cache;
            var kept := if known then DeleteFor(s.tables.recs, m.org, m.cluster) else s.tables.recs;
            var rows := RecommendationRows(m.org, m.cluster, m.hits, ToSecond(e.storedAt),
                                           if known && !e.rec.lookup then impacted else map[]);
            && CanInsert(kept, rows)
            && WriteRecommendations(s, m, e, impacted) == Some(s.(tables := s.tables.(recs := Insert(kept, rows))))
  {
    if m.hits == [] {
      var known := m.cluster in s.cache;
      EmptyInsert(if known then DeleteFor(s.tables.recs, m.org, m.cluster) else s.tables.recs,
                  RecommendationRows(m.org, m.cluster, m.hits, ToSecond(e.storedAt),
                                     if known && !e.rec.lookup then impacted else map[]));
    }
  }

  /** The report write does not touch the recommendations. */
  lemma ReportKeepsRecommendations(s: Store, m: Message, last: Time, e: Env, created: map<string, Time>)
    ensures WriteReport(s, m, last, e, created).store.tables.recs == s.tables.recs
  {
    UpdateFrame(s.tables, m, last, e, created);
  }

  /** The report transaction writes the report and its rule hits only. */
  lemma UpdateFrame(t: Tables, m: Message, last: Time, e: Env, created: map<string, Time>)
    ensures match UpdateReport(t, m, last, e, created)
            case None => true
            case Some(t') => t' == t.(hits := t'.hits, report := t'.report)
  {
  }

  /** The message gets as far as committing its recommendations, whatever becomes of its info report. */
  ghost predicate CommitsRecommendations(s: Store, m: Message, e: Env, a: Answers)
  {
    && ReachesReport(s, m, e, a) && ReportWritten(s, m, e, a).outcome != Failed
    && WriteRecommendations(ReportWritten(s, m, e, a).store, m, e, a.impacted).Some?
  }

  lemma SuccessCommits(s: Store, m: Message, e: Env, a: Answers)
    requires StoreInDb(s, m, e, a).ok
    ensures CommitsRecommendations(s, m, e, a)
  {
  }

  /** The recommendations that storeInDB leaves: as moved, or as its third stage wrote them. */
  lemma RecommendationsLeft(s: Store, m: Message, e: Env, a: Answers)
    ensures StoreInDb(s, m, e, a).store.tables.recs ==
            if CommitsRecommendations(s, m, e, a)
            then WriteRecommendations(ReportWritten(s, m, e, a).store, m, e, a.impacted).value.tables.recs
            else MovedStore(s, m, e, a).tables.recs
    ensures CommitsRecommendations(s, m, e, a) ==> StoreInDb(s, m, e, a).store.cache == ReportWritten(s, m, e, a).store.cache
  {
    if ReachesReport(s, m, e, a) {
      ReportKeepsRecommendations(MovedStore(s, m, e, a), m, m.lastChecked.value, e, a.created);
      var r := WriteRecommendations(ReportWritten(s, m, e, a).store, m, e, a.impacted);
      if r.Some? {
        RecommendationFrame(ReportWritten(s, m, e, a).store, m, e, a.impacted);
        InfoFrame(r.value, m, e.info);
      }
    }
  }

  /** What the committed recommendation transaction of a message wrote. */
  lemma CommittedShape(s: Store, m: Message, e: Env, a: Answers)
    requires CommitsRecommendations(s, m, e, a)
    ensures var moved := MovedStore(s, m, e, a).tables.recs;
            var known := m.cluster in StoreInDb(s, m, e, a).store.cache;
            var kept := if known then DeleteFor(moved, m.org, m.cluster) else moved;
            var rows := RecommendationRows(m.org, m.cluster, m.hits, ToSecond(e.storedAt),
                                           if known && !e.rec.lookup then a.impacted else map[]);
            CanInsert(kept, rows) && StoreInDb(s, m, e, a).store.tables.recs == Insert(kept, rows)
  {
    RecommendationsLeft(s, m, e, a);
    ReportKeepsRecommendations(MovedStore(s, m, e, a), m, m.lastChecked.value, e, a.created);
    RecommendationShape(ReportWritten(s, m, e, a).store, m, e, a.impacted);
  }

  /** An accepted report leaves exactly its own rule hits for the cluster. */
  lemma AcceptedHits(s: Store, m: Message, e: Env, a: Answers)
    requires Good(s.tables) && PossibleAnswers(s, m, e, a) && FailureAborts(e.org)
    requires StoreInDb(s, m, e, a).report == Accepted
    ensures ClusterRowsAre(StoreInDb(s, m, e, a).store.tables.hits, m.cluster, HitRowsOf(m, e, a))
  {
    OrgStepKeepsGood(s.tables, m.cluster, m.org, e.org, a.current);
    AcceptedShape(s, m, e, a);
    ReplacedRows(MovedStore(s, m, e, a).tables.hits, m.org, m.cluster, HitRowsOf(m, e, a));
  }

  /** A message whose report was not accepted leaves the moved hits alone. */
  lemma RefusedHits(s: Store, m: Message, e: Env, a: Answers)
    requires StoreInDb(s, m, e, a).report != Accepted
    ensures StoreInDb(s, m, e, a).store.tables.hits == MovedStore(s, m, e, a).tables.hits
  {
    if ReachesReport(s, m, e, a) {
      var w := ReportWritten(s, m, e, a);
      RefusedWrite(MovedStore(s, m, e, a), m, m.lastChecked.value, e, a.created);
      RecommendationFrame(w.store, m, e, a.impacted);
      var r := WriteRecommendations(w.store, m, e, a.impacted);
      if r.Some? {
        InfoFrame(r.value, m, e.info);
      }
    }
  }

  /** A report write that is not accepted changes no table. */
  lemma RefusedWrite(s: Store, m: Message, last: Time, e: Env, created: map<string, Time>)
    requires WriteReport(s, m, last, e, created).outcome != Accepted
    ensures WriteReport(s, m, last, e, created).store.tables == s.tables
  {
  }

  /** A message whose report was refused as stale leaves the cache alone. */
  lemma RefusedCache(s: Store, m: Message, e: Env, a: Answers)
    requires CommitsRecommendations(s, m, e, a) && StoreInDb(s, m, e, a).report != Accepted
    ensures StoreInDb(s, m, e, a).store.cache == s.cache
  {
    RecommendationsLeft(s, m, e, a);
    var w := ReportWritten(s, m, e, a);
    assert w.outcome != Accepted;
    assert w.store == MovedStore(s, m, e, a);
  }

  /** A message that commits its recommendations in an instance that knows the cluster leaves exactly its own,
      even if its report was stale. */
  lemma KnownRecommendations(s: Store, m: Message, e: Env, a: Answers)
    requires Good(s.tables) && PossibleAnswers(s, m, e, a) && FailureAborts(e.org)
    requires CommitsRecommendations(s, m, e, a) && m.cluster in StoreInDb(s, m, e, a).store.cache
    ensures ClusterRowsAre(StoreInDb(s, m, e, a).store.tables.recs, m.cluster, RecommendationRowsOf(m, e, a))
  {
    OrgStepKeepsGood(s.tables, m.cluster, m.org, e.org, a.current);
    CommittedShape(s, m, e, a);
    ReplacedRows(MovedStore(s, m, e, a).tables.recs, m.org, m.cluster, RecommendationRowsOf(m, e, a));
  }

  /** Item `i` is the last one with the version key. */
  ghost predicate IsLastVersionItem(info: seq<InfoItem>, i: nat)
  {
    && i < |info| && info[i].infoId == "version_info|CLUSTER_VERSION_INFO"
    && forall j :: i < j < |info| ==> info[j].infoId != "version_info|CLUSTER_VERSION_INFO"
  }

  /** The version is that of the last version-info item, if there is one. */
  lemma {:induction false} LastVersionMeaning(info: seq<InfoItem>)
    ensures LastVersion(info).None? <==>
            forall i :: 0 <= i < |info| ==> info[i].infoId != "version_info|CLUSTER_VERSION_INFO"
    ensures LastVersion(info).Some? ==>
              exists i: nat ::
                && IsLastVersionItem(info, i)
                && LastVersion(info) == Some(if "version" in info[i].details then info[i].details["version"] else "")
  {
    if info != [] {
      var n := |info| - 1;
      if info[n].infoId == VERSION_INFO_KEY {
        assert IsLastVersionItem(info, n);
      } else {
        LastVersionMeaning(info[..n]);
        assert forall i :: 0 <= i < n ==> info[..n][i] == info[i];
        if i: nat :| IsLastVersionItem(info[..n], i) && LastVersion(info[..n]) == Some(VersionOf(info[..n][i])) {
          assert IsLastVersionItem(info, i);
        }
      }
    }
  }

  /** After an accepted message the report row is the message's, stamped with its times; after a successful one
      the info row holds its last version, or is the moved one if it has none. */
  lemma ReportAndInfoWritten(s: Store, m: Message, e: Env, a: Answers)
    ensures StoreInDb(s, m, e, a).report == Accepted ==>
              && ReachesReport(s, m, e, a)
              && StoreInDb(s, m, e, a).store.tables.report == MovedStore(s, m, e, a).tables.report[
                   m.cluster := ReportRow(m.org, m.report, e.storedAt, m.lastChecked.value, m.gatheredAt)]
    ensures StoreInDb(s, m, e, a).ok ==>
              StoreInDb(s, m, e, a).store.tables.info ==
                match LastVersion(m.info)
                case None => MovedStore(s, m, e, a).tables.info
                case Some(v) => MovedStore(s, m, e, a).tables.info[m.cluster := InfoRow(m.org, v)]
  {
    if StoreInDb(s, m, e, a).report == Accepted {
      AcceptedResult(s, m, e, a);
      WriteShape(MovedStore(s, m, e, a), m, m.lastChecked.value, e, a.created);
    }
    if StoreInDb(s, m, e, a).ok {
      var w := ReportWritten(s, m, e, a);
      InfoUntouched(MovedStore(s, m, e, a), m, m.lastChecked.value, e, a.created);
      RecommendationFrame(w.store, m, e, a.impacted);
    }
  }

  lemma InfoUntouched(s: Store, m: Message, last: Time, e: Env, created: map<string, Time>)
    ensures WriteReport(s, m, last, e, created).store.tables.info == s.tables.info
  {
    UpdateFrame(s.tables, m, last, e, created);
  }

  // ---------------------------------------------------------------------------
  // Recommendations against rule hits
  // ---------------------------------------------------------------------------

  /** The recommendations of `c` are the image of its rule hits under stripping ".report". */
  ghost predicate Mirrors(t: Tables, c: Cluster)
  {
    && (forall k: Key<Rule> :: k in t.recs && k.cluster == c ==>
          t.recs[k].ruleId == RuleIdOf(k.id)
          && exists h :: h in t.hits && h.cluster == c && h.org == k.org && Stripped(h.id) == k.id)
    && (forall h: Key<Rule> :: h in t.hits && h.cluster == c ==> Key(h.org, c, Stripped(h.id)) in t.recs)
  }

  /** After a successfully processed message whose report was accepted, the recommendations mirror the rule
      hits, both are those of this message alone, and no other cluster has changed. */
  lemma AcceptedMessageMirrors(s: Store, m: Message, e: Env, a: Answers)
    requires Good(s.tables) && PossibleAnswers(s, m, e, a) && FailureAborts(e.org)
    requires StoreInDb(s, m, e, a).ok && StoreInDb(s, m, e, a).report == Accepted
    ensures var t := StoreInDb(s, m, e, a).store.tables;
            && Mirrors(t, m.cluster) && UnderOrg(t, m.cluster, m.org)
            && (forall k :: k in t.hits && k.cluster == m.cluster <==>
                  exists i :: 0 <= i < |m.hits| && k == Key(m.org, m.cluster, m.hits[i].rule))
            && OthersSame(s.tables, t, m.cluster)
  {
    var t := StoreInDb(s, m, e, a).store.tables;
    StoreInDbKeepsGood(s, m, e, a);
    AcceptedShape(s, m, e, a);
    AcceptedHits(s, m, e, a);
    SuccessCommits(s, m, e, a);
    KnownRecommendations(s, m, e, a);
    RowsMirror(t, m, HitRowsOf(m, e, a), RecommendationRowsOf(m, e, a));
  }

  lemma RowsMirror(t: Tables, m: Message, hits: seq<(Key<Rule>, HitRow)>, recs: seq<(Key<Rule>, RecommendationRow)>)
    requires |hits| == |recs| == |m.hits|
    requires forall i :: 0 <= i < |hits| ==> hits[i].0 == Key(m.org, m.cluster, m.hits[i].rule)
    requires forall i :: 0 <= i < |recs| ==> var r := Stripped(m.hits[i].rule);
                                             recs[i].0 == Key(m.org, m.cluster, r) && recs[i].1.ruleId == RuleIdOf(r)
    requires ClusterRowsAre(t.hits, m.cluster, hits) && ClusterRowsAre(t.recs, m.cluster, recs)
    ensures Mirrors(t, m.cluster)
    ensures forall k :: k in t.hits && k.cluster == m.cluster <==>
                          exists i :: 0 <= i < |m.hits| && k == Key(m.org, m.cluster, m.hits[i].rule)
  {
    forall k | k in t.recs && k.cluster == m.cluster
      ensures t.recs[k].ruleId == RuleIdOf(k.id)
              && exists h :: h in t.hits && h.cluster == m.cluster && h.org == k.org && Stripped(h.id) == k.id {
      var i :| 0 <= i < |recs| && recs[i].0 == k;
      assert hits[i].0 in t.hits;
    }
    forall h | h in t.hits && h.cluster == m.cluster ensures Key(h.org, m.cluster, Stripped(h.id)) in t.recs {
      var i :| 0 <= i < |hits| && hits[i].0 == h;
      assert recs[i].0 in t.recs;
    }
    forall k ensures k in t.hits && k.cluster == m.cluster <==>
                     exists i :: 0 <= i < |m.hits| && k == Key(m.org, m.cluster, m.hits[i].rule) {
      HitKey(t.hits, m, hits, k);
    }
  }

  lemma HitKey(t: map<Key<Rule>, HitRow>, m: Message, hits: seq<(Key<Rule>, HitRow)>, k: Key<Rule>)
    requires |hits| == |m.hits| && ClusterRowsAre(t, m.cluster, hits)
    requires forall i :: 0 <= i < |hits| ==> hits[i].0 == Key(m.org, m.cluster, m.hits[i].rule)
    ensures k in t && k.cluster == m.cluster <==> exists i :: 0 <= i < |m.hits| && k == Key(m.org, m.cluster, m.hits[i].rule)
  {
    if k in t && k.cluster == m.cluster {
      var i :| 0 <= i < |hits| && hits[i].0 == k;
      assert k == Key(m.org, m.cluster, m.hits[i].rule);
    }
    if i :| 0 <= i < |m.hits| && k == Key(m.org, m.cluster, m.hits[i].rule) {
      assert hits[i].0 in t;
    }
  }

  ghost function HitRules(t: map<Key<Rule>, HitRow>, c: Cluster): set<Rule>
  {
    set k | k in t && k.cluster == c :: Stripped(k.id)
  }

  ghost function RecommendationRules(t: map<Key<Rule>, RecommendationRow>, c: Cluster): set<Rule>
  {
    set k | k in t && k.cluster == c :: k.id
  }

  ghost function MessageRules(m: Message): set<Rule>
  {
    set h | h in m.hits :: Stripped(h.rule)
  }

  /** Every recommendation of `c` has the rule ID of its rule. */
  ghost predicate RuleIdsMatch(t: map<Key<Rule>, RecommendationRow>, c: Cluster)
  {
    forall k :: k in t && k.cluster == c ==> t[k].ruleId == RuleIdOf(k.id)
  }

  /** Under one organization, mirroring is about the rules and their rule IDs. */
  lemma MirrorsMeaning(t: Tables, c: Cluster, org: OrgId)
    requires UnderOrg(t, c, org)
    ensures Mirrors(t, c) <==> RecommendationRules(t.recs, c) == HitRules(t.hits, c) && RuleIdsMatch(t.recs, c)
  {
    if Mirrors(t, c) {
      forall r ensures r in RecommendationRules(t.recs, c) <==> r in HitRules(t.hits, c) {
        if r in RecommendationRules(t.recs, c) {
          var k :| k in t.recs && k.cluster == c && k.id == r;
        }
        if r in HitRules(t.hits, c) {
          var h :| h in t.hits && h.cluster == c && Stripped(h.id) == r;
          assert Key(h.org, c, r) in t.recs;
        }
      }
    } else if RecommendationRules(t.recs, c) == HitRules(t.hits, c) && RuleIdsMatch(t.recs, c) {
      forall k | k in t.recs && k.cluster == c
        ensures exists h :: h in t.hits && h.cluster == c && h.org == k.org && Stripped(h.id) == k.id {
        assert k.id in HitRules(t.hits, c);
      }
      forall h | h in t.hits && h.cluster == c ensures Key(h.org, c, Stripped(h.id)) in t.recs {
        assert Stripped(h.id) in RecommendationRules(t.recs, c);
        var k :| k in t.recs && k.cluster == c && k.id == Stripped(h.id);
        assert k == Key(h.org, c, Stripped(h.id));
      }
    }
  }

  /** What a message with a stale report leaves once it commits its recommendations: the rule hits keep their rules,
      but the recommendations become those of the stale message, added to the present ones if the instance does not
      know the cluster. So they mirror the hits iff these rules happen to be the same. */
  lemma StaleMessageMirrorsExactly(s: Store, m: Message, e: Env, a: Answers)
    requires Good(s.tables) && PossibleAnswers(s, m, e, a) && FailureAborts(e.org)
    requires CommitsRecommendations(s, m, e, a) && StoreInDb(s, m, e, a).report != Accepted
    ensures var t := StoreInDb(s, m, e, a).store.tables;
            var kept := if m.cluster in s.cache then {} else RecommendationRules(s.tables.recs, m.cluster);
            && HitRules(t.hits, m.cluster) == HitRules(s.tables.hits, m.cluster)
            && RecommendationRules(t.recs, m.cluster) == MessageRules(m) + kept
            && (Mirrors(t, m.cluster) <==>
                  && MessageRules(m) + kept == HitRules(s.tables.hits, m.cluster)
                  && (m.cluster !in s.cache ==> RuleIdsMatch(s.tables.recs, m.cluster)))
  {
    RefusedHits(s, m, e, a);
    MovedRules(s.tables, m, e, a);
    StaleRecommendations(s, m, e, a);
    StoreInDbKeepsGood(s, m, e, a);
    MirrorsMeaning(StoreInDb(s, m, e, a).store.tables, m.cluster, m.org);
  }

  lemma StaleRecommendations(s: Store, m: Message, e: Env, a: Answers)
    requires Good(s.tables) && PossibleAnswers(s, m, e, a) && FailureAborts(e.org)
    requires CommitsRecommendations(s, m, e, a) && StoreInDb(s, m, e, a).report != Accepted
    ensures var recs := StoreInDb(s, m, e, a).store.tables.recs;
            var moved := MovedStore(s, m, e, a).tables.recs;
            if m.cluster in s.cache
            then RecommendationRules(recs, m.cluster) == MessageRules(m) && RuleIdsMatch(recs, m.cluster)
            else && RecommendationRules(recs, m.cluster) == MessageRules(m) + RecommendationRules(moved, m.cluster)
                 && (RuleIdsMatch(recs, m.cluster) <==> RuleIdsMatch(moved, m.cluster))
  {
    CommittedShape(s, m, e, a);
    RefusedCache(s, m, e, a);
    if m.cluster in s.cache {
      KnownRecommendations(s, m, e, a);
      RulesOfRows(StoreInDb(s, m, e, a).store.tables.recs, m, e, a);
    } else {
      var rows := RecommendationRows(m.org, m.cluster, m.hits, ToSecond(e.storedAt), map[]);
      AddedRules(MovedStore(s, m, e, a).tables.recs, m, rows);
      AddedRuleIds(MovedStore(s, m, e, a).tables.recs, m.cluster, rows);
    }
  }

  lemma AddedRuleIds(recs: map<Key<Rule>, RecommendationRow>, c: Cluster, rows: seq<(Key<Rule>, RecommendationRow)>)
    requires CanInsert(recs, rows) && forall i :: 0 <= i < |rows| ==> rows[i].1.ruleId == RuleIdOf(rows[i].0.id)
    ensures RuleIdsMatch(Insert(recs, rows), c) <==> RuleIdsMatch(recs, c)
  {
    forall k | k in recs ensures k in Insert(recs, rows) && Insert(recs, rows)[k] == recs[k] {}
  }

  lemma MovedRules(t: Tables, m: Message, e: Env, a: Answers)
    requires Good(t) && FailureAborts(e.org)
    ensures var t' := MoveOrg(t, m.cluster, m.org, e.org, a.current).tables;
            && HitRules(t'.hits, m.cluster) == HitRules(t.hits, m.cluster)
            && RecommendationRules(t'.recs, m.cluster) == RecommendationRules(t.recs, m.cluster)
            && (RuleIdsMatch(t'.recs, m.cluster) <==> RuleIdsMatch(t.recs, m.cluster))
  {
    MoveOrgTables(t, m.cluster, m.org, e.org, a.current);
    MovedHitRules(t.hits, m.cluster, m.org);
    MovedRecommendationRules(t.recs, m.cluster, m.org);
  }

  lemma MovedHitRules(t: map<Key<Rule>, HitRow>, c: Cluster, org: OrgId)
    requires CanMove(t, c, org)
    ensures HitRules(Move(t, c, org), c) == HitRules(t, c)
  {
    MovedIds(t, c, org);
    var t' := Move(t, c, org);
    forall r | r in HitRules(t', c) ensures r in HitRules(t, c) {
      var l :| l in t' && l.cluster == c && Stripped(l.id) == r;
      var k :| k in t && k.cluster == c && k.id == l.id;
    }
    forall r | r in HitRules(t, c) ensures r in HitRules(t', c) {
      var k :| k in t && k.cluster == c && Stripped(k.id) == r;
      assert Key(org, c, k.id) in t';
    }
  }

  lemma MovedRecommendationRules(t: map<Key<Rule>, RecommendationRow>, c: Cluster, org: OrgId)
    requires CanMove(t, c, org)
    ensures RecommendationRules(Move(t, c, org), c) == RecommendationRules(t, c)
    ensures RuleIdsMatch(Move(t, c, org), c) <==> RuleIdsMatch(t, c)
  {
    MovedIds(t, c, org);
    var t' := Move(t, c, org);
    if RuleIdsMatch(t', c) {
      forall k | k in t && k.cluster == c ensures t[k].ruleId == RuleIdOf(k.id) {
        assert Key(org, c, k.id) in t';
      }
    }
    forall r | r in RecommendationRules(t, c) ensures r in RecommendationRules(t', c) {
      assert Key(org, c, r) in t';
    }
  }

  /** A move keeps the items of the cluster. */
  lemma MovedIds<V>(t: map<Key<Rule>, V>, c: Cluster, org: OrgId)
    requires CanMove(t, c, org)
    ensures forall k :: k in t && k.cluster == c ==> Key(org, c, k.id) in Move(t, c, org)
                                                     && Move(t, c, org)[Key(org, c, k.id)] == t[k]
    ensures forall l :: l in Move(t, c, org) && l.cluster == c ==>
                          exists k :: k in t && k.cluster == c && k.id == l.id && t[k] == Move(t, c, org)[l]
  {
    forall k | k in t && k.cluster == c
      ensures Key(org, c, k.id) in Move(t, c, org) && Move(t, c, org)[Key(org, c, k.id)] == t[k] {
      assert MoveKey(k, c, org) == Key(org, c, k.id);
    }
    forall l | l in Move(t, c, org) && l.cluster == c
      ensures exists k :: k in t && k.cluster == c && k.id == l.id && t[k] == Move(t, c, org)[l] {
      var k :| k in t && MoveKey(k, c, org) == l;
    }
  }

  lemma RulesOfRows(recs: map<Key<Rule>, RecommendationRow>, m: Message, e: Env, a: Answers)
    requires ClusterRowsAre(recs, m.cluster, RecommendationRowsOf(m, e, a))
    ensures RecommendationRules(recs, m.cluster) == MessageRules(m) && RuleIdsMatch(recs, m.cluster)
  {
    var rows := RecommendationRowsOf(m, e, a);
    forall r ensures r in RecommendationRules(recs, m.cluster) <==> r in MessageRules(m) {
      if r in RecommendationRules(recs, m.cluster) {
        var k :| k in recs && k.cluster == m.cluster && k.id == r;
        var i :| 0 <= i < |rows| && rows[i].0 == k;
        assert m.hits[i] in m.hits;
      }
      if r in MessageRules(m) {
        var h :| h in m.hits && Stripped(h.rule) == r;
        var i :| 0 <= i < |m.hits| && m.hits[i] == h;
        assert rows[i].0 in recs;
      }
    }
  }

  lemma AddedRules(recs: map<Key<Rule>, RecommendationRow>, m: Message, rows: seq<(Key<Rule>, RecommendationRow)>)
    requires |rows| == |m.hits| && forall i :: 0 <= i < |rows| ==> rows[i].0 == Key(m.org, m.cluster, Stripped(m.hits[i].rule))
    requires CanInsert(recs, rows)
    ensures RecommendationRules(Insert(recs, rows), m.cluster) == MessageRules(m) + RecommendationRules(recs, m.cluster)
  {
    forall r
      ensures r in RecommendationRules(Insert(recs, rows), m.cluster) <==>
              r in MessageRules(m) || r in RecommendationRules(recs, m.cluster) {
      if r in RecommendationRules(Insert(recs, rows), m.cluster) {
        AddedRule(recs, m, rows, r);
      }
      if r in MessageRules(m) || r in RecommendationRules(recs, m.cluster) {
        PresentRule(recs, m, rows, r);
      }
    }
  }

  lemma PresentRule(recs: map<Key<Rule>, RecommendationRow>, m: Message, rows: seq<(Key<Rule>, RecommendationRow)>, r: Rule)
    requires |rows| == |m.hits| && forall i :: 0 <= i < |rows| ==> rows[i].0 == Key(m.org, m.cluster, Stripped(m.hits[i].rule))
    requires CanInsert(recs, rows)
    requires r in MessageRules(m) || r in RecommendationRules(recs, m.cluster)
    ensures r in RecommendationRules(Insert(recs, rows), m.cluster)
  {
    if r in MessageRules(m) {
      var h :| h in m.hits && Stripped(h.rule) == r;
      var i :| 0 <= i < |m.hits| && m.hits[i] == h;
      assert rows[i].0 in Insert(recs, rows);
    } else {
      var k :| k in recs && k.cluster == m.cluster && k.id == r;
      assert k in Insert(recs, rows);
    }
  }

  lemma AddedRule(recs: map<Key<Rule>, RecommendationRow>, m: Message, rows: seq<(Key<Rule>, RecommendationRow)>, r: Rule)
    requires |rows| == |m.hits| && forall i :: 0 <= i < |rows| ==> rows[i].0 == Key(m.org, m.cluster, Stripped(m.hits[i].rule))
    requires CanInsert(recs, rows)
    requires r in RecommendationRules(Insert(recs, rows), m.cluster)
    ensures r in MessageRules(m) || r in RecommendationRules(recs, m.cluster)
  {
    var k :| k in Insert(recs, rows) && k.cluster == m.cluster && k.id == r;
    if k !in recs {
      var i :| 0 <= i < |rows| && rows[i].0 == k;
      assert m.hits[i] in m.hits;
    }
  }

  /** A successful message takes a mirrored cluster out of step. */
  ghost predicate Breaks(s: Store, m: Message, e: Env, a: Answers)
  {
    && Good(s.tables) && Mirrors(s.tables, m.cluster)
    && PossibleAnswers(s, m, e, a) && FailureAborts(e.org)
    && StoreInDb(s, m, e, a).ok && !Mirrors(StoreInDb(s, m, e, a).store.tables, m.cluster)
  }

  /** A cluster whose last report, of time 10, had no hits. */
  function QuietStore(c: Cluster): Store
  {
    Store(Tables(map[c := ReportRow(1, "", 0, 10, None)], map[], map[], map[], map[], map[], map[]), map[c := 10])
  }

  /** An older report with one hit. */
  function OlderMessage(c: Cluster): Message
  {
    Message(1, c, "", [Hit(Rule("a.report", "KEY"), "")], [], Some(5), None)
  }

  function Faultless(): Env
  {
    Env(OrgFaults(false, {}, {}, false), false, WriteFaults(false, false, false, false, false, false, false),
        RecFaults(false, false, false, false, false, false), InfoFaults(false, false, false), 0, (n: nat) => 0)
  }

  lemma QuietIsGood(c: Cluster)
    ensures Good(QuietStore(c).tables) && Mirrors(QuietStore(c).tables, c)
    ensures HitRules(QuietStore(c).tables.hits, c) == {}
  {
    forall d ensures OneOrg(QuietStore(c).tables, d) {
      assert UnderOrg(QuietStore(c).tables, d, 1);
    }
  }

  lemma OlderIsRefused(c: Cluster)
    ensures var a := Answers(Some(1), map[], map[]);
            && OrgAnswer(QuietStore(c).tables, c, Faultless().org, Some(1))
            && MovedStore(QuietStore(c), OlderMessage(c), Faultless(), a) == QuietStore(c)
            && ReachesReport(QuietStore(c), OlderMessage(c), Faultless(), a)
            && ReportWritten(QuietStore(c), OlderMessage(c), Faultless(), a) == Written(QuietStore(c), OldReport)
  {
    assert HasOrg(QuietStore(c).tables, TABLES_TO_CHECK[0], c, 1);
  }

  /** An input that breaks the mirror: an instance gets a report, with one hit, older than the one it has stored,
      which had none. */
  lemma StaleMessageBreaksMirror(c: Cluster)
    ensures Breaks(QuietStore(c), OlderMessage(c), Faultless(), Answers(Some(1), map[], map[]))
  {
    var s, m, e, a := QuietStore(c), OlderMessage(c), Faultless(), Answers(Some(1), map[], map[]);
    QuietIsGood(c);
    OlderIsRefused(c);
    assert WriteRecommendations(s, m, e, map[]).Some?;
    assert LastVersion(m.info).None?;
    StaleMessageMirrorsExactly(s, m, e, a);
    assert m.hits[0] in m.hits && Stripped(m.hits[0].rule) in MessageRules(m);
  }

  // ---------------------------------------------------------------------------
  // The times of a new rule
  // ---------------------------------------------------------------------------

  /** After an accepted, successful message a rule that is new to both tables has the same time in them iff the clock
      was still in the second of the write's timestamp when the rule was visited. */
  lemma NewTimesAgreeExactly(s: Store, m: Message, e: Env, a: Answers, i: nat)
    requires Good(s.tables) && PossibleAnswers(s, m, e, a) && FailureAborts(e.org)
    requires StoreInDb(s, m, e, a).ok && StoreInDb(s, m, e, a).report == Accepted && i < |m.hits|
    requires LookupKey(m.hits[i].rule) !in EarlierHits(e, a)
    requires e.rec.lookup || LookupKey(Stripped(m.hits[i].rule)) !in a.impacted
    ensures var t := StoreInDb(s, m, e, a).store.tables;
            var h, r := Key(m.org, m.cluster, m.hits[i].rule), Key(m.org, m.cluster, Stripped(m.hits[i].rule));
            && h in t.hits && r in t.recs
            && (t.hits[h].createdAt == t.recs[r].impactedSince <==> ToSecond(e.clock(i)) == ToSecond(e.storedAt))
  {
    AcceptedShape(s, m, e, a);
    AcceptedHits(s, m, e, a);
    SuccessCommits(s, m, e, a);
    KnownRecommendations(s, m, e, a);
    ToSecondIdempotent(e.storedAt);
    var hits, recs := HitRowsOf(m, e, a), RecommendationRowsOf(m, e, a);
    assert hits[i].0 == Key(m.org, m.cluster, m.hits[i].rule);
    assert recs[i].0 == Key(m.org, m.cluster, Stripped(m.hits[i].rule));
  }

  /** A report newer than that of the quiet store. */
  function NewerMessage(c: Cluster): Message
  {
    OlderMessage(c).(lastChecked := Some(20))
  }

  /** The write is stamped at the start of a second; when its rules are visited the clock has reached the next. */
  function SlowClock(): Env
  {
    Faultless().(clock := (n: nat) => SECOND)
  }

  /** The rule of key `h` has different times in the two tables. */
  predicate TimesDiffer(t: Tables, h: Key<Rule>)
  {
    var r := h.(id := Stripped(h.id));
    h in t.hits && r in t.recs && t.hits[h].createdAt != t.recs[r].impactedSince
  }

  lemma NewTimesDiffer(s: Store, m: Message, e: Env, a: Answers, i: nat)
    requires Good(s.tables) && PossibleAnswers(s, m, e, a) && FailureAborts(e.org)
    requires StoreInDb(s, m, e, a).ok && StoreInDb(s, m, e, a).report == Accepted && i < |m.hits|
    requires a.created == map[] && a.impacted == map[] && ToSecond(e.clock(i)) != ToSecond(e.storedAt)
    ensures TimesDiffer(StoreInDb(s, m, e, a).store.tables, Key(m.org, m.cluster, m.hits[i].rule))
  {
    NewTimesAgreeExactly(s, m, e, a, i);
  }

  /** An input for which they differ. */
  lemma NewTimesCanDiffer(c: Cluster)
    ensures var s, m, e, a := QuietStore(c), NewerMessage(c), SlowClock(), Answers(Some(1), map[], map[]);
            && PossibleAnswers(s, m, e, a) && StoreInDb(s, m, e, a).ok && StoreInDb(s, m, e, a).report == Accepted
            && TimesDiffer(StoreInDb(s, m, e, a).store.tables, Key(1, c, m.hits[0].rule))
  {
    QuietIsGood(c);
    NewerIsAccepted(c);
    assert ToSecond(SECOND) == SECOND && ToSecond(0) == 0;
    NewTimesDiffer(QuietStore(c), NewerMessage(c), SlowClock(), Answers(Some(1), map[], map[]), 0);
  }

  lemma NewerIsAccepted(c: Cluster)
    ensures var s, m, e, a := QuietStore(c), NewerMessage(c), SlowClock(), Answers(Some(1), map[], map[]);
            PossibleAnswers(s, m, e, a) && StoreInDb(s, m, e, a).ok && StoreInDb(s, m, e, a).report == Accepted
  {
    var s, m, e, a := QuietStore(c), NewerMessage(c), SlowClock(), Answers(Some(1), map[], map[]);
    assert HasOrg(s.tables, TABLES_TO_CHECK[0], c, 1);
    assert MovedStore(s, m, e, a) == s;
    assert UpdateReport(s.tables, m, 20, e, map[]).Some?;
    ReportKeepsRecommendations(s, m, 20, e, map[]);
    assert WriteRecommendations(ReportWritten(s, m, e, a).store, m, e, map[]).Some?;
    assert LastVersion(m.info).None?;
  }
}
