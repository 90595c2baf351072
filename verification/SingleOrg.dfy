/**
 All rows of a cluster belong to one organization, and the org move changes
 nothing but that organization.
 */
module SingleOrg {
  import opened Options
  import opened Timeline
  import opened Schema
  import opened Inserts
  import opened Protocol

  /** Every row of `c` in report, rule_hit, recommendation and report_info is under `org`. */
  ghost predicate UnderOrg(t: Tables, c: Cluster, org: OrgId)
  {
    && (c in t.report ==> t.report[c].org == org)
    && (forall k :: k in t.hits && k.cluster == c ==> k.org == org)
    && (forall k :: k in t.recs && k.cluster == c ==> k.org == org)
    && (c in t.info ==> t.info[c].org == org)
  }

  ghost predicate OneOrg(t: Tables, c: Cluster)
  {
    exists org :: UnderOrg(t, c, org)
  }

  /** Rule hits are written together with their report row. */
  ghost predicate HitsHaveReport(t: Tables)
  {
    forall k :: k in t.hits ==> k.cluster in t.report
  }

  ghost predicate Good(t: Tables)
  {
    HitsHaveReport(t) && forall c :: OneOrg(t, c)
  }

  /** The rows of cluster `d` are the same in both. */
  ghost predicate SameCluster(t: Tables, t': Tables, d: Cluster)
  {
    && (d in t.report <==> d in t'.report) && (d in t.report ==> t.report[d] == t'.report[d])
    && SameRows(t.hits, t'.hits, d) && SameRows(t.recs, t'.recs, d)
    && (d in t.info <==> d in t'.info) && (d in t.info ==> t.info[d] == t'.info[d])
    && SameUsers(t.toggles, t'.toggles, d) && SameUsers(t.feedback, t'.feedback, d) && SameUsers(t.disables, t'.disables, d)
  }

  ghost predicate SameRows<D(!new), V>(t: map<Key<D>, V>, t': map<Key<D>, V>, d: Cluster)
  {
    forall k: Key<D> :: k.cluster == d ==> (k in t <==> k in t') && (k in t ==> t[k] == t'[k])
  }

  ghost predicate SameUsers(t: map<UserKey, OrgId>, t': map<UserKey, OrgId>, d: Cluster)
  {
    forall k: UserKey :: k.cluster == d ==> (k in t <==> k in t') && (k in t ==> t[k] == t'[k])
  }

  ghost predicate OthersSame(t: Tables, t': Tables, c: Cluster)
  {
    forall d :: d != c ==> SameCluster(t, t', d)
  }

  lemma OthersSameTransitive(t0: Tables, t1: Tables, t2: Tables, c: Cluster)
    requires OthersSame(t0, t1, c) && OthersSame(t1, t2, c)
    ensures OthersSame(t0, t2, c)
  {
    forall d | d != c ensures SameCluster(t0, t2, d) {
      assert SameCluster(t0, t1, d) && SameCluster(t1, t2, d);
    }
  }

  /** A change to `c` alone keeps the invariant if `c` ends up under one organization. */
  lemma GoodAfterChange(t: Tables, t': Tables, c: Cluster, org: OrgId)
    requires Good(t) && OthersSame(t, t', c) && UnderOrg(t', c, org)
    requires forall k :: k in t'.hits && k.cluster == c ==> c in t'.report
    ensures Good(t')
  {
    forall d ensures OneOrg(t', d) {
      if d == c {
        assert UnderOrg(t', d, org);
      } else {
        assert SameCluster(t, t', d);
        assert OneOrg(t, d);
        var o :| UnderOrg(t, d, o);
        assert UnderOrg(t', d, o);
      }
    }
    forall k | k in t'.hits ensures k.cluster in t'.report {
      if k.cluster != c {
        assert SameCluster(t, t', k.cluster);
      }
    }
  }

  // ---------------------------------------------------------------------------
  // The move itself
  // ---------------------------------------------------------------------------

  /** An org update collides iff two rows of the cluster differ in nothing but the organization. */
  lemma CanMoveExactly<D, V>(t: map<Key<D>, V>, c: Cluster, org: OrgId)
    ensures CanMove(t, c, org) <==>
            forall k, l :: k in t && l in t && k.cluster == c && l.cluster == c && k.id == l.id ==> k == l
  {
    if CanMove(t, c, org) {
      forall k, l | k in t && l in t && k.cluster == c && l.cluster == c && k.id == l.id ensures k == l {
        assert MoveKey(k, c, org) == MoveKey(l, c, org);
      }
    }
  }

  /** The update is a bijection on rows that keeps every column but org_id. */
  lemma MoveLosesNothing<D(!new), V>(t: map<Key<D>, V>, c: Cluster, org: OrgId)
    requires CanMove(t, c, org)
    ensures forall k :: k in t ==> MoveKey(k, c, org) in Move(t, c, org) && Move(t, c, org)[MoveKey(k, c, org)] == t[k]
    ensures forall l :: l in Move(t, c, org) ==> exists k :: k in t && MoveKey(k, c, org) == l
    ensures |Move(t, c, org)| == |t|
    ensures forall l :: l in Move(t, c, org) && l.cluster == c ==> l.org == org
    ensures forall d :: d != c ==> SameRows(t, Move(t, c, org), d)
  {
    MoveSize(t, c, org);
    var t' := Move(t, c, org);
    forall l | l in t' && l.cluster != c ensures l in t && t'[l] == t[l] {
      var k :| k in t && MoveKey(k, c, org) == l;
    }
    forall l | l in t && l.cluster != c ensures l in t' && t'[l] == t[l] {
      assert MoveKey(l, c, org) == l;
    }
  }

  lemma MoveSize<D, V>(t: map<Key<D>, V>, c: Cluster, org: OrgId)
    requires CanMove(t, c, org)
    ensures |Move(t, c, org)| == |t|
  {
    MovedKeysSize(t.Keys, c, org);
    assert Move(t, c, org).Keys == set k | k in t.Keys :: MoveKey(k, c, org);
  }

  lemma {:induction false} MovedKeysSize<D>(keys: set<Key<D>>, c: Cluster, org: OrgId)
    requires forall k, l :: k in keys && l in keys && MoveKey(k, c, org) == MoveKey(l, c, org) ==> k == l
    ensures |set k | k in keys :: MoveKey(k, c, org)| == |keys|
    decreases |keys|
  {
    if keys != {} {
      var x :| x in keys;
      var rest := keys - {x};
      MovedKeysSize(rest, c, org);
      var image := set k | k in rest :: MoveKey(k, c, org);
      assert MoveKey(x, c, org) !in image;
      assert (set k | k in keys :: MoveKey(k, c, org)) == image + {MoveKey(x, c, org)};
    }
  }

  /** With all its rows under one organization, no update of the cluster can collide. */
  lemma NoCollision(t: Tables, c: Cluster, org: OrgId)
    requires OneOrg(t, c)
    ensures CanMove(t.hits, c, org) && CanMove(t.recs, c, org)
  {
    var o :| UnderOrg(t, c, o);
    CanMoveExactly(t.hits, c, org);
    CanMoveExactly(t.recs, c, org);
  }

  /** The org step keeps every other cluster, whatever fails. */
  lemma MoveKeepsOthers(t: Tables, c: Cluster, org: OrgId, failing: set<TableId>)
    ensures OthersSame(t, MoveAll(t, c, org, failing), c)
  {
    forall d | d != c ensures SameCluster(t, MoveAll(t, c, org, failing), d) {
      MoveKeepsOther(t, c, org, failing, d);
    }
  }

  lemma MoveKeepsOther(t: Tables, c: Cluster, org: OrgId, failing: set<TableId>, d: Cluster)
    requires d != c
    ensures SameCluster(t, MoveAll(t, c, org, failing), d)
  {
    var t' := MoveAll(t, c, org, failing);
    assert SameRows(t.hits, t'.hits, d) by {
      if CanMove(t.hits, c, org) { OtherRowsSame(t.hits, c, org, d); }
    }
    assert SameRows(t.recs, t'.recs, d) by {
      if CanMove(t.recs, c, org) { OtherRowsSame(t.recs, c, org, d); }
    }
    assert SameUsers(t.toggles, t'.toggles, d) by { OtherUsersSame(t.toggles, c, org, d); }
    assert SameUsers(t.feedback, t'.feedback, d) by { OtherUsersSame(t.feedback, c, org, d); }
    assert SameUsers(t.disables, t'.disables, d) by { OtherUsersSame(t.disables, c, org, d); }
  }

  lemma OtherRowsSame<D(!new), V>(t: map<Key<D>, V>, c: Cluster, org: OrgId, d: Cluster)
    requires CanMove(t, c, org) && d != c
    ensures SameRows(t, Move(t, c, org), d)
  {
    MoveLosesNothing(t, c, org);
  }

  lemma OtherUsersSame(t: map<UserKey, OrgId>, c: Cluster, org: OrgId, d: Cluster)
    requires d != c
    ensures SameUsers(t, MoveUsers(t, c, org), d)
  {
  }

  /** If no update fails, every row of the cluster ends up under the new organization. */
  lemma MoveReachesAll(t: Tables, c: Cluster, org: OrgId)
    requires OneOrg(t, c)
    ensures UnderOrg(MoveAll(t, c, org, {}), c, org)
  {
    NoCollision(t, c, org);
    MoveLosesNothing(t.hits, c, org);
    MoveLosesNothing(t.recs, c, org);
    MoveAllMainTables(t, c, org);
  }

  /** Moving every table moves the main ones, each by itself. */
  lemma MoveAllMainTables(t: Tables, c: Cluster, org: OrgId)
    requires CanMove(t.hits, c, org) && CanMove(t.recs, c, org)
    ensures var t' := MoveAll(t, c, org, {});
            && t'.report == MoveReport(t.report, c, org) && t'.info == MoveInfo(t.info, c, org)
            && t'.hits == Move(t.hits, c, org) && t'.recs == Move(t.recs, c, org)
  {
  }

  /** The org that the check reports is the one all rows of the cluster are under. */
  lemma CurrentOrgIsTheOrg(t: Tables, c: Cluster, current: Option<OrgId>, org: OrgId)
    requires Good(t) && IsCurrentOrg(t, c, TABLES_TO_CHECK, current)
    requires current.None? || current.value == org
    ensures UnderOrg(t, c, org)
  {
    assert OneOrg(t, c);
    var o :| UnderOrg(t, c, o);
    match current
    case Some(_) =>
      var i :| 0 <= i < |TABLES_TO_CHECK| && HasOrg(t, TABLES_TO_CHECK[i], c, org);
      assert o == org;
    case None =>
      assert !HasRows(t, TABLES_TO_CHECK[0], c) && !HasRows(t, TABLES_TO_CHECK[1], c) && !HasRows(t, TABLES_TO_CHECK[2], c);
      MainRows(t, c);
  }

  /** When a main table has a row of the cluster. */
  lemma MainRows(t: Tables, c: Cluster)
    ensures HasRows(t, Report, c) <==> c in t.report
    ensures HasRows(t, ReportInfo, c) <==> c in t.info
    ensures HasRows(t, RuleHit, c) <==> exists k :: k in t.hits && k.cluster == c
    ensures HasRows(t, Recommendation, c) <==> exists k :: k in t.recs && k.cluster == c
  {
    if c in t.report { assert HasOrg(t, Report, c, t.report[c].org); }
    if c in t.info { assert HasOrg(t, ReportInfo, c, t.info[c].org); }
    if k :| k in t.hits && k.cluster == c { assert HasOrg(t, RuleHit, c, k.org); }
    if k :| k in t.recs && k.cluster == c { assert HasOrg(t, Recommendation, c, k.org); }
  }

  // ---------------------------------------------------------------------------
  // The org step, row by row
  // ---------------------------------------------------------------------------

  /** A query of the check fails before one has found a row of the cluster. */
  ghost predicate CheckBreaks(t: Tables, c: Cluster, failing: set<TableId>)
  {
    || Report in failing
    || (c !in t.report
        && (Recommendation in failing || ((forall k :: k in t.recs ==> k.cluster != c) && ReportInfo in failing)))
  }

  /** A table the check reads has a row of the cluster under another organization. */
  ghost predicate Elsewhere(t: Tables, c: Cluster, org: OrgId)
  {
    || (c in t.report && t.report[c].org != org)
    || (exists k :: k in t.recs && k.cluster == c && k.org != org)
    || (c in t.info && t.info[c].org != org)
  }

  ghost predicate ReportsRehomed(t: map<Cluster, ReportRow>, t': map<Cluster, ReportRow>, c: Cluster, org: OrgId)
  {
    t'.Keys == t.Keys && forall d :: d in t ==> t'[d] == if d == c then t[d].(org := org) else t[d]
  }

  ghost predicate InfosRehomed(t: map<Cluster, InfoRow>, t': map<Cluster, InfoRow>, c: Cluster, org: OrgId)
  {
    t'.Keys == t.Keys && forall d :: d in t ==> t'[d] == if d == c then t[d].(org := org) else t[d]
  }

  ghost predicate UsersRehomed(t: map<UserKey, OrgId>, t': map<UserKey, OrgId>, c: Cluster, org: OrgId)
  {
    t'.Keys == t.Keys && forall k :: k in t ==> t'[k] == if k.cluster == c then org else t[k]
  }

  ghost predicate MainRehomed(t: Tables, t': Tables, c: Cluster, org: OrgId)
  {
    && ReportsRehomed(t.report, t'.report, c, org) && InfosRehomed(t.info, t'.info, c, org)
    && Rehomed(t.hits, t'.hits, c, org) && Rehomed(t.recs, t'.recs, c, org)
  }

  ghost predicate AllUsersRehomed(t: Tables, t': Tables, c: Cluster, org: OrgId)
  {
    && UsersRehomed(t.toggles, t'.toggles, c, org) && UsersRehomed(t.feedback, t'.feedback, c, org)
    && UsersRehomed(t.disables, t'.disables, c, org)
  }

  lemma CheckFailsExactly(t: Tables, c: Cluster, failing: set<TableId>)
    ensures CheckFails(t, c, TABLES_TO_CHECK, failing) <==> CheckBreaks(t, c, failing)
  {
    MainRows(t, c);
    var ids := TABLES_TO_CHECK;
    assert ids[0] == Report && ids[1] == Recommendation && ids[2] == ReportInfo;
    assert HasRows(t, ids[0], c) <==> c in t.report;
    assert HasRows(t, ids[1], c) <==> exists k :: k in t.recs && k.cluster == c;
    if CheckBreaks(t, c, failing) {
      var i := if Report in failing then 0 else if Recommendation in failing then 1 else 2;
      assert ids[i] in failing && forall j :: 0 <= j < i ==> !HasRows(t, ids[j], c);
    }
  }

  /** The check finds an organization other than `org` iff a row is elsewhere. */
  lemma CurrentElsewhere(t: Tables, c: Cluster, current: Option<OrgId>, org: OrgId)
    requires Good(t) && IsCurrentOrg(t, c, TABLES_TO_CHECK, current)
    ensures current.Some? && current.value != org <==> Elsewhere(t, c, org)
  {
    if current.None? || current.value == org {
      CurrentOrgIsTheOrg(t, c, current, org);
    } else {
      assert OneOrg(t, c);
      var i :| 0 <= i < |TABLES_TO_CHECK| && HasOrg(t, TABLES_TO_CHECK[i], c, current.value);
      assert TABLES_TO_CHECK[i] in {Report, Recommendation, ReportInfo};
    }
  }

  lemma MoveRehomes<V>(t: map<Key<Rule>, V>, c: Cluster, org: OrgId)
    requires CanMove(t, c, org)
    ensures Rehomed(t, Move(t, c, org), c, org)
  {
    forall k | k in t ensures MoveKey(k, c, org) == if k.cluster == c then Key(org, c, k.id) else k {}
    forall l | l in Move(t, c, org)
      ensures if l.cluster != c then l in t else l.org == org && exists k :: k in t && k.cluster == c && k.id == l.id {
      var k :| k in t && MoveKey(k, c, org) == l;
    }
  }

  lemma AtHomeAlready<V>(t: map<Key<Rule>, V>, c: Cluster, org: OrgId)
    requires forall k :: k in t && k.cluster == c ==> k.org == org
    ensures Rehomed(t, t, c, org)
  {
    forall k | k in t && k.cluster == c ensures Key(org, c, k.id) == k {}
  }

  lemma MoveAllRehomes(t: Tables, c: Cluster, org: OrgId)
    requires OneOrg(t, c)
    ensures MainRehomed(t, MoveAll(t, c, org, {}), c, org) && AllUsersRehomed(t, MoveAll(t, c, org, {}), c, org)
  {
    NoCollision(t, c, org);
    MoveAllMainTables(t, c, org);
    MoveAllUserTables(t, c, org);
    MoveRehomes(t.hits, c, org);
    MoveRehomes(t.recs, c, org);
    MoveRehomesRows(t, c, org);
    MoveRehomesUsers(t.toggles, c, org);
    MoveRehomesUsers(t.feedback, c, org);
    MoveRehomesUsers(t.disables, c, org);
  }

  lemma MoveAllUserTables(t: Tables, c: Cluster, org: OrgId)
    ensures var t' := MoveAll(t, c, org, {});
            && t'.toggles == MoveUsers(t.toggles, c, org) && t'.feedback == MoveUsers(t.feedback, c, org)
            && t'.disables == MoveUsers(t.disables, c, org)
  {
  }

  lemma MoveRehomesRows(t: Tables, c: Cluster, org: OrgId)
    ensures ReportsRehomed(t.report, MoveReport(t.report, c, org), c, org)
    ensures InfosRehomed(t.info, MoveInfo(t.info, c, org), c, org)
  {
  }

  lemma MoveRehomesUsers(t: map<UserKey, OrgId>, c: Cluster, org: OrgId)
    ensures UsersRehomed(t, MoveUsers(t, c, org), c, org)
  {
  }

  lemma AllAtHome(t: Tables, c: Cluster, org: OrgId)
    requires UnderOrg(t, c, org)
    ensures MainRehomed(t, t, c, org)
  {
    AtHomeAlready(t.hits, c, org);
    AtHomeAlready(t.recs, c, org);
  }

  lemma MoveOrgResult(t: Tables, c: Cluster, org: OrgId, f: OrgFaults, current: Option<OrgId>)
    ensures var r := MoveOrg(t, c, org, f, current);
            && (r.ok <==> OrgStepWorks(t, c, f))
            && r.tables == if r.ok && current.Some? && current.value != org then MoveAll(t, c, org, f.update) else t
  {
  }

  /** The org step works iff its check and its commit do, failed updates notwithstanding, and otherwise changes nothing.
      With every update it brings every row of the four main tables under the organization; if one of them was elsewhere,
      the three user tables follow, and if not, nothing changes. */
  lemma OrgStepExactly(t: Tables, c: Cluster, org: OrgId, f: OrgFaults, current: Option<OrgId>)
    requires Good(t) && OrgAnswer(t, c, f, current)
    ensures var r := MoveOrg(t, c, org, f, current);
            && (r.ok <==> !f.begin && !CheckBreaks(t, c, f.check) && !f.commit)
            && (!r.ok ==> r.tables == t)
            && (r.ok && FailureAborts(f) ==> MainRehomed(t, r.tables, c, org))
            && (r.ok && FailureAborts(f) ==> if Elsewhere(t, c, org) then AllUsersRehomed(t, r.tables, c, org) else r.tables == t)
  {
    CheckFailsExactly(t, c, f.check);
    MoveOrgResult(t, c, org, f, current);
    if OrgStepWorks(t, c, f) && FailureAborts(f) {
      CurrentElsewhere(t, c, current, org);
      if Elsewhere(t, c, org) {
        assert OneOrg(t, c);
        MoveAllRehomes(t, c, org);
      } else {
        CurrentOrgIsTheOrg(t, c, current, org);
        AllAtHome(t, c, org);
      }
    }
  }

  /** The org step: a successful one brings the whole cluster under the message's organization. */
  lemma OrgStepKeepsGood(t: Tables, c: Cluster, org: OrgId, f: OrgFaults, current: Option<OrgId>)
    requires Good(t) && OrgAnswer(t, c, f, current) && FailureAborts(f)
    ensures var r := MoveOrg(t, c, org, f, current);
            && Good(r.tables) && OthersSame(t, r.tables, c) && (r.ok ==> UnderOrg(r.tables, c, org))
            && (r.ok && Elsewhere(t, c, org) ==> AllUsersRehomed(t, r.tables, c, org))
  {
    OrgStepExactly(t, c, org, f, current);
    var r := MoveOrg(t, c, org, f, current);
    if r.ok {
      if current.None? || current.value == org {
        CurrentOrgIsTheOrg(t, c, current, org);
      } else {
        assert OneOrg(t, c);
        MoveKeepsOthers(t, c, org, {});
        MoveReachesAll(t, c, org);
        MoveLosesNothingOf(t, c, org);
        GoodAfterChange(t, r.tables, c, org);
      }
    }
  }

  /** What the org step does to the two keyed tables of a single-org cluster. */
  lemma MoveOrgTables(t: Tables, c: Cluster, org: OrgId, f: OrgFaults, current: Option<OrgId>)
    requires Good(t) && FailureAborts(f)
    ensures CanMove(t.hits, c, org) && CanMove(t.recs, c, org)
    ensures var t' := MoveOrg(t, c, org, f, current).tables;
            && (t'.hits == t.hits || t'.hits == Move(t.hits, c, org))
            && (t'.recs == t.recs || t'.recs == Move(t.recs, c, org))
  {
    assert OneOrg(t, c);
    NoCollision(t, c, org);
    MoveOrgKeyedTables(t, c, org, f, current);
  }

  /** The org step moves the two keyed tables, each by itself, or not at all. */
  lemma MoveOrgKeyedTables(t: Tables, c: Cluster, org: OrgId, f: OrgFaults, current: Option<OrgId>)
    requires CanMove(t.hits, c, org) && CanMove(t.recs, c, org) && FailureAborts(f)
    ensures var t' := MoveOrg(t, c, org, f, current).tables;
            && (t'.hits == t.hits || t'.hits == Move(t.hits, c, org))
            && (t'.recs == t.recs || t'.recs == Move(t.recs, c, org))
  {
    if !f.commit {
      MoveAllMainTables(t, c, org);
    }
    MovedOrNot(t, c, org, f, current);
  }

  lemma MovedOrNot(t: Tables, c: Cluster, org: OrgId, f: OrgFaults, current: Option<OrgId>)
    ensures MoveOrg(t, c, org, f, current).tables == t
            || (!f.commit && MoveOrg(t, c, org, f, current).tables == MoveAll(t, c, org, f.update))
  {
  }

  lemma MoveLosesNothingOf(t: Tables, c: Cluster, org: OrgId)
    requires Good(t)
    ensures forall k :: k in MoveAll(t, c, org, {}).hits && k.cluster == c ==> c in MoveAll(t, c, org, {}).report
  {
    assert OneOrg(t, c);
    NoCollision(t, c, org);
    MoveAllMainTables(t, c, org);
    HitsStayReported(t, c, org);
  }

  lemma HitsStayReported(t: Tables, c: Cluster, org: OrgId)
    requires HitsHaveReport(t) && CanMove(t.hits, c, org)
    ensures forall l :: l in Move(t.hits, c, org) && l.cluster == c ==> c in t.report
  {
    forall l | l in Move(t.hits, c, org) && l.cluster == c ensures c in t.report {
      var k :| k in t.hits && MoveKey(k, c, org) == l;
      assert k.cluster == c;
    }
  }

  // ---------------------------------------------------------------------------
  // Failing updates
  // ---------------------------------------------------------------------------

  predicate MainTable(id: TableId)
  {
    id in {Report, RuleHit, Recommendation, ReportInfo}
  }

  /** Some of the cluster's main tables were updated and others were not. */
  ghost predicate Split(t: Tables, c: Cluster, failing: set<TableId>)
  {
    exists id, id' :: MainTable(id) && MainTable(id') && HasRows(t, id, c) && HasRows(t, id', c)
                      && id in failing && id' !in failing
  }

  lemma MovedKeys<V>(t: map<Key<Rule>, V>, c: Cluster, o: OrgId, org: OrgId)
    requires forall k :: k in t && k.cluster == c ==> k.org == o
    ensures CanMove(t, c, org)
    ensures (exists k :: k in t && k.cluster == c) ==> exists l :: l in Move(t, c, org) && l.cluster == c && l.org == org
    ensures forall l :: l in Move(t, c, org) && l.cluster == c ==> l.org == org && exists k :: k in t && k.cluster == c
  {
    CanMoveExactly(t, c, org);
    if k :| k in t && k.cluster == c {
      assert MoveKey(k, c, org) in Move(t, c, org);
    }
    forall l | l in Move(t, c, org) && l.cluster == c ensures l.org == org && exists k :: k in t && k.cluster == c {
      var k :| k in t && MoveKey(k, c, org) == l;
    }
  }

  /** After a move, each main table of a single-org cluster is under the old or the new organization. */
  lemma MovedOrg(t: Tables, c: Cluster, o: OrgId, org: OrgId, failing: set<TableId>, id: TableId)
    requires UnderOrg(t, c, o) && MainTable(id)
    ensures HasRows(t, id, c) ==> HasOrg(MoveAll(t, c, org, failing), id, c, if id in failing then o else org)
    ensures forall p :: HasOrg(MoveAll(t, c, org, failing), id, c, p) ==>
                          HasRows(t, id, c) && p == if id in failing then o else org
  {
    MainRows(t, c);
    match id
    case RuleHit => MovedKeys(t.hits, c, o, org);
    case Recommendation => MovedKeys(t.recs, c, o, org);
    case Report =>
    case ReportInfo =>
  }

  lemma UnderOrgMeaning(t: Tables, c: Cluster, org: OrgId)
    ensures UnderOrg(t, c, org) <==> forall id, p :: MainTable(id) && HasOrg(t, id, c, p) ==> p == org
  {
    if forall id, p :: MainTable(id) && HasOrg(t, id, c, p) ==> p == org {
      if c in t.report { assert HasOrg(t, Report, c, t.report[c].org); }
      if c in t.info { assert HasOrg(t, ReportInfo, c, t.info[c].org); }
      forall k | k in t.hits && k.cluster == c ensures k.org == org { assert HasOrg(t, RuleHit, c, k.org); }
      forall k | k in t.recs && k.cluster == c ensures k.org == org { assert HasOrg(t, Recommendation, c, k.org); }
    }
  }

  /** A move with failing updates keeps the cluster under one organization iff it is not split. */
  lemma FailedUpdatesSplit(t: Tables, c: Cluster, o: OrgId, org: OrgId, failing: set<TableId>)
    requires UnderOrg(t, c, o) && o != org
    ensures OneOrg(MoveAll(t, c, org, failing), c) <==> !Split(t, c, failing)
  {
    var t' := MoveAll(t, c, org, failing);
    if Split(t, c, failing) {
      var id, id' :| MainTable(id) && MainTable(id') && HasRows(t, id, c) && HasRows(t, id', c)
                     && id in failing && id' !in failing;
      MovedOrg(t, c, o, org, failing, id);
      MovedOrg(t, c, o, org, failing, id');
      forall p ensures !UnderOrg(t', c, p) {
        UnderOrgMeaning(t', c, p);
        assert HasOrg(t', id, c, o) && HasOrg(t', id', c, org);
      }
    } else {
      var target := if exists id :: MainTable(id) && HasRows(t, id, c) && id in failing then o else org;
      forall id, p | MainTable(id) && HasOrg(t', id, c, p) ensures p == target {
        MovedOrg(t, c, o, org, failing, id);
      }
      UnderOrgMeaning(t', c, target);
    }
  }

  // ---------------------------------------------------------------------------
  // The write stages
  // ---------------------------------------------------------------------------

  lemma ReportStepKeepsGood(s: Store, m: Message, last: Time, e: Env, created: map<string, Time>)
    requires Good(s.tables) && UnderOrg(s.tables, m.cluster, m.org)
    ensures var w := WriteReport(s, m, last, e, created);
            && Good(w.store.tables) && UnderOrg(w.store.tables, m.cluster, m.org)
            && OthersSame(s.tables, w.store.tables, m.cluster)
  {
    var t := s.tables;
    var t' := WriteReport(s, m, last, e, created).store.tables;
    if t' != t {
      var rows := HitRows(m.org, m.cluster, m.hits, if e.write.lookup then map[] else created, e.clock);
      forall d | d != m.cluster ensures SameCluster(t, t', d) {}
      GoodAfterChange(t, t', m.cluster, m.org);
    }
  }

  lemma RecommendationStepKeepsGood(s: Store, m: Message, e: Env, impacted: map<string, Time>)
    requires Good(s.tables) && UnderOrg(s.tables, m.cluster, m.org)
    ensures match WriteRecommendations(s, m, e, impacted)
            case None => true
            case Some(s') => && Good(s'.tables) && UnderOrg(s'.tables, m.cluster, m.org)
                             && OthersSame(s.tables, s'.tables, m.cluster)
  {
    var r := WriteRecommendations(s, m, e, impacted);
    if r.Some? {
      forall d | d != m.cluster ensures SameCluster(s.tables, r.value.tables, d) {}
      GoodAfterChange(s.tables, r.value.tables, m.cluster, m.org);
    }
  }

  lemma InfoStepKeepsGood(s: Store, m: Message, f: InfoFaults)
    requires Good(s.tables) && UnderOrg(s.tables, m.cluster, m.org)
    ensures match WriteInfo(s, m, f)
            case None => true
            case Some(s') => && Good(s'.tables) && UnderOrg(s'.tables, m.cluster, m.org)
                             && OthersSame(s.tables, s'.tables, m.cluster)
  {
    var r := WriteInfo(s, m, f);
    if r.Some? {
      forall d | d != m.cluster ensures SameCluster(s.tables, r.value.tables, d) {}
      GoodAfterChange(s.tables, r.value.tables, m.cluster, m.org);
    }
  }

  /** storeInDB keeps every cluster under one organization and touches no cluster but its own,
      whichever stage fails; once it gets past the move, its cluster is under its organization. */
  lemma StoreInDbKeepsGood(s: Store, m: Message, e: Env, a: Answers)
    requires Good(s.tables) && PossibleAnswers(s, m, e, a) && FailureAborts(e.org)
    ensures var r := StoreInDb(s, m, e, a);
            && Good(r.store.tables) && OthersSame(s.tables, r.store.tables, m.cluster)
            && (ReachesReport(s, m, e, a) ==> UnderOrg(r.store.tables, m.cluster, m.org))
  {
    OrgStepKeepsGood(s.tables, m.cluster, m.org, e.org, a.current);
    if ReachesReport(s, m, e, a) {
      var moved := MovedStore(s, m, e, a);
      ReportStepKeepsGood(moved, m, m.lastChecked.value, e, a.created);
      var w := ReportWritten(s, m, e, a);
      OthersSameTransitive(s.tables, moved.tables, w.store.tables, m.cluster);
      if w.outcome != Failed {
        RecommendationStepKeepsGood(w.store, m, e, a.impacted);
        var r := WriteRecommendations(w.store, m, e, a.impacted);
        if r.Some? {
          OthersSameTransitive(s.tables, w.store.tables, r.value.tables, m.cluster);
          InfoStepKeepsGood(r.value, m, e.info);
          var i := WriteInfo(r.value, m, e.info);
          if i.Some? {
            OthersSameTransitive(s.tables, r.value.tables, i.value.tables, m.cluster);
          }
        }
      }
    }
  }
}
