/**
 "Since when?": created_at of a rule hit and impacted_since of a recommendation
 are the time of the first report of the unbroken suffix that contains it.
 */
module CreationTimes {
  import opened Options
  import opened Timeline
  import opened Schema
  import opened Inserts
  import opened Protocol
  import opened SingleOrg
  import opened Mirror
  import opened Runs
  import opened Freshness
  import Text

  // ---------------------------------------------------------------------------
  // The lookup key
  // ---------------------------------------------------------------------------

  /** No two of these rules concatenate to the same lookup key. */
  ghost predicate Separable(rules: set<Rule>)
  {
    forall p, q :: p in rules && q in rules && LookupKey(p) == LookupKey(q) ==> p == q
  }

  /** A module ending in ".report" with a dot-free error key. */
  predicate WellFormed(rule: Rule)
  {
    Text.HasSuffix(rule.fqdn, REPORT_SUFFIX) && '.' !in rule.key
  }

  /** Well-formed rules never share a lookup key: the last dot ends the module. */
  lemma WellFormedSeparable(p: Rule, q: Rule)
    requires WellFormed(p) && WellFormed(q) && LookupKey(p) == LookupKey(q)
    ensures p == q
  {
    LastDot(p);
    LastDot(q);
    assert LookupKey(p)[..|p.fqdn|] == p.fqdn && LookupKey(q)[..|q.fqdn|] == q.fqdn;
    assert LookupKey(p)[|p.fqdn|..] == p.key && LookupKey(q)[|q.fqdn|..] == q.key;
  }

  lemma LastDot(p: Rule)
    requires WellFormed(p)
    ensures |p.fqdn| >= 7 && LookupKey(p)[|p.fqdn| - 7] == '.'
    ensures forall i :: |p.fqdn| - 7 < i < |LookupKey(p)| ==> LookupKey(p)[i] != '.'
  {
    var n := |p.fqdn| - 7;
    assert p.fqdn[n..] == REPORT_SUFFIX;
    forall i | n < i < |LookupKey(p)| ensures LookupKey(p)[i] != '.' {
      if i < |p.fqdn| {
        assert p.fqdn[i] == REPORT_SUFFIX[i - n];
      } else {
        assert LookupKey(p)[i] == p.key[i - |p.fqdn|];
      }
    }
  }

  /** Stripping loses this: well-formed rules can collide in the recommendation table. */
  lemma StrippedRulesCollide()
    ensures exists p, q :: WellFormed(p) && WellFormed(q) && p != q && LookupKey(Stripped(p)) == LookupKey(Stripped(q))
  {
    var p, q := Rule("a.b" + ".report", "CK"), Rule("a.bC" + ".report", "K");
    Text.TrimSuffixOfConcat("a.b", ".report");
    Text.TrimSuffixOfConcat("a.bC", ".report");
    assert LookupKey(Stripped(p)) == "a.bCK" == LookupKey(Stripped(q));
    assert p.key != q.key;
    assert WellFormed(p) && WellFormed(q);
  }

  function LookedUp(m: map<string, Time>, d: Rule): Option<Time>
  {
    if LookupKey(d) in m then Some(m[LookupKey(d)]) else None
  }

  /** The time stored for the rule itself, in whole seconds. */
  function OwnTime(times: map<Key<Rule>, Option<Time>>, org: OrgId, c: Cluster, d: Rule): Option<Time>
  {
    var k := Key(org, c, d);
    if k in times && times[k].Some? then Some(ToSecond(times[k].value)) else None
  }

  /** Row `k` of the cluster shares the lookup key of rule `d` but not its time. */
  ghost predicate IsRival(times: map<Key<Rule>, Option<Time>>, org: OrgId, c: Cluster, d: Rule, k: Key<Rule>)
  {
    && k in times && k.org == org && k.cluster == c && LookupKey(k.id) == LookupKey(d)
    && times[k].Some? && Some(ToSecond(times[k].value)) != OwnTime(times, org, c, d)
  }

  /** The lookup can give a rule a time that is not its own, or one though it has none, iff a stored row of the cluster
      with another time has the same lookup key. */
  lemma CollisionTakesTime(times: map<Key<Rule>, Option<Time>>, org: OrgId, c: Cluster, d: Rule)
    ensures (exists m :: IsLookup(m, times, org, c) && LookedUp(m, d) != OwnTime(times, org, c, d)) <==>
            exists k :: IsRival(times, org, c, d, k)
  {
    if m :| IsLookup(m, times, org, c) && LookedUp(m, d) != OwnTime(times, org, c, d) {
      assert LookupKey(d) in m;
      var k :| k in times && k.org == org && k.cluster == c && LookupKey(k.id) == LookupKey(d)
               && times[k].Some? && m[LookupKey(d)] == ToSecond(times[k].value);
      assert IsRival(times, org, c, d, k);
    }
    if k :| IsRival(times, org, c, d, k) {
      LookupFindsLast(times, org, c, k);
      assert LookedUp(LookupEndingWith(times, org, c, k), d) == Some(ToSecond(times[k].value));
    }
  }

  /** What the lookup returns if row `last` arrives after all others. */
  ghost function LookupEndingWith(times: map<Key<Rule>, Option<Time>>, org: OrgId, c: Cluster, last: Key<Rule>): map<string, Time>
    requires last in times && times[last].Some?
  {
    map s | s in LookupKeys(times, org, c) ::
      if s == LookupKey(last.id) then ToSecond(times[last].value) else TimeUnder(times, org, c, s)
  }

  ghost function LookupKeys(times: map<Key<Rule>, Option<Time>>, org: OrgId, c: Cluster): set<string>
  {
    set k | k in times && k.org == org && k.cluster == c && times[k].Some? :: LookupKey(k.id)
  }

  /** The time of some row with the lookup key. */
  ghost function TimeUnder(times: map<Key<Rule>, Option<Time>>, org: OrgId, c: Cluster, s: string): Time
    requires s in LookupKeys(times, org, c)
  {
    var k :| k in times && k.org == org && k.cluster == c && times[k].Some? && LookupKey(k.id) == s;
    ToSecond(times[k].value)
  }

  lemma LookupFindsLast(times: map<Key<Rule>, Option<Time>>, org: OrgId, c: Cluster, last: Key<Rule>)
    requires last in times && last.org == org && last.cluster == c && times[last].Some?
    ensures IsLookup(LookupEndingWith(times, org, c, last), times, org, c)
    ensures LookedUp(LookupEndingWith(times, org, c, last), last.id) == Some(ToSecond(times[last].value))
  {
  }

  // ---------------------------------------------------------------------------
  // One table of times against a history
  // ---------------------------------------------------------------------------

  /** The times of cluster `c` are those that `hist` keeps, for exactly the items of its last report. */
  ghost predicate Shows(times: map<Key<Rule>, Option<Time>>, c: Cluster, hist: History<Rule>, universe: set<Rule>)
  {
    && (forall k :: k in times && k.cluster == c ==>
          k.id in universe && InLast(hist, k.id) && times[k] == Some(Kept(hist, k.id)))
    && (forall d :: InLast(hist, d) ==> exists k :: k in times && k.cluster == c && k.id == d)
  }

  /** Each item of a new report keeps the looked-up time or starts at the recorded one. */
  ghost predicate Rewritten(times: map<Key<Rule>, Option<Time>>, org: OrgId, c: Cluster, entry: Entry<Rule>,
                            earlier: map<string, Time>)
  {
    && (forall k :: k in times && k.cluster == c <==> k.org == org && k.cluster == c && k.id in entry.seen)
    && (forall d :: d in entry.seen ==>
          times[Key(org, c, d)] == Some(if LookupKey(d) in earlier then earlier[LookupKey(d)] else entry.seen[d]))
  }

  lemma RewriteShows(times: map<Key<Rule>, Option<Time>>, times': map<Key<Rule>, Option<Time>>, org: OrgId, c: Cluster,
                     hist: History<Rule>, entry: Entry<Rule>, earlier: map<string, Time>, universe: set<Rule>)
    requires Shows(times, c, hist, universe) && Separable(universe)
    requires forall k :: k in times && k.cluster == c ==> k.org == org
    requires forall d :: d in entry.seen ==> d in universe
    requires if entry.remembered then IsLookup(earlier, times, org, c) else earlier == map[]
    requires Rewritten(times', org, c, entry, earlier)
    ensures Shows(times', c, hist + [entry], universe)
  {
    var hist' := hist + [entry];
    assert hist'[..|hist|] == hist;
    forall d | d in entry.seen
      ensures Kept(hist', d) == if LookupKey(d) in earlier then earlier[LookupKey(d)] else entry.seen[d] {
      if entry.remembered {
        LookupMatches(times, org, c, hist, earlier, universe, d);
      }
    }
    forall k | k in times' && k.cluster == c ensures times'[k] == Some(Kept(hist', k.id)) {
      assert k == Key(org, c, k.id);
    }
    forall d | InLast(hist', d) ensures exists k :: k in times' && k.cluster == c && k.id == d {
      assert Key(org, c, d) in times';
    }
  }

  /** With separable rules the lookup finds exactly the kept time of the rule itself. */
  lemma LookupMatches(times: map<Key<Rule>, Option<Time>>, org: OrgId, c: Cluster, hist: History<Rule>,
                      earlier: map<string, Time>, universe: set<Rule>, d: Rule)
    requires Shows(times, c, hist, universe) && Separable(universe) && d in universe
    requires forall k :: k in times && k.cluster == c ==> k.org == org
    requires IsLookup(earlier, times, org, c)
    ensures LookupKey(d) in earlier <==> InLast(hist, d)
    ensures InLast(hist, d) ==> earlier[LookupKey(d)] == ToSecond(Kept(hist, d))
  {
    if InLast(hist, d) {
      var k :| k in times && k.cluster == c && k.id == d;
      assert LookupKey(k.id) in earlier;
    }
    if LookupKey(d) in earlier {
      var k :| k in times && k.org == org && k.cluster == c && LookupKey(k.id) == LookupKey(d)
               && times[k].Some? && earlier[LookupKey(d)] == ToSecond(times[k].value);
      assert k.id == d;
    }
  }

  // ---------------------------------------------------------------------------
  // Histories of a run
  // ---------------------------------------------------------------------------

  /** The time each rule of a report gets if it is new. */
  ghost function RecordedHits(hits: seq<Hit>, clock: nat -> Time): map<Rule, Time>
  {
    if hits == [] then map[]
    else RecordedHits(hits[..|hits| - 1], clock)[hits[|hits| - 1].rule := ToSecond(clock(|hits| - 1))]
  }

  lemma {:induction false} RecordedHitsAt(hits: seq<Hit>, clock: nat -> Time)
    ensures forall d :: d in RecordedHits(hits, clock) <==> exists i :: 0 <= i < |hits| && hits[i].rule == d
    ensures (forall i, j :: 0 <= i < j < |hits| ==> hits[i].rule != hits[j].rule) ==>
              forall i :: 0 <= i < |hits| ==> hits[i].rule in RecordedHits(hits, clock)
                                              && RecordedHits(hits, clock)[hits[i].rule] == ToSecond(clock(i))
  {
    if hits != [] {
      var n := |hits| - 1;
      var front := hits[..n];
      RecordedHitsAt(front, clock);
      assert forall i :: 0 <= i < n ==> front[i] == hits[i];
      forall d ensures d in RecordedHits(hits, clock) <==> exists i :: 0 <= i < |hits| && hits[i].rule == d {
        if d in RecordedHits(front, clock) {
          var i :| 0 <= i < n && front[i].rule == d;
          assert hits[i].rule == d;
        }
        if d == hits[n].rule { assert hits[n].rule == d; }
      }
    }
  }

  ghost function HitEntry(m: Message, e: Env): Entry<Rule>
  {
    Entry(RecordedHits(m.hits, e.clock), !e.write.lookup)
  }

  ghost function RecommendationEntry(m: Message, e: Env): Entry<Rule>
  {
    Entry(map d | d in MessageRules(m) :: ToSecond(e.storedAt), !e.rec.lookup)
  }

  /** The event is a message of cluster `c` whose report is accepted in world `w`. */
  ghost predicate Accepts(w: World, ev: Event, c: Cluster)
  {
    ev.Process? && ev.m.cluster == c && ResultOf(w, ev).report == Accepted
  }

  /** The accepted reports of cluster `c`, oldest first. */
  ghost function AcceptedReports(w: World, evs: seq<Event>, c: Cluster): History<Rule>
  {
    if evs == [] then [] else
      var front, ev := evs[..|evs| - 1], evs[|evs| - 1];
      AcceptedReports(w, front, c) + NewReports(Run(w, front), ev, c)
  }

  /** Every rule reported for `c` in the run is in `universe`. */
  ghost predicate UsesRules(evs: seq<Event>, c: Cluster, universe: set<Rule>)
  {
    forall i, j :: 0 <= i < |evs| && evs[i].Process? && evs[i].m.cluster == c && 0 <= j < |evs[i].m.hits| ==>
                     evs[i].m.hits[j].rule in universe
  }

  lemma AcceptedShows(s: Store, m: Message, e: Env, a: Answers, hist: History<Rule>, universe: set<Rule>)
    requires Good(s.tables) && PossibleAnswers(s, m, e, a) && FailureAborts(e.org)
    requires StoreInDb(s, m, e, a).report == Accepted
    requires Shows(CreatedTimes(s.tables.hits), m.cluster, hist, universe) && Separable(universe)
    requires forall j :: 0 <= j < |m.hits| ==> m.hits[j].rule in universe
    ensures Shows(CreatedTimes(StoreInDb(s, m, e, a).store.tables.hits), m.cluster, hist + [HitEntry(m, e)], universe)
  {
    var moved := MovedStore(s, m, e, a).tables;
    var t := StoreInDb(s, m, e, a).store.tables;
    MovedShows(s.tables, m.cluster, m.org, e.org, a.current, hist, universe);
    OrgStepKeepsGood(s.tables, m.cluster, m.org, e.org, a.current);
    AcceptedShape(s, m, e, a);
    AcceptedHits(s, m, e, a);
    if !e.write.lookup {
      AcceptedReads(s, m, e, a);
    }
    RowsRewritten(t.hits, m, e, EarlierHits(e, a));
    RewriteShows(CreatedTimes(moved.hits), CreatedTimes(t.hits), m.org, m.cluster, hist, HitEntry(m, e),
                 EarlierHits(e, a), universe);
  }

  lemma AcceptedReads(s: Store, m: Message, e: Env, a: Answers)
    requires PossibleAnswers(s, m, e, a) && StoreInDb(s, m, e, a).report == Accepted && !e.write.lookup
    ensures IsLookup(a.created, CreatedTimes(MovedStore(s, m, e, a).tables.hits), m.org, m.cluster)
  {
    AcceptedResult(s, m, e, a);
    var moved := MovedStore(s, m, e, a);
    WriteShape(moved, m, m.lastChecked.value, e, a.created);
    assert !e.write.begin && !e.write.freshness;
    assert ReadsCreated(moved, m, m.lastChecked.value, e.write);
  }

  lemma RowsRewritten(t: map<Key<Rule>, HitRow>, m: Message, e: Env, earlier: map<string, Time>)
    requires ClusterRowsAre(t, m.cluster, HitRows(m.org, m.cluster, m.hits, earlier, e.clock))
    ensures Rewritten(CreatedTimes(t), m.org, m.cluster, HitEntry(m, e), earlier)
    ensures forall d :: d in HitEntry(m, e).seen ==> exists j :: 0 <= j < |m.hits| && m.hits[j].rule == d
  {
    RecordedHitsAt(m.hits, e.clock);
    forall k ensures k in t && k.cluster == m.cluster <==>
                     k.org == m.org && k.cluster == m.cluster && k.id in HitEntry(m, e).seen {
      RewrittenHitKey(t, m, e, earlier, k);
    }
    forall d | d in HitEntry(m, e).seen
      ensures CreatedTimes(t)[Key(m.org, m.cluster, d)] ==
              Some(if LookupKey(d) in earlier then earlier[LookupKey(d)] else HitEntry(m, e).seen[d]) {
      RewrittenHitTime(t, m, e, earlier, d);
    }
  }

  lemma RewrittenHitKey(t: map<Key<Rule>, HitRow>, m: Message, e: Env, earlier: map<string, Time>, k: Key<Rule>)
    requires ClusterRowsAre(t, m.cluster, HitRows(m.org, m.cluster, m.hits, earlier, e.clock))
    ensures k in t && k.cluster == m.cluster <==> k.org == m.org && k.cluster == m.cluster && k.id in HitEntry(m, e).seen
  {
    var rows := HitRows(m.org, m.cluster, m.hits, earlier, e.clock);
    RecordedHitsAt(m.hits, e.clock);
    if k in t && k.cluster == m.cluster {
      var i :| 0 <= i < |rows| && rows[i].0 == k;
      assert m.hits[i].rule == k.id;
    }
    if k.org == m.org && k.cluster == m.cluster && k.id in HitEntry(m, e).seen {
      var i :| 0 <= i < |m.hits| && m.hits[i].rule == k.id;
      assert rows[i].0 == k;
    }
  }

  lemma RewrittenHitTime(t: map<Key<Rule>, HitRow>, m: Message, e: Env, earlier: map<string, Time>, d: Rule)
    requires ClusterRowsAre(t, m.cluster, HitRows(m.org, m.cluster, m.hits, earlier, e.clock))
    requires d in HitEntry(m, e).seen
    ensures Key(m.org, m.cluster, d) in t
    ensures t[Key(m.org, m.cluster, d)].createdAt ==
            Some(if LookupKey(d) in earlier then earlier[LookupKey(d)] else HitEntry(m, e).seen[d])
  {
    var rows := HitRows(m.org, m.cluster, m.hits, earlier, e.clock);
    RecordedHitsAt(m.hits, e.clock);
    forall i, j | 0 <= i < j < |m.hits| ensures m.hits[i].rule != m.hits[j].rule {
      assert rows[i].0 != rows[j].0;
    }
    var i :| 0 <= i < |m.hits| && m.hits[i].rule == d;
    assert rows[i].0 in t;
  }

  /** A move of the cluster keeps what its rule hits show. */
  lemma MovedHitsShow(t: map<Key<Rule>, HitRow>, c: Cluster, org: OrgId, hist: History<Rule>, universe: set<Rule>)
    requires CanMove(t, c, org) && Shows(CreatedTimes(t), c, hist, universe)
    ensures Shows(CreatedTimes(Move(t, c, org)), c, hist, universe)
  {
    MovedTimesShow(t, c, org, CreatedTimes(t), CreatedTimes(Move(t, c, org)), hist, universe);
  }

  /** A move of the cluster keeps what its recommendations show. */
  lemma MovedRecommendationsShow(t: map<Key<Rule>, RecommendationRow>, c: Cluster, org: OrgId,
                                 hist: History<Rule>, universe: set<Rule>)
    requires CanMove(t, c, org) && Shows(ImpactedTimes(t), c, hist, universe)
    ensures Shows(ImpactedTimes(Move(t, c, org)), c, hist, universe)
  {
    MovedTimesShow(t, c, org, ImpactedTimes(t), ImpactedTimes(Move(t, c, org)), hist, universe);
  }

  lemma MovedShows(t: Tables, c: Cluster, org: OrgId, f: OrgFaults, current: Option<OrgId>,
                   hist: History<Rule>, universe: set<Rule>)
    requires Good(t) && FailureAborts(f)
    ensures var t' := MoveOrg(t, c, org, f, current).tables;
            && (Shows(CreatedTimes(t.hits), c, hist, universe) ==> Shows(CreatedTimes(t'.hits), c, hist, universe))
            && (Shows(ImpactedTimes(t.recs), c, hist, universe) ==> Shows(ImpactedTimes(t'.recs), c, hist, universe))
  {
    MoveOrgTables(t, c, org, f, current);
    if Shows(CreatedTimes(t.hits), c, hist, universe) {
      MovedHitsShow(t.hits, c, org, hist, universe);
    }
    if Shows(ImpactedTimes(t.recs), c, hist, universe) {
      MovedRecommendationsShow(t.recs, c, org, hist, universe);
    }
  }

  lemma MovedTimesShow<V>(t: map<Key<Rule>, V>, c: Cluster, org: OrgId,
                          times: map<Key<Rule>, Option<Time>>, times': map<Key<Rule>, Option<Time>>,
                          hist: History<Rule>, universe: set<Rule>)
    requires CanMove(t, c, org)
    requires times.Keys == t.Keys && times'.Keys == Move(t, c, org).Keys
    requires forall k :: k in t ==> MoveKey(k, c, org) in times' && times'[MoveKey(k, c, org)] == times[k]
    requires Shows(times, c, hist, universe)
    ensures Shows(times', c, hist, universe)
  {
    forall l | l in times' && l.cluster == c
      ensures l.id in universe && InLast(hist, l.id) && times'[l] == Some(Kept(hist, l.id)) {
      var k :| k in t && MoveKey(k, c, org) == l;
      assert k in times && k.cluster == c;
    }
    forall d | InLast(hist, d) ensures exists l :: l in times' && l.cluster == c && l.id == d {
      var k :| k in times && k.cluster == c && k.id == d;
      assert MoveKey(k, c, org) in times';
    }
  }

  lemma OtherClusterShows(t: Tables, t': Tables, c: Cluster, hist: History<Rule>, universe: set<Rule>)
    requires SameCluster(t, t', c)
    ensures Shows(CreatedTimes(t.hits), c, hist, universe) ==> Shows(CreatedTimes(t'.hits), c, hist, universe)
    ensures Shows(ImpactedTimes(t.recs), c, hist, universe) ==> Shows(ImpactedTimes(t'.recs), c, hist, universe)
  {
    assert SameRows(t.hits, t'.hits, c) && SameRows(t.recs, t'.recs, c);
  }

  /** What an event adds to the accepted reports of `c`. */
  ghost function NewReports(w: World, ev: Event, c: Cluster): History<Rule>
  {
    if Accepts(w, ev, c) then [HitEntry(ev.m, ev.e)] else []
  }

  lemma CreatedAtStep(w: World, ev: Event, c: Cluster, hist: History<Rule>, universe: set<Rule>)
    requires Good(w.tables) && Possible(w, ev)
    requires UsesRules([ev], c, universe) && Separable(universe)
    requires Shows(CreatedTimes(w.tables.hits), c, hist, universe)
    ensures Shows(CreatedTimes(Step(w, ev).tables.hits), c, hist + NewReports(w, ev, c), universe)
  {
    assert hist + [] == hist;
    assert [ev][0] == ev;
    if ev.Process? {
      var s := StoreOf(w, ev.instance);
      if ev.m.cluster != c {
        StoreInDbKeepsGood(s, ev.m, ev.e, ev.a);
        OtherClusterShows(s.tables, ResultOf(w, ev).store.tables, c, hist, universe);
      } else if Accepts(w, ev, c) {
        AcceptedShows(s, ev.m, ev.e, ev.a, hist, universe);
      } else {
        RefusedHits(s, ev.m, ev.e, ev.a);
        MovedShows(s.tables, c, ev.m.org, ev.e.org, ev.a.current, hist, universe);
      }
    }
  }

  /** What the table of creation times shows for `c` at the start of a run. */
  lemma StoredShow(w: World, times: map<Key<Rule>, Option<Time>>, c: Cluster, universe: set<Rule>)
    requires Good(w.tables) && TimesKnown(times, c)
    requires times.Keys == w.tables.hits.Keys || times.Keys == w.tables.recs.Keys
    requires forall k :: k in times && k.cluster == c ==> k.id in universe
    ensures Shows(times, c, AtStart(times, c), universe)
  {
    assert OneOrg(w.tables, c);
    var org :| UnderOrg(w.tables, c, org);
    assert forall k :: k in times && k.cluster == c ==> k.org == org;
    StoredKept(times, c, org);
  }

  /** The reports that decide the creation times of `c`: what was stored at the start, then every accepted one. */
  ghost function HitHistory(w: World, evs: seq<Event>, c: Cluster): History<Rule>
  {
    AtStart(CreatedTimes(w.tables.hits), c) + AcceptedReports(w, evs, c)
  }

  /** Over every run, every rule hit of `c` has the creation time of the first report of the unbroken
      suffix of accepted reports that contains its rule, and no other rule has a hit. */
  lemma {:induction false} CreatedAtOverRuns(w: World, evs: seq<Event>, c: Cluster, universe: set<Rule>)
    requires Good(w.tables) && PossibleRun(w, evs)
    requires TimesKnown(CreatedTimes(w.tables.hits), c)
    requires forall k :: k in w.tables.hits && k.cluster == c ==> k.id in universe
    requires UsesRules(evs, c, universe) && Separable(universe)
    ensures Shows(CreatedTimes(Run(w, evs).tables.hits), c, HitHistory(w, evs, c), universe)
  {
    if evs == [] {
      StoredShow(w, CreatedTimes(w.tables.hits), c, universe);
      assert HitHistory(w, evs, c) == AtStart(CreatedTimes(w.tables.hits), c);
    } else {
      var front, ev := evs[..|evs| - 1], evs[|evs| - 1];
      UsesFront(evs, c, universe);
      CreatedAtOverRuns(w, front, c, universe);
      SingleOrgForever(w, front);
      CreatedAtStep(Run(w, front), ev, c, HitHistory(w, front, c), universe);
      assert HitHistory(w, evs, c) == HitHistory(w, front, c) + NewReports(Run(w, front), ev, c);
    }
  }

  lemma UsesFront(evs: seq<Event>, c: Cluster, universe: set<Rule>)
    requires evs != [] && UsesRules(evs, c, universe)
    ensures UsesRules(evs[..|evs| - 1], c, universe) && UsesRules([evs[|evs| - 1]], c, universe)
  {
    var front := evs[..|evs| - 1];
    assert forall i :: 0 <= i < |front| ==> front[i] == evs[i];
  }

  /** Every recorded time is a whole second. */
  ghost predicate InSeconds(hist: History<Rule>)
  {
    forall i, d :: 0 <= i < |hist| && d in hist[i].seen ==> ToSecond(hist[i].seen[d]) == hist[i].seen[d]
  }

  lemma InSecondsConcat(a: History<Rule>, b: History<Rule>)
    requires InSeconds(a) && InSeconds(b)
    ensures InSeconds(a + b)
  {
  }

  /** Accepted reports record whole seconds, so a carried-over time is the recorded one. */
  lemma {:induction false} RecordedInSeconds(w: World, evs: seq<Event>, c: Cluster)
    ensures InSeconds(AcceptedReports(w, evs, c))
  {
    if evs != [] {
      var front, ev := evs[..|evs| - 1], evs[|evs| - 1];
      RecordedInSeconds(w, front, c);
      NewInSeconds(Run(w, front), ev, c);
      InSecondsConcat(AcceptedReports(w, front, c), NewReports(Run(w, front), ev, c));
    }
  }

  lemma NewInSeconds(w: World, ev: Event, c: Cluster)
    ensures InSeconds(NewReports(w, ev, c))
  {
    if ev.Process? {
      forall d | d in RecordedHits(ev.m.hits, ev.e.clock)
        ensures ToSecond(RecordedHits(ev.m.hits, ev.e.clock)[d]) == RecordedHits(ev.m.hits, ev.e.clock)[d] {
        HitsInSeconds(ev.m.hits, ev.e.clock, d);
      }
    }
  }

  lemma {:induction false} HitsInSeconds(hits: seq<Hit>, clock: nat -> Time, d: Rule)
    requires d in RecordedHits(hits, clock)
    ensures ToSecond(RecordedHits(hits, clock)[d]) == RecordedHits(hits, clock)[d]
  {
    var n := |hits| - 1;
    ToSecondIdempotent(clock(n));
    if d != hits[n].rule {
      HitsInSeconds(hits[..n], clock, d);
    }
  }

  /** The same, hit by hit: the creation time is the one recorded by the start of the suffix. Only a time stored before
      the run may lose a fraction of a second, when it is first carried over. */
  lemma HitCreatedAtFirstReport(w: World, evs: seq<Event>, c: Cluster, universe: set<Rule>, k: Key<Rule>) returns (i: nat)
    requires Good(w.tables) && PossibleRun(w, evs)
    requires TimesKnown(CreatedTimes(w.tables.hits), c)
    requires forall l :: l in w.tables.hits && l.cluster == c ==> l.id in universe
    requires UsesRules(evs, c, universe) && Separable(universe)
    requires k in Run(w, evs).tables.hits && k.cluster == c
    ensures var hist := HitHistory(w, evs, c);
            && StartsSuffix(hist, k.id, i) && (forall j :: StartsSuffix(hist, k.id, j) ==> j == i)
            && Run(w, evs).tables.hits[k].createdAt ==
               Some(if i == 0 && |hist| > 1 then ToSecond(hist[i].seen[k.id]) else hist[i].seen[k.id])
  {
    CreatedAtOverRuns(w, evs, c, universe);
    RecordedInSeconds(w, evs, c);
    i := ShownSince(CreatedTimes(Run(w, evs).tables.hits), c, AtStart(CreatedTimes(w.tables.hits), c),
                    AcceptedReports(w, evs, c), universe, k);
  }

  /** A table that shows a history has each row's time from the start of its unbroken suffix. */
  lemma ShownSince(times: map<Key<Rule>, Option<Time>>, c: Cluster, start: History<Rule>, reports: History<Rule>,
                   universe: set<Rule>, k: Key<Rule>) returns (i: nat)
    requires Shows(times, c, start + reports, universe) && k in times && k.cluster == c
    requires |start| == 1 && InSeconds(reports)
    ensures var hist := start + reports;
            && StartsSuffix(hist, k.id, i) && (forall j :: StartsSuffix(hist, k.id, j) ==> j == i)
            && times[k] == Some(if i == 0 && |hist| > 1 then ToSecond(hist[i].seen[k.id]) else hist[i].seen[k.id])
  {
    var hist := start + reports;
    i := KeptIsFirstOfSuffix(hist, k.id);
    if i > 0 {
      assert hist[i] == reports[i - 1];
    }
  }

  // ---------------------------------------------------------------------------
  // impacted_since
  // ---------------------------------------------------------------------------

  /** What an event adds to the reports of `c` as the recommendation table sees them: the report of a message that
      commits its recommendations, stale or not. */
  ghost function NewRecommendationReports(w: World, ev: Event, c: Cluster): History<Rule>
  {
    if ev.Process? && ev.m.cluster == c && CommitsRecommendations(StoreOf(w, ev.instance), ev.m, ev.e, ev.a)
    then [RecommendationEntry(ev.m, ev.e)] else []
  }

  ghost function RecommendationReports(w: World, evs: seq<Event>, c: Cluster): History<Rule>
  {
    if evs == [] then [] else
      var front, ev := evs[..|evs| - 1], evs[|evs| - 1];
      RecommendationReports(w, front, c) + NewRecommendationReports(Run(w, front), ev, c)
  }

  /** What was stored at the start, then every report whose recommendations were committed. */
  ghost function RecommendationHistory(w: World, evs: seq<Event>, c: Cluster): History<Rule>
  {
    AtStart(ImpactedTimes(w.tables.recs), c) + RecommendationReports(w, evs, c)
  }

  /** An instance that has not cached `c` is sent a report older than the stored one. */
  predicate Misled(w: World, ev: Event, c: Cluster)
  {
    && ev.Process? && ev.m.cluster == c && c !in CacheOf(w, ev.instance) && ev.m.lastChecked.Some?
    && c in w.tables.report && ev.m.lastChecked.value < w.tables.report[c].lastChecked
  }

  ghost predicate NeverMisled(w: World, evs: seq<Event>, c: Cluster)
  {
    evs == [] ||
    (var front, ev := evs[..|evs| - 1], evs[|evs| - 1];
     NeverMisled(w, front, c) && !Misled(Run(w, front), ev, c))
  }

  /** As UsesRules, for the rules as the recommendation table names them. */
  ghost predicate UsesStripped(evs: seq<Event>, c: Cluster, universe: set<Rule>)
  {
    forall i, j :: 0 <= i < |evs| && evs[i].Process? && evs[i].m.cluster == c && 0 <= j < |evs[i].m.hits| ==>
                     Stripped(evs[i].m.hits[j].rule) in universe
  }

  /** An instance that commits recommendations of `c` without having been misled knows `c`. */
  lemma CommitsInformed(s: Store, m: Message, e: Env, a: Answers)
    requires PossibleAnswers(s, m, e, a) && CommitsRecommendations(s, m, e, a)
    requires m.cluster !in s.cache && m.cluster in s.tables.report ==>
               s.tables.report[m.cluster].lastChecked <= m.lastChecked.value
    ensures m.cluster in ReportWritten(s, m, e, a).store.cache
  {
    MoveOrgReport(s.tables, m.cluster, m.org, e.org, a.current);
    var moved := MovedStore(s, m, e, a);
    if m.cluster !in s.cache {
      assert !IsStale(moved, m, m.lastChecked.value);
      CacheGrows(moved, m, m.lastChecked.value, e, a.created);
      AcceptedExactly(moved, m, m.lastChecked.value, e, a.created);
      NotStaleNotDiscarded(moved, m, m.lastChecked.value, e, a.created);
    } else {
      CacheGrows(moved, m, m.lastChecked.value, e, a.created);
    }
  }

  lemma NotStaleNotDiscarded(s: Store, m: Message, last: Time, e: Env, created: map<string, Time>)
    requires !IsStale(s, m, last)
    ensures WriteReport(s, m, last, e, created).outcome == Accepted || WriteReport(s, m, last, e, created).outcome == Failed
  {
  }

  lemma CommitReads(s: Store, m: Message, e: Env, a: Answers)
    requires PossibleAnswers(s, m, e, a) && CommitsRecommendations(s, m, e, a)
    requires m.cluster in ReportWritten(s, m, e, a).store.cache && !e.rec.lookup
    ensures IsLookup(a.impacted, ImpactedTimes(MovedStore(s, m, e, a).tables.recs), m.org, m.cluster)
  {
    var w := ReportWritten(s, m, e, a);
    ReportKeepsRecommendations(MovedStore(s, m, e, a), m, m.lastChecked.value, e, a.created);
    assert ReadsImpacted(w.store, m.cluster, e.rec);
  }

  lemma RecommendationsRewritten(t: map<Key<Rule>, RecommendationRow>, m: Message, e: Env, earlier: map<string, Time>)
    requires ClusterRowsAre(t, m.cluster, RecommendationRows(m.org, m.cluster, m.hits, ToSecond(e.storedAt), earlier))
    ensures Rewritten(ImpactedTimes(t), m.org, m.cluster, RecommendationEntry(m, e), earlier)
  {
    forall k ensures k in t && k.cluster == m.cluster <==>
                     k.org == m.org && k.cluster == m.cluster && k.id in RecommendationEntry(m, e).seen {
      RewrittenKey(t, m, e, earlier, k);
    }
    forall d | d in RecommendationEntry(m, e).seen
      ensures ImpactedTimes(t)[Key(m.org, m.cluster, d)] ==
              Some(if LookupKey(d) in earlier then earlier[LookupKey(d)] else RecommendationEntry(m, e).seen[d]) {
      RewrittenTime(t, m, e, earlier, d);
    }
  }

  lemma RewrittenKey(t: map<Key<Rule>, RecommendationRow>, m: Message, e: Env, earlier: map<string, Time>, k: Key<Rule>)
    requires ClusterRowsAre(t, m.cluster, RecommendationRows(m.org, m.cluster, m.hits, ToSecond(e.storedAt), earlier))
    ensures k in t && k.cluster == m.cluster <==>
            k.org == m.org && k.cluster == m.cluster && k.id in RecommendationEntry(m, e).seen
  {
    var rows := RecommendationRows(m.org, m.cluster, m.hits, ToSecond(e.storedAt), earlier);
    if k in t && k.cluster == m.cluster {
      var i :| 0 <= i < |rows| && rows[i].0 == k;
      assert m.hits[i] in m.hits;
    }
    if k.org == m.org && k.cluster == m.cluster && k.id in RecommendationEntry(m, e).seen {
      var h :| h in m.hits && Stripped(h.rule) == k.id;
      var i :| 0 <= i < |m.hits| && m.hits[i] == h;
      assert rows[i].0 == k;
    }
  }

  lemma RewrittenTime(t: map<Key<Rule>, RecommendationRow>, m: Message, e: Env, earlier: map<string, Time>, d: Rule)
    requires ClusterRowsAre(t, m.cluster, RecommendationRows(m.org, m.cluster, m.hits, ToSecond(e.storedAt), earlier))
    requires d in RecommendationEntry(m, e).seen
    ensures Key(m.org, m.cluster, d) in t
    ensures t[Key(m.org, m.cluster, d)].impactedSince ==
            Some(if LookupKey(d) in earlier then earlier[LookupKey(d)] else RecommendationEntry(m, e).seen[d])
  {
    var rows := RecommendationRows(m.org, m.cluster, m.hits, ToSecond(e.storedAt), earlier);
    ToSecondIdempotent(e.storedAt);
    var h :| h in m.hits && Stripped(h.rule) == d;
    var i :| 0 <= i < |m.hits| && m.hits[i] == h;
    assert rows[i].0 in t;
  }

  lemma CommitShows(s: Store, m: Message, e: Env, a: Answers, hist: History<Rule>, universe: set<Rule>)
    requires Good(s.tables) && PossibleAnswers(s, m, e, a) && FailureAborts(e.org)
    requires CommitsRecommendations(s, m, e, a) && m.cluster in ReportWritten(s, m, e, a).store.cache
    requires Shows(ImpactedTimes(s.tables.recs), m.cluster, hist, universe) && Separable(universe)
    requires forall j :: 0 <= j < |m.hits| ==> Stripped(m.hits[j].rule) in universe
    ensures Shows(ImpactedTimes(StoreInDb(s, m, e, a).store.tables.recs), m.cluster,
                  hist + [RecommendationEntry(m, e)], universe)
  {
    var moved := MovedStore(s, m, e, a).tables;
    var t := StoreInDb(s, m, e, a).store.tables;
    MovedShows(s.tables, m.cluster, m.org, e.org, a.current, hist, universe);
    OrgStepKeepsGood(s.tables, m.cluster, m.org, e.org, a.current);
    RecommendationsLeft(s, m, e, a);
    KnownRecommendations(s, m, e, a);
    if !e.rec.lookup {
      CommitReads(s, m, e, a);
    }
    var earlier := if e.rec.lookup then map[] else a.impacted;
    RecommendationsRewritten(t.recs, m, e, earlier);
    RewriteShows(ImpactedTimes(moved.recs), ImpactedTimes(t.recs), m.org, m.cluster, hist, RecommendationEntry(m, e),
                 earlier, universe);
  }

  lemma ImpactedSinceStep(w: World, ev: Event, c: Cluster, hist: History<Rule>, universe: set<Rule>)
    requires Good(w.tables) && Possible(w, ev) && !Misled(w, ev, c)
    requires UsesStripped([ev], c, universe) && Separable(universe)
    requires Shows(ImpactedTimes(w.tables.recs), c, hist, universe)
    ensures Shows(ImpactedTimes(Step(w, ev).tables.recs), c, hist + NewRecommendationReports(w, ev, c), universe)
  {
    assert hist + [] == hist;
    assert [ev][0] == ev;
    if ev.Process? {
      var s := StoreOf(w, ev.instance);
      if ev.m.cluster != c {
        StoreInDbKeepsGood(s, ev.m, ev.e, ev.a);
        OtherClusterShows(s.tables, ResultOf(w, ev).store.tables, c, hist, universe);
      } else if CommitsRecommendations(s, ev.m, ev.e, ev.a) {
        CommitsInformed(s, ev.m, ev.e, ev.a);
        CommitShows(s, ev.m, ev.e, ev.a, hist, universe);
      } else {
        RecommendationsLeft(s, ev.m, ev.e, ev.a);
        MovedShows(s.tables, c, ev.m.org, ev.e.org, ev.a.current, hist, universe);
      }
    }
  }

  /** Over every run in which no instance is misled about `c`, every recommendation of `c` has impacted it since the
      first report of the unbroken suffix that contains it, and there are no other recommendations. */
  lemma {:induction false} ImpactedSinceOverRuns(w: World, evs: seq<Event>, c: Cluster, universe: set<Rule>)
    requires Good(w.tables) && PossibleRun(w, evs) && NeverMisled(w, evs, c)
    requires TimesKnown(ImpactedTimes(w.tables.recs), c)
    requires forall k :: k in w.tables.recs && k.cluster == c ==> k.id in universe
    requires UsesStripped(evs, c, universe) && Separable(universe)
    ensures Shows(ImpactedTimes(Run(w, evs).tables.recs), c, RecommendationHistory(w, evs, c), universe)
  {
    if evs == [] {
      StoredShow(w, ImpactedTimes(w.tables.recs), c, universe);
      assert RecommendationHistory(w, evs, c) == AtStart(ImpactedTimes(w.tables.recs), c);
    } else {
      var front, ev := evs[..|evs| - 1], evs[|evs| - 1];
      UsesStrippedFront(evs, c, universe);
      ImpactedSinceOverRuns(w, front, c, universe);
      SingleOrgForever(w, front);
      ImpactedSinceStep(Run(w, front), ev, c, RecommendationHistory(w, front, c), universe);
      RecommendationHistoryStep(w, evs, c);
    }
  }

  lemma RecommendationHistoryStep(w: World, evs: seq<Event>, c: Cluster)
    requires evs != []
    ensures var front, ev := evs[..|evs| - 1], evs[|evs| - 1];
            RecommendationHistory(w, evs, c) ==
            RecommendationHistory(w, front, c) + NewRecommendationReports(Run(w, front), ev, c)
  {
  }

  lemma UsesStrippedFront(evs: seq<Event>, c: Cluster, universe: set<Rule>)
    requires evs != [] && UsesStripped(evs, c, universe)
    ensures UsesStripped(evs[..|evs| - 1], c, universe) && UsesStripped([evs[|evs| - 1]], c, universe)
  {
    var front := evs[..|evs| - 1];
    assert forall i :: 0 <= i < |front| ==> front[i] == evs[i];
  }

  lemma {:induction false} ImpactedInSeconds(w: World, evs: seq<Event>, c: Cluster)
    ensures InSeconds(RecommendationReports(w, evs, c))
  {
    if evs != [] {
      var front, ev := evs[..|evs| - 1], evs[|evs| - 1];
      ImpactedInSeconds(w, front, c);
      NewImpactedInSeconds(Run(w, front), ev, c);
      InSecondsConcat(RecommendationReports(w, front, c), NewRecommendationReports(Run(w, front), ev, c));
    }
  }

  lemma NewImpactedInSeconds(w: World, ev: Event, c: Cluster)
    ensures InSeconds(NewRecommendationReports(w, ev, c))
  {
    if ev.Process? {
      ToSecondIdempotent(ev.e.storedAt);
    }
  }

  /** The same, recommendation by recommendation. */
  lemma RecommendationSinceFirstReport(w: World, evs: seq<Event>, c: Cluster, universe: set<Rule>, k: Key<Rule>)
    returns (i: nat)
    requires Good(w.tables) && PossibleRun(w, evs) && NeverMisled(w, evs, c)
    requires TimesKnown(ImpactedTimes(w.tables.recs), c)
    requires forall l :: l in w.tables.recs && l.cluster == c ==> l.id in universe
    requires UsesStripped(evs, c, universe) && Separable(universe)
    requires k in Run(w, evs).tables.recs && k.cluster == c
    ensures var hist := RecommendationHistory(w, evs, c);
            && StartsSuffix(hist, k.id, i) && (forall j :: StartsSuffix(hist, k.id, j) ==> j == i)
            && Run(w, evs).tables.recs[k].impactedSince ==
               Some(if i == 0 && |hist| > 1 then ToSecond(hist[i].seen[k.id]) else hist[i].seen[k.id])
  {
    ImpactedSinceOverRuns(w, evs, c, universe);
    ImpactedInSeconds(w, evs, c);
    i := ShownSince(ImpactedTimes(Run(w, evs).tables.recs), c, AtStart(ImpactedTimes(w.tables.recs), c),
                    RecommendationReports(w, evs, c), universe, k);
  }
}
