/**
 The inversion of a DVO report: from "recommendation to workloads" to four
 aggregates per namespace.

 The composite rule ID comes from a library function that is not part of this
 model; it appears as the partial function `compose`, the same one for the
 writer and for the server.
 */
module DvoAggregates {
  import opened Options
  import opened Sums
  import Text

  datatype Workload = Workload(namespace: string, namespaceUid: string, kind: string, name: string, uid: string)

  datatype Recommendation = Recommendation(component: string, key: string, details: string, workloads: seq<Workload>)

  /** GenerateCompositeRuleID: (rule FQDN, error key) to a composite ID, or an error. */
  type Composer = (string, string) -> Option<string>

  const RECOMMENDATION_SUFFIX := ".recommendation"

  function CompositeId(rec: Recommendation, compose: Composer): Option<string>
  {
    compose(Text.TrimSuffix(rec.component, RECOMMENDATION_SUFFIX), rec.key)
  }

  // ---------------------------------------------------------------------------
  // What the four maps should hold
  // ---------------------------------------------------------------------------

  function InNamespace(ns: string): Workload -> nat
  {
    (w: Workload) => if w.namespaceUid == ns then 1 else 0
  }

  /** Number of workload entries of `rec` in namespace `ns`. */
  function CountIn(rec: Recommendation, ns: string): nat
  {
    Sum(rec.workloads, InNamespace(ns))
  }

  function TouchesTerm(ns: string): Recommendation -> nat
  {
    (rec: Recommendation) => if CountIn(rec, ns) > 0 then 1 else 0
  }

  /** Number of recommendations with at least one workload in `ns`. */
  function RecommendationCount(recs: seq<Recommendation>, ns: string): nat
  {
    Sum(recs, TouchesTerm(ns))
  }

  function HitTerm(compose: Composer, ns: string, rule: string): Recommendation -> nat
  {
    (rec: Recommendation) => if CompositeId(rec, compose) == Some(rule) then CountIn(rec, ns) else 0
  }

  /** Number of workload entries in `ns` of recommendations whose composite ID is `rule`. */
  function HitCount(recs: seq<Recommendation>, compose: Composer, ns: string, rule: string): nat
  {
    Sum(recs, HitTerm(compose, ns, rule))
  }

  /** All workload entries, in report order. */
  function AllWorkloads(recs: seq<Recommendation>): seq<Workload>
  {
    if recs == [] then [] else AllWorkloads(recs[..|recs| - 1]) + recs[|recs| - 1].workloads
  }

  ghost function Namespaces(ws: seq<Workload>): set<string>
  {
    set w | w in ws :: w.namespaceUid
  }

  /** The distinct object UIDs in `ns`. */
  ghost function Uids(ws: seq<Workload>, ns: string): set<string>
  {
    set w | w in ws && w.namespaceUid == ns :: w.uid
  }

  /** True iff `name` is the name the first workload of `ns` gives it. */
  ghost predicate IsFirstName(ws: seq<Workload>, ns: string, name: string)
  {
    exists i :: 0 <= i < |ws| && ws[i].namespaceUid == ns && ws[i].namespace == name
                && forall j :: 0 <= j < i ==> ws[j].namespaceUid != ns
  }

  datatype Aggregates = Aggregates(
    names: map<string, string>,
    objects: map<string, nat>,
    recommendations: map<string, nat>,
    hits: map<string, map<string, nat>>)

  /** The count stored for (ns, rule); an absent entry counts zero. */
  function Stored(hits: map<string, map<string, nat>>, ns: string, rule: string): nat
  {
    if ns in hits && rule in hits[ns] then hits[ns][rule] else 0
  }

  ghost predicate NoZeroEntry(hits: map<string, nat>)
  {
    forall rule :: rule in hits ==> hits[rule] > 0
  }

  ghost predicate CountsHits(hits: map<string, map<string, nat>>, recs: seq<Recommendation>, compose: Composer)
  {
    forall ns, rule :: Stored(hits, ns, rule) == HitCount(recs, compose, ns, rule)
  }

  ghost predicate NamesExact(names: map<string, string>, ws: seq<Workload>)
  {
    names.Keys == Namespaces(ws) && forall ns :: ns in names ==> IsFirstName(ws, ns, names[ns])
  }

  ghost predicate ObjectsExact(objects: map<string, set<string>>, ws: seq<Workload>)
  {
    objects.Keys == Namespaces(ws) && forall ns :: ns in objects ==> objects[ns] == Uids(ws, ns)
  }

  /** One entry per namespace, holding exactly the rules with a non-zero count. */
  ghost predicate AllHitsExact(hits: map<string, map<string, nat>>, recs: seq<Recommendation>, compose: Composer)
  {
    && hits.Keys == Namespaces(AllWorkloads(recs))
    && (forall ns :: ns in hits ==> NoZeroEntry(hits[ns]))
    && CountsHits(hits, recs, compose)
  }

  ghost predicate ObjectCountsExact(objects: map<string, nat>, ws: seq<Workload>)
  {
    objects.Keys == Namespaces(ws) && forall ns :: ns in objects ==> objects[ns] == |Uids(ws, ns)|
  }

  ghost predicate RecommendationCountsExact(counts: map<string, nat>, recs: seq<Recommendation>)
  {
    && counts.Keys == Namespaces(AllWorkloads(recs))
    && forall ns :: ns in counts ==> counts[ns] == RecommendationCount(recs, ns)
  }

  /** The declarative meaning of the four maps. */
  ghost predicate Summarises(agg: Aggregates, recs: seq<Recommendation>, compose: Composer)
  {
    && NamesExact(agg.names, AllWorkloads(recs))
    && ObjectCountsExact(agg.objects, AllWorkloads(recs))
    && RecommendationCountsExact(agg.recommendations, recs)
    && AllHitsExact(agg.hits, recs, compose)
  }

  // ---------------------------------------------------------------------------
  // The loops
  // ---------------------------------------------------------------------------

  /** updateRuleHitsCountsForNamespace: creates the namespace entry even when the ID is invalid. */
  method UpdateRuleHitsCountsForNamespace(
      counts: map<string, map<string, nat>>, ns: string, rec: Recommendation, compose: Composer)
    returns (r: map<string, map<string, nat>>)
    ensures HitsUpdated(counts, r, ns, CompositeId(rec, compose))
  {
    r := counts;
    if ns !in r {
      r := r[ns := map[]];
    }
    var id := CompositeId(rec, compose);
    if id.None? {
      return;
    }
    if id.value !in r[ns] {
      r := r[ns := r[ns][id.value := 0]];
    }
    r := r[ns := r[ns][id.value := r[ns][id.value] + 1]];
  }

  /** The part of `rec` whose workloads the inner loop has already visited. */
  ghost function Visited(rec: Recommendation, i: nat): Recommendation
    requires i <= |rec.workloads|
  {
    rec.(workloads := rec.workloads[..i])
  }

  lemma VisitWorkload(done: seq<Recommendation>, rec: Recommendation, i: nat)
    requires i < |rec.workloads|
    ensures AllWorkloads(done + [Visited(rec, i + 1)]) == AllWorkloads(done + [Visited(rec, i)]) + [rec.workloads[i]]
  {
    var before, after := done + [Visited(rec, i)], done + [Visited(rec, i + 1)];
    assert before[..|done|] == done && after[..|done|] == done;
    assert rec.workloads[..i + 1] == rec.workloads[..i] + [rec.workloads[i]];
  }

  lemma VisitCount(rec: Recommendation, i: nat, ns: string)
    requires i < |rec.workloads|
    ensures CountIn(Visited(rec, i + 1), ns) ==
            CountIn(Visited(rec, i), ns) + if rec.workloads[i].namespaceUid == ns then 1 else 0
  {
    assert rec.workloads[..i + 1] == rec.workloads[..i] + [rec.workloads[i]];
    SumSnoc(rec.workloads[..i], rec.workloads[i], InNamespace(ns));
  }

  function HitOf(rec: Recommendation, compose: Composer, w: Workload, ns: string, rule: string): nat
  {
    if w.namespaceUid == ns && CompositeId(rec, compose) == Some(rule) then 1 else 0
  }

  lemma VisitHit(done: seq<Recommendation>, rec: Recommendation, i: nat, compose: Composer, ns: string, rule: string)
    requires i < |rec.workloads|
    ensures HitCount(done + [Visited(rec, i + 1)], compose, ns, rule) ==
            HitCount(done + [Visited(rec, i)], compose, ns, rule) + HitOf(rec, compose, rec.workloads[i], ns, rule)
  {
    VisitCount(rec, i, ns);
    SumSnoc(done, Visited(rec, i), HitTerm(compose, ns, rule));
    SumSnoc(done, Visited(rec, i + 1), HitTerm(compose, ns, rule));
  }

  lemma VisitNone(done: seq<Recommendation>, rec: Recommendation, compose: Composer,
                  hits: map<string, map<string, nat>>)
    requires AllHitsExact(hits, done, compose)
    ensures AllWorkloads(done + [Visited(rec, 0)]) == AllWorkloads(done)
    ensures AllHitsExact(hits, done + [Visited(rec, 0)], compose)
    ensures CountsPerRecommendation(map[], Visited(rec, 0))
  {
    assert (done + [Visited(rec, 0)])[..|done|] == done;
    forall ns, rule ensures HitCount(done + [Visited(rec, 0)], compose, ns, rule) == HitCount(done, compose, ns, rule) {
      SumSnoc(done, Visited(rec, 0), HitTerm(compose, ns, rule));
    }
  }

  lemma NamesStep(names: map<string, string>, names': map<string, string>, ws: seq<Workload>, w: Workload)
    requires NamesExact(names, ws)
    requires names' == if w.namespaceUid in names then names else names[w.namespaceUid := w.namespace]
    ensures NamesExact(names', ws + [w])
  {
    var ws' := ws + [w];
    forall ns | ns in names ensures IsFirstName(ws', ns, names[ns]) {
      var i :| 0 <= i < |ws| && ws[i].namespaceUid == ns && ws[i].namespace == names[ns]
               && forall j :: 0 <= j < i ==> ws[j].namespaceUid != ns;
      assert ws'[i] == ws[i];
    }
    assert ws'[|ws|] == w;
  }

  lemma ObjectsStep(objects: map<string, set<string>>, ws: seq<Workload>, w: Workload)
    requires ObjectsExact(objects, ws)
    ensures var ns := w.namespaceUid;
            ObjectsExact(objects[ns := (if ns in objects then objects[ns] else {}) + {w.uid}], ws + [w])
  {
    forall ns ensures Uids(ws + [w], ns) == Uids(ws, ns) + (if ns == w.namespaceUid then {w.uid} else {}) {}
  }

  /** What one call of UpdateRuleHitsCountsForNamespace does. */
  ghost predicate HitsUpdated(
      hits: map<string, map<string, nat>>, hits': map<string, map<string, nat>>, ns: string, id: Option<string>)
  {
    && hits'.Keys == hits.Keys + {ns}
    && (forall n :: n in hits && n != ns ==> hits'[n] == hits[n])
    && var before := if ns in hits then hits[ns] else map[];
       match id
       case None => hits'[ns] == before
       case Some(id) => hits'[ns] == before[id := (if id in before then before[id] else 0) + 1]
  }

  lemma HitsStep(hits: map<string, map<string, nat>>, hits': map<string, map<string, nat>>,
                 done: seq<Recommendation>, rec: Recommendation, i: nat, compose: Composer)
    requires i < |rec.workloads|
    requires AllHitsExact(hits, done + [Visited(rec, i)], compose)
    requires HitsUpdated(hits, hits', rec.workloads[i].namespaceUid, CompositeId(rec, compose))
    ensures AllHitsExact(hits', done + [Visited(rec, i + 1)], compose)
  {
    var ns, id := rec.workloads[i].namespaceUid, CompositeId(rec, compose);
    VisitWorkload(done, rec, i);
    NamespacesStep(AllWorkloads(done + [Visited(rec, i)]), rec.workloads[i]);
    EntriesStep(hits, hits', ns, id);
    CountsStep(hits, hits', done, rec, i, compose);
  }

  lemma NamespacesStep(ws: seq<Workload>, w: Workload)
    ensures Namespaces(ws + [w]) == Namespaces(ws) + {w.namespaceUid}
  {
  }

  /** No update stores a zero. */
  lemma EntriesStep(hits: map<string, map<string, nat>>, hits': map<string, map<string, nat>>, ns: string, id: Option<string>)
    requires HitsUpdated(hits, hits', ns, id) && forall n :: n in hits ==> NoZeroEntry(hits[n])
    ensures forall n :: n in hits' ==> NoZeroEntry(hits'[n])
  {
  }

  lemma CountsStep(hits: map<string, map<string, nat>>, hits': map<string, map<string, nat>>,
                   done: seq<Recommendation>, rec: Recommendation, i: nat, compose: Composer)
    requires i < |rec.workloads|
    requires CountsHits(hits, done + [Visited(rec, i)], compose)
    requires HitsUpdated(hits, hits', rec.workloads[i].namespaceUid, CompositeId(rec, compose))
    ensures CountsHits(hits', done + [Visited(rec, i + 1)], compose)
  {
    forall ns, rule ensures Stored(hits', ns, rule) == HitCount(done + [Visited(rec, i + 1)], compose, ns, rule) {
      VisitHit(done, rec, i, compose, ns, rule);
      assert Stored(hits, ns, rule) == HitCount(done + [Visited(rec, i)], compose, ns, rule);
      StoredStep(hits, hits', rec, compose, rec.workloads[i], ns, rule);
    }
  }

  lemma StoredStep(hits: map<string, map<string, nat>>, hits': map<string, map<string, nat>>,
                   rec: Recommendation, compose: Composer, w: Workload, ns: string, rule: string)
    requires HitsUpdated(hits, hits', w.namespaceUid, CompositeId(rec, compose))
    ensures Stored(hits', ns, rule) == Stored(hits, ns, rule) + HitOf(rec, compose, w, ns, rule)
  {
  }

  lemma {:induction false} CountZero(ws: seq<Workload>, ns: string)
    ensures Sum(ws, InNamespace(ns)) == 0 <==> forall w :: w in ws ==> w.namespaceUid != ns
  {
    if ws != [] {
      var last := ws[|ws| - 1];
      CountZero(ws[..|ws| - 1], ns);
      assert ws == ws[..|ws| - 1] + [last];
    }
  }

  /** The keys of objectsPerRecommendation after the inner loop: the namespaces `rec` touches. */
  ghost predicate CountsPerRecommendation(counts: map<string, nat>, rec: Recommendation)
  {
    forall ns :: ns in counts <==> CountIn(rec, ns) > 0
  }

  lemma PerRecommendationStep(counts: map<string, nat>, rec: Recommendation, i: nat, n: nat)
    requires i < |rec.workloads|
    requires CountsPerRecommendation(counts, Visited(rec, i))
    ensures CountsPerRecommendation(counts[rec.workloads[i].namespaceUid := n], Visited(rec, i + 1))
  {
    forall ns ensures CountIn(Visited(rec, i + 1), ns) ==
                      CountIn(Visited(rec, i), ns) + if rec.workloads[i].namespaceUid == ns then 1 else 0 {
      VisitCount(rec, i, ns);
    }
  }

  /** An entry for `ns` exactly if the count is positive. */
  predicate Counted(counts: map<string, nat>, ns: string, n: nat)
  {
    (ns in counts <==> n > 0) && (ns in counts ==> counts[ns] == n)
  }

  ghost predicate CountsRecommendations(counts: map<string, nat>, recs: seq<Recommendation>)
  {
    forall ns :: Counted(counts, ns, RecommendationCount(recs, ns))
  }

  /** `rec` is counted for every namespace but the pending ones. */
  ghost predicate PartlyCounted(counts: map<string, nat>, pending: set<string>, done: seq<Recommendation>, rec: Recommendation)
  {
    forall ns :: Counted(counts, ns, CountSoFar(pending, done, rec, ns))
  }

  function CountSoFar(pending: set<string>, done: seq<Recommendation>, rec: Recommendation, ns: string): nat
  {
    RecommendationCount(if ns in pending then done else done + [rec], ns)
  }

  lemma CountNone(counts: map<string, nat>, pending: set<string>, done: seq<Recommendation>, rec: Recommendation)
    requires CountsRecommendations(counts, done) && forall ns :: CountIn(rec, ns) > 0 ==> ns in pending
    ensures PartlyCounted(counts, pending, done, rec)
  {
    forall ns ensures Counted(counts, ns, CountSoFar(pending, done, rec, ns)) {
      OneMoreTouched(done, rec, ns);
      assert Counted(counts, ns, RecommendationCount(done, ns));
    }
  }

  lemma CountOne(counts: map<string, nat>, pending: set<string>, done: seq<Recommendation>, rec: Recommendation, ns: string)
    requires PartlyCounted(counts, pending, done, rec) && ns in pending
    ensures PartlyCounted(if CountIn(rec, ns) > 0 then counts[ns := (if ns in counts then counts[ns] else 0) + 1] else counts,
                          pending - {ns}, done, rec)
  {
    OneMoreTouched(done, rec, ns);
    assert Counted(counts, ns, CountSoFar(pending, done, rec, ns));
    var counts' := if CountIn(rec, ns) > 0 then counts[ns := (if ns in counts then counts[ns] else 0) + 1] else counts;
    assert Counted(counts', ns, RecommendationCount(done + [rec], ns));
    forall n ensures Counted(counts', n, CountSoFar(pending - {ns}, done, rec, n)) {
      if n != ns {
        assert CountSoFar(pending - {ns}, done, rec, n) == CountSoFar(pending, done, rec, n);
        assert Counted(counts, n, CountSoFar(pending, done, rec, n));
      }
    }
  }

  lemma AllCountedIn(counts: map<string, nat>, done: seq<Recommendation>, rec: Recommendation)
    requires PartlyCounted(counts, {}, done, rec)
    ensures CountsRecommendations(counts, done + [rec])
  {
    forall ns ensures Counted(counts, ns, RecommendationCount(done + [rec], ns)) {
      assert Counted(counts, ns, CountSoFar({}, done, rec, ns));
    }
  }

  /** The loop over namespaceMap, in whatever order Go visits the keys. */
  method CountAffectedNamespaces(
      names: map<string, string>, perRecommendation: map<string, nat>, counts: map<string, nat>,
      ghost done: seq<Recommendation>, ghost rec: Recommendation)
    returns (r: map<string, nat>)
    requires CountsRecommendations(counts, done)
    requires CountsPerRecommendation(perRecommendation, rec)
    requires forall ns :: CountIn(rec, ns) > 0 ==> ns in names
    ensures CountsRecommendations(r, done + [rec])
  {
    r := counts;
    var pending := names.Keys;
    CountNone(r, pending, done, rec);
    while pending != {}
      invariant pending <= names.Keys
      invariant PartlyCounted(r, pending, done, rec)
      decreases |pending|
    {
      var ns :| ns in pending;
      CountOne(r, pending, done, rec, ns);
      if ns in perRecommendation {
        r := r[ns := (if ns in r then r[ns] else 0) + 1];
      }
      pending := pending - {ns};
    }
    AllCountedIn(r, done, rec);
  }

  lemma OneMoreTouched(done: seq<Recommendation>, rec: Recommendation, ns: string)
    ensures RecommendationCount(done + [rec], ns) == RecommendationCount(done, ns) + if CountIn(rec, ns) > 0 then 1 else 0
  {
    SumSnoc(done, rec, TouchesTerm(ns));
  }

  /** The inner loop, over the workloads of one recommendation. */
  method VisitRecommendation(
      names0: map<string, string>, objects0: map<string, set<string>>, hits0: map<string, map<string, nat>>,
      ghost done: seq<Recommendation>, rec: Recommendation, compose: Composer)
    returns (names: map<string, string>, objects: map<string, set<string>>, hits: map<string, map<string, nat>>,
             perRecommendation: map<string, nat>)
    requires NamesExact(names0, AllWorkloads(done)) && ObjectsExact(objects0, AllWorkloads(done))
    requires AllHitsExact(hits0, done, compose)
    ensures NamesExact(names, AllWorkloads(done + [rec])) && ObjectsExact(objects, AllWorkloads(done + [rec]))
    ensures AllHitsExact(hits, done + [rec], compose)
    ensures CountsPerRecommendation(perRecommendation, rec)
  {
    names, objects, hits, perRecommendation := names0, objects0, hits0, map[];
    VisitNone(done, rec, compose, hits);
    for i := 0 to |rec.workloads|
      invariant NamesExact(names, AllWorkloads(done + [Visited(rec, i)]))
      invariant ObjectsExact(objects, AllWorkloads(done + [Visited(rec, i)]))
      invariant AllHitsExact(hits, done + [Visited(rec, i)], compose)
      invariant CountsPerRecommendation(perRecommendation, Visited(rec, i))
    {
      var w := rec.workloads[i];
      var ns := w.namespaceUid;
      ghost var ws := AllWorkloads(done + [Visited(rec, i)]);
      ghost var namesBefore, hitsBefore := names, hits;
      VisitWorkload(done, rec, i);
      ObjectsStep(objects, ws, w);

      if ns !in names {
        names := names[ns := w.namespace];
      }
      NamesStep(namesBefore, names, ws, w);

      var n := (if ns in perRecommendation then perRecommendation[ns] else 0) + 1;
      PerRecommendationStep(perRecommendation, rec, i, n);
      perRecommendation := perRecommendation[ns := n];

      hits := UpdateRuleHitsCountsForNamespace(hits, ns, rec, compose);
      HitsStep(hitsBefore, hits, done, rec, i, compose);

      objects := objects[ns := (if ns in objects then objects[ns] else {}) + {w.uid}];
    }
    assert Visited(rec, |rec.workloads|) == rec;
  }

  /** The final loop: the number of distinct objects per namespace. */
  method CountUnique(objects: map<string, set<string>>) returns (unique: map<string, nat>)
    ensures unique.Keys == objects.Keys
    ensures forall ns :: ns in unique ==> unique[ns] == |objects[ns]|
  {
    unique := map[];
    var pending := objects.Keys;
    while pending != {}
      invariant pending <= objects.Keys
      invariant unique.Keys == objects.Keys - pending
      invariant forall ns :: ns in unique ==> unique[ns] == |objects[ns]|
      decreases |pending|
    {
      var ns :| ns in pending;
      unique := unique[ns := |objects[ns]|];
      pending := pending - {ns};
    }
  }

  /** Workload `j` of recommendation `i` is the first one in `ns`, in report order, and carries `name`. */
  ghost predicate IsFirstWorkload(recs: seq<Recommendation>, ns: string, name: string, i: nat, j: nat)
  {
    && i < |recs| && j < |recs[i].workloads|
    && recs[i].workloads[j].namespaceUid == ns && recs[i].workloads[j].namespace == name
    && (forall k :: 0 <= k < j ==> recs[i].workloads[k].namespaceUid != ns)
    && (forall h, k :: 0 <= h < i && 0 <= k < |recs[h].workloads| ==> recs[h].workloads[k].namespaceUid != ns)
  }

  ghost predicate NamesAreFirst(names: map<string, string>, recs: seq<Recommendation>)
  {
    forall ns :: ns in names ==> exists i, j :: IsFirstWorkload(recs, ns, names[ns], i, j)
  }

  lemma NamesFirst(names: map<string, string>, recs: seq<Recommendation>)
    requires NamesExact(names, AllWorkloads(recs))
    ensures NamesAreFirst(names, recs)
  {
    forall ns | ns in names ensures exists i, j :: IsFirstWorkload(recs, ns, names[ns], i, j) {
      var i, j := FirstWorkload(recs, ns, names[ns]);
    }
  }

  /** The first workload of a namespace in the list of all workloads is its first one in the report. */
  lemma {:induction false} FirstWorkload(recs: seq<Recommendation>, ns: string, name: string) returns (i: nat, j: nat)
    requires IsFirstName(AllWorkloads(recs), ns, name)
    ensures IsFirstWorkload(recs, ns, name, i, j)
  {
    var n := |recs| - 1;
    var front := AllWorkloads(recs[..n]);
    if InNone(recs[..n], ns) {
      i := n;
      NoneListed(recs[..n], ns);
      j := FirstInLast(front, recs[n].workloads, ns, name);
      assert forall h :: 0 <= h < n ==> recs[..n][h] == recs[h];
    } else {
      var h, k :| 0 <= h < n && 0 <= k < |recs[h].workloads| && recs[h].workloads[k].namespaceUid == ns;
      assert recs[..n][h] == recs[h];
      EarlierListed(recs[..n], h, k);
      FirstInFront(front, recs[n].workloads, ns, name, recs[h].workloads[k]);
      i, j := FirstWorkload(recs[..n], ns, name);
      FirstStays(recs, ns, name, i, j);
    }
  }

  lemma FirstStays(recs: seq<Recommendation>, ns: string, name: string, i: nat, j: nat)
    requires recs != [] && IsFirstWorkload(recs[..|recs| - 1], ns, name, i, j)
    ensures IsFirstWorkload(recs, ns, name, i, j)
  {
    assert forall h :: 0 <= h < |recs| - 1 ==> recs[..|recs| - 1][h] == recs[h];
  }

  ghost predicate InNone(recs: seq<Recommendation>, ns: string)
  {
    forall h, k :: 0 <= h < |recs| && 0 <= k < |recs[h].workloads| ==> recs[h].workloads[k].namespaceUid != ns
  }

  lemma {:induction false} NoneListed(recs: seq<Recommendation>, ns: string)
    requires InNone(recs, ns)
    ensures forall w :: w in AllWorkloads(recs) ==> w.namespaceUid != ns
  {
    if recs != [] {
      var n := |recs| - 1;
      assert forall h :: 0 <= h < n ==> recs[..n][h] == recs[h];
      NoneListed(recs[..n], ns);
    }
  }

  lemma FirstInFront(front: seq<Workload>, last: seq<Workload>, ns: string, name: string, w: Workload)
    requires IsFirstName(front + last, ns, name) && w in front && w.namespaceUid == ns
    ensures IsFirstName(front, ns, name)
  {
    var at :| 0 <= at < |front + last| && (front + last)[at].namespaceUid == ns && (front + last)[at].namespace == name
              && forall k :: 0 <= k < at ==> (front + last)[k].namespaceUid != ns;
    var f :| 0 <= f < |front| && front[f] == w;
    assert (front + last)[f] == w;
    assert forall k :: 0 <= k < |front| ==> (front + last)[k] == front[k];
    assert front[at].namespaceUid == ns;
  }

  lemma FirstInLast(front: seq<Workload>, last: seq<Workload>, ns: string, name: string) returns (j: nat)
    requires IsFirstName(front + last, ns, name) && forall w :: w in front ==> w.namespaceUid != ns
    ensures j < |last| && last[j].namespaceUid == ns && last[j].namespace == name
    ensures forall k :: 0 <= k < j ==> last[k].namespaceUid != ns
  {
    var at :| 0 <= at < |front + last| && (front + last)[at].namespaceUid == ns && (front + last)[at].namespace == name
              && forall k :: 0 <= k < at ==> (front + last)[k].namespaceUid != ns;
    assert forall k :: 0 <= k < |front| ==> (front + last)[k] in front;
    j := at - |front|;
    assert forall k :: 0 <= k < |last| ==> (front + last)[|front| + k] == last[k];
  }

  lemma {:induction false} EarlierListed(recs: seq<Recommendation>, h: nat, k: nat)
    requires h < |recs| && k < |recs[h].workloads|
    ensures recs[h].workloads[k] in AllWorkloads(recs)
  {
    var n := |recs| - 1;
    if h < n {
      assert recs[..n][h] == recs[h];
      EarlierListed(recs[..n], h, k);
    }
  }

  /** mapWorkloadRecommendations. */
  method MapWorkloadRecommendations(recs: seq<Recommendation>, compose: Composer) returns (agg: Aggregates)
    ensures Summarises(agg, recs, compose)
    ensures NamesAreFirst(agg.names, recs)
  {
    var names: map<string, string> := map[];
    var counts: map<string, nat> := map[];
    var objects: map<string, set<string>> := map[];
    var hits: map<string, map<string, nat>> := map[];

    for k := 0 to |recs|
      invariant NamesExact(names, AllWorkloads(recs[..k]))
      invariant ObjectsExact(objects, AllWorkloads(recs[..k]))
      invariant AllHitsExact(hits, recs[..k], compose)
      invariant CountsRecommendations(counts, recs[..k])
    {
      var perRecommendation;
      names, objects, hits, perRecommendation := VisitRecommendation(names, objects, hits, recs[..k], recs[k], compose);
      assert recs[..k + 1] == recs[..k] + [recs[k]];
      TouchedAreNamespaces(recs[..k + 1]);
      counts := CountAffectedNamespaces(names, perRecommendation, counts, recs[..k], recs[k]);
    }
    assert recs[..|recs|] == recs;

    var unique := CountUnique(objects);
    RecommendationCountPositive(recs);
    assert counts.Keys == Namespaces(AllWorkloads(recs));
    NamesFirst(names, recs);
    return Aggregates(names, unique, counts, hits);
  }

  lemma TouchedAreNamespaces(recs: seq<Recommendation>)
    requires recs != []
    ensures forall ns :: CountIn(recs[|recs| - 1], ns) > 0 ==> ns in Namespaces(AllWorkloads(recs))
  {
    var last := recs[|recs| - 1];
    assert forall w :: w in last.workloads ==> w in AllWorkloads(recs);
    forall ns | CountIn(last, ns) > 0 ensures ns in Namespaces(AllWorkloads(recs)) {
      CountZero(last.workloads, ns);
      var w :| w in last.workloads && w.namespaceUid == ns;
    }
  }

  lemma {:induction false} RecommendationCountPositive(recs: seq<Recommendation>)
    ensures forall ns :: RecommendationCount(recs, ns) > 0 <==> ns in Namespaces(AllWorkloads(recs))
  {
    if recs != [] {
      var front, last := recs[..|recs| - 1], recs[|recs| - 1];
      RecommendationCountPositive(front);
      assert forall w :: w in AllWorkloads(recs) <==> w in AllWorkloads(front) || w in last.workloads;
      forall ns ensures RecommendationCount(recs, ns) > 0 <==> ns in Namespaces(AllWorkloads(recs)) {
        CountZero(last.workloads, ns);
        assert RecommendationCount(recs, ns) == RecommendationCount(front, ns) + TouchesTerm(ns)(last);
        assert ns in Namespaces(AllWorkloads(recs)) <==>
               ns in Namespaces(AllWorkloads(front)) || exists w :: w in last.workloads && w.namespaceUid == ns;
      }
    }
  }
}
