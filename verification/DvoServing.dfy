/**
 The server's view of one namespace, recomputed from the stored report, and its
 agreement with the summary written next to that report.
 */
module DvoServing {
  import opened Options
  import opened Sums
  import opened DvoAggregates
  import Text

  datatype ServedObject = ServedObject(kind: string, uid: string, displayName: string)

  datatype Served = Served(check: string, objects: seq<ServedObject>, details: string)

  function ToObject(w: Workload): ServedObject
  {
    ServedObject(w.kind, w.uid, w.name)
  }

  /** The objects of namespace `ns`, in report order. */
  function ObjectsIn(ws: seq<Workload>, ns: string): seq<ServedObject>
  {
    if ws == [] then [] else
      ObjectsIn(ws[..|ws| - 1], ns)
      + if ws[|ws| - 1].namespaceUid == ns then [ToObject(ws[|ws| - 1])] else []
  }

  /** A recommendation is listed for `ns` when it touches it and its composite ID is valid. */
  predicate IsListed(rec: Recommendation, ns: string, compose: Composer)
  {
    ObjectsIn(rec.workloads, ns) != [] && CompositeId(rec, compose).Some?
  }

  /** The recommendation list of the namespace page. */
  function View(recs: seq<Recommendation>, ns: string, compose: Composer): seq<Served>
  {
    if recs == [] then [] else
      var last := recs[|recs| - 1];
      View(recs[..|recs| - 1], ns, compose)
      + if IsListed(last, ns, compose)
        then [Served(CompositeId(last, compose).value, ObjectsIn(last.workloads, ns), last.details)]
        else []
  }

  /** ProcessSingleDVONamespace, on the decoded report. */
  method ProcessSingleDvoNamespace(recs: seq<Recommendation>, ns: string, compose: Composer)
    returns (served: seq<Served>)
    ensures served == View(recs, ns, compose) && IsPage(served, recs, ns, compose)
  {
    served := [];
    for k := 0 to |recs|
      invariant served == View(recs[..k], ns, compose)
    {
      var rec := recs[k];
      assert recs[..k + 1][..k] == recs[..k];
      var filtered: seq<ServedObject> := [];
      for i := 0 to |rec.workloads|
        invariant filtered == ObjectsIn(rec.workloads[..i], ns)
      {
        assert rec.workloads[..i + 1][..i] == rec.workloads[..i];
        if rec.workloads[i].namespaceUid != ns {
          continue;
        }
        filtered := filtered + [ToObject(rec.workloads[i])];
      }
      assert rec.workloads[..|rec.workloads|] == rec.workloads;
      if |filtered| == 0 {
        continue;
      }
      var id := CompositeId(rec, compose);
      if id.None? {
        continue;
      }
      served := served + [Served(id.value, filtered, rec.details)];
    }
    assert recs[..|recs|] == recs;
    var at := ViewIsPage(recs, ns, compose);
  }

  // ---------------------------------------------------------------------------
  // The page, item by item
  // ---------------------------------------------------------------------------

  predicate Increasing(at: seq<nat>)
  {
    forall j, k :: 0 <= j < k < |at| ==> at[j] < at[k]
  }

  /** `at` lists the positions of the workloads in `ns`, in order, and `objects` are those workloads. */
  ghost predicate AreObjectsAt(objects: seq<ServedObject>, at: seq<nat>, ws: seq<Workload>, ns: string)
  {
    && |objects| == |at| && Increasing(at)
    && (forall i: nat :: i in at <==> i < |ws| && ws[i].namespaceUid == ns)
    && (forall j :: 0 <= j < |at| ==>
          && at[j] < |ws| && objects[j].kind == ws[at[j]].kind && objects[j].uid == ws[at[j]].uid
          && objects[j].displayName == ws[at[j]].name)
  }

  /** The composite ID comes from the component without ".recommendation" and the key. */
  function IdOf(rec: Recommendation, compose: Composer): Option<string>
  {
    compose(Text.TrimSuffix(rec.component, ".recommendation"), rec.key)
  }

  /** The item has the ID, the details and the objects of the recommendation. */
  ghost predicate Serves(item: Served, rec: Recommendation, ns: string, compose: Composer)
  {
    && IdOf(rec, compose) == Some(item.check) && item.details == rec.details
    && exists at :: AreObjectsAt(item.objects, at, rec.workloads, ns)
  }

  /** The recommendation is due on the page: it has a workload in `ns` and its ID is valid. */
  ghost predicate IsDue(rec: Recommendation, ns: string, compose: Composer)
  {
    (exists w :: w in rec.workloads && w.namespaceUid == ns) && IdOf(rec, compose).Some?
  }

  /** `at` lists the positions of the due recommendations, in order. */
  ghost predicate AreDueAt(at: seq<nat>, recs: seq<Recommendation>, ns: string, compose: Composer)
  {
    Increasing(at) && forall i: nat :: i in at <==> i < |recs| && IsDue(recs[i], ns, compose)
  }

  /** The items serve the recommendations at these positions. */
  ghost predicate ServesAll(page: seq<Served>, at: seq<nat>, recs: seq<Recommendation>, ns: string, compose: Composer)
  {
    |page| == |at| && forall j :: 0 <= j < |at| ==> at[j] < |recs| && Serves(page[j], recs[at[j]], ns, compose)
  }

  ghost predicate IsPageAt(page: seq<Served>, at: seq<nat>, recs: seq<Recommendation>, ns: string, compose: Composer)
  {
    AreDueAt(at, recs, ns, compose) && ServesAll(page, at, recs, ns, compose)
  }

  ghost predicate IsPage(page: seq<Served>, recs: seq<Recommendation>, ns: string, compose: Composer)
  {
    exists at :: IsPageAt(page, at, recs, ns, compose)
  }

  lemma {:induction false} ObjectsAreObjects(ws: seq<Workload>, ns: string) returns (at: seq<nat>)
    ensures AreObjectsAt(ObjectsIn(ws, ns), at, ws, ns)
  {
    if ws == [] {
      at := [];
    } else {
      var n := |ws| - 1;
      var front := ObjectsAreObjects(ws[..n], ns);
      at := if ws[n].namespaceUid == ns then front + [n] else front;
      OneMoreObject(ObjectsIn(ws[..n], ns), front, ws, ns);
    }
  }

  lemma OneMoreObject(objects: seq<ServedObject>, at: seq<nat>, ws: seq<Workload>, ns: string)
    requires ws != [] && AreObjectsAt(objects, at, ws[..|ws| - 1], ns)
    ensures var n := |ws| - 1;
            if ws[n].namespaceUid == ns then AreObjectsAt(objects + [ToObject(ws[n])], at + [n], ws, ns)
            else AreObjectsAt(objects, at, ws, ns)
  {
    var n := |ws| - 1;
    assert forall i :: 0 <= i < n ==> ws[..n][i] == ws[i];
    assert forall j :: 0 <= j < |at| ==> at[j] in at && at[j] < n;
  }

  /** A recommendation is listed iff it is due. */
  lemma ListedIfDue(rec: Recommendation, ns: string, compose: Composer)
    ensures IsListed(rec, ns, compose) <==> IsDue(rec, ns, compose)
  {
    var at := ObjectsAreObjects(rec.workloads, ns);
    if ObjectsIn(rec.workloads, ns) != [] {
      assert at[0] in at && rec.workloads[at[0]] in rec.workloads;
    }
    if w :| w in rec.workloads && w.namespaceUid == ns {
      var i :| 0 <= i < |rec.workloads| && rec.workloads[i] == w;
      assert i in at;
    }
  }

  lemma {:induction false} ViewIsPage(recs: seq<Recommendation>, ns: string, compose: Composer) returns (at: seq<nat>)
    ensures IsPageAt(View(recs, ns, compose), at, recs, ns, compose)
  {
    if recs == [] {
      at := [];
    } else {
      var n := |recs| - 1;
      var front := ViewIsPage(recs[..n], ns, compose);
      at := if IsListed(recs[n], ns, compose) then front + [n] else front;
      ListedIfDue(recs[n], ns, compose);
      if IsListed(recs[n], ns, compose) {
        var objects := ObjectsAreObjects(recs[n].workloads, ns);
        var item := Served(CompositeId(recs[n], compose).value, ObjectsIn(recs[n].workloads, ns), recs[n].details);
        assert Serves(item, recs[n], ns, compose);
        OneMoreItem(View(recs[..n], ns, compose), front, recs, ns, compose, item);
      } else {
        ServesStill(View(recs[..n], ns, compose), front, recs, ns, compose);
        assert View(recs, ns, compose) == View(recs[..n], ns, compose);
      }
      OneMorePosition(front, recs, ns, compose);
    }
  }

  lemma OneMorePosition(at: seq<nat>, recs: seq<Recommendation>, ns: string, compose: Composer)
    requires recs != [] && AreDueAt(at, recs[..|recs| - 1], ns, compose)
    ensures var n := |recs| - 1; AreDueAt(if IsDue(recs[n], ns, compose) then at + [n] else at, recs, ns, compose)
  {
    var n := |recs| - 1;
    forall i: nat | i < n ensures i in at <==> IsDue(recs[i], ns, compose) {
      assert recs[..n][i] == recs[i];
    }
    forall j | 0 <= j < |at| ensures at[j] < n {
      assert at[j] in at;
    }
  }

  lemma ServesStill(page: seq<Served>, at: seq<nat>, recs: seq<Recommendation>, ns: string, compose: Composer)
    requires recs != [] && ServesAll(page, at, recs[..|recs| - 1], ns, compose)
    ensures ServesAll(page, at, recs, ns, compose)
  {
    forall j | 0 <= j < |at| ensures at[j] < |recs| && Serves(page[j], recs[at[j]], ns, compose) {
      assert recs[..|recs| - 1][at[j]] == recs[at[j]];
    }
  }

  lemma OneMoreItem(page: seq<Served>, at: seq<nat>, recs: seq<Recommendation>, ns: string, compose: Composer, item: Served)
    requires recs != [] && ServesAll(page, at, recs[..|recs| - 1], ns, compose)
    requires Serves(item, recs[|recs| - 1], ns, compose)
    ensures ServesAll(page + [item], at + [|recs| - 1], recs, ns, compose)
  {
    ServesStill(page, at, recs, ns, compose);
    forall j | 0 <= j < |at| + 1
      ensures (at + [|recs| - 1])[j] < |recs| && Serves((page + [item])[j], recs[(at + [|recs| - 1])[j]], ns, compose) {
      if j < |at| {
        assert (page + [item])[j] == page[j] && (at + [|recs| - 1])[j] == at[j];
      }
    }
  }

  // ---------------------------------------------------------------------------
  // Agreement with the summary
  // ---------------------------------------------------------------------------

  function ObjectsOf(rule: string): Served -> nat
  {
    (s: Served) => if s.check == rule then |s.objects| else 0
  }

  /** Number of objects the page lists under the check `rule`. */
  function ListedObjects(served: seq<Served>, rule: string): nat
  {
    Sum(served, ObjectsOf(rule))
  }

  ghost predicate HasUid(objects: seq<ServedObject>, uid: string)
  {
    exists i :: 0 <= i < |objects| && objects[i].uid == uid
  }

  ghost function ServedUids(served: seq<Served>): set<string>
  {
    set i, j | 0 <= i < |served| && 0 <= j < |served[i].objects| :: served[i].objects[j].uid
  }

  /** Every recommendation that touches `ns` has a valid composite ID. */
  ghost predicate AllValidIn(recs: seq<Recommendation>, ns: string, compose: Composer)
  {
    forall i :: 0 <= i < |recs| && CountIn(recs[i], ns) > 0 ==> CompositeId(recs[i], compose).Some?
  }

  lemma {:induction false} ObjectsCounted(ws: seq<Workload>, ns: string)
    ensures |ObjectsIn(ws, ns)| == Sum(ws, InNamespace(ns))
  {
    if ws != [] {
      ObjectsCounted(ws[..|ws| - 1], ns);
    }
  }

  lemma {:induction false} ObjectsUids(ws: seq<Workload>, ns: string, uid: string)
    ensures HasUid(ObjectsIn(ws, ns), uid) <==> exists w :: w in ws && w.namespaceUid == ns && w.uid == uid
  {
    if ws != [] {
      var front, last := ws[..|ws| - 1], ws[|ws| - 1];
      ObjectsUids(front, ns, uid);
      assert ws == front + [last];
      var more := if last.namespaceUid == ns then [ToObject(last)] else [];
      HasUidConcat(ObjectsIn(front, ns), more, uid);
      if last.namespaceUid == ns {
        assert more[0] == ToObject(last);
        assert HasUid(more, uid) <==> last.uid == uid;
      }
    }
  }

  lemma HasUidConcat(a: seq<ServedObject>, b: seq<ServedObject>, uid: string)
    ensures HasUid(a + b, uid) <==> HasUid(a, uid) || HasUid(b, uid)
  {
    if HasUid(a, uid) {
      var i :| 0 <= i < |a| && a[i].uid == uid;
      assert (a + b)[i].uid == uid;
    }
    if HasUid(b, uid) {
      var i :| 0 <= i < |b| && b[i].uid == uid;
      assert (a + b)[|a| + i].uid == uid;
    }
  }

  /** Per check, the page lists exactly as many objects as the stored hit count says. */
  lemma {:induction false} ListedObjectsAreHits(recs: seq<Recommendation>, ns: string, compose: Composer, rule: string)
    ensures ListedObjects(View(recs, ns, compose), rule) == HitCount(recs, compose, ns, rule)
  {
    if recs != [] {
      var front, last := recs[..|recs| - 1], recs[|recs| - 1];
      ListedObjectsAreHits(front, ns, compose, rule);
      ObjectsCounted(last.workloads, ns);
      if IsListed(last, ns, compose) {
        SumSnoc(View(front, ns, compose),
                Served(CompositeId(last, compose).value, ObjectsIn(last.workloads, ns), last.details), ObjectsOf(rule));
      } else {
        assert View(recs, ns, compose) == View(front, ns, compose);
      }
      assert HitCount(recs, compose, ns, rule) == HitCount(front, compose, ns, rule) + HitTerm(compose, ns, rule)(last);
    }
  }

  /** The page lists at most the counted recommendations, and all of them iff every ID involved is valid. */
  lemma {:induction false} ListedRecommendations(recs: seq<Recommendation>, ns: string, compose: Composer)
    ensures |View(recs, ns, compose)| <= RecommendationCount(recs, ns)
    ensures |View(recs, ns, compose)| == RecommendationCount(recs, ns) <==> AllValidIn(recs, ns, compose)
  {
    if recs != [] {
      var n := |recs| - 1;
      var front, last := recs[..n], recs[n];
      ListedRecommendations(front, ns, compose);
      ObjectsCounted(last.workloads, ns);
      assert forall i :: 0 <= i < n ==> front[i] == recs[i];
      assert AllValidIn(recs, ns, compose) <==>
             AllValidIn(front, ns, compose) && (CountIn(last, ns) > 0 ==> CompositeId(last, compose).Some?);
    }
  }

  /** The uid occurs in `ns` within a recommendation whose composite ID is valid. */
  ghost predicate ValidUid(recs: seq<Recommendation>, ns: string, compose: Composer, uid: string)
  {
    exists i :: 0 <= i < |recs| && CompositeId(recs[i], compose).Some? && HasUid(ObjectsIn(recs[i].workloads, ns), uid)
  }

  lemma ServedUidsSnoc(served: seq<Served>, s: Served, uid: string)
    ensures uid in ServedUids(served + [s]) <==> uid in ServedUids(served) || HasUid(s.objects, uid)
  {
    var all := served + [s];
    if uid in ServedUids(served) {
      var i, j :| 0 <= i < |served| && 0 <= j < |served[i].objects| && served[i].objects[j].uid == uid;
      assert all[i].objects[j].uid == uid;
    }
    if HasUid(s.objects, uid) {
      var j :| 0 <= j < |s.objects| && s.objects[j].uid == uid;
      assert all[|served|].objects[j].uid == uid;
    }
    if uid in ServedUids(all) {
      var i, j :| 0 <= i < |all| && 0 <= j < |all[i].objects| && all[i].objects[j].uid == uid;
      if i < |served| {
        assert served[i].objects[j].uid == uid;
      } else {
        assert s.objects[j].uid == uid;
      }
    }
  }

  lemma {:induction false} ServedUidsMeaning(recs: seq<Recommendation>, ns: string, compose: Composer, uid: string)
    ensures uid in ServedUids(View(recs, ns, compose)) <==> ValidUid(recs, ns, compose, uid)
  {
    if recs != [] {
      var n := |recs| - 1;
      var front, last := recs[..n], recs[n];
      ServedUidsMeaning(front, ns, compose, uid);
      assert forall i :: 0 <= i < n ==> front[i] == recs[i];
      assert ValidUid(recs, ns, compose, uid) <==>
             ValidUid(front, ns, compose, uid)
             || (CompositeId(last, compose).Some? && HasUid(ObjectsIn(last.workloads, ns), uid));
      if IsListed(last, ns, compose) {
        ServedUidsSnoc(View(front, ns, compose),
                       Served(CompositeId(last, compose).value, ObjectsIn(last.workloads, ns), last.details), uid);
      } else {
        assert View(recs, ns, compose) == View(front, ns, compose);
      }
    }
  }

  /** The uid occurs in `ns` at all. */
  ghost predicate AnyUid(recs: seq<Recommendation>, ns: string, uid: string)
  {
    exists i :: 0 <= i < |recs| && HasUid(ObjectsIn(recs[i].workloads, ns), uid)
  }

  lemma {:induction false} UidsMeaning(recs: seq<Recommendation>, ns: string, uid: string)
    ensures uid in Uids(AllWorkloads(recs), ns) <==> AnyUid(recs, ns, uid)
  {
    if recs != [] {
      var n := |recs| - 1;
      var front, last := recs[..n], recs[n];
      UidsMeaning(front, ns, uid);
      ObjectsUids(last.workloads, ns, uid);
      assert forall i :: 0 <= i < n ==> front[i] == recs[i];
      assert AnyUid(recs, ns, uid) <==> AnyUid(front, ns, uid) || HasUid(ObjectsIn(last.workloads, ns), uid);
      var ws := AllWorkloads(recs);
      assert ws == AllWorkloads(front) + last.workloads;
      assert forall w :: w in ws <==> w in AllWorkloads(front) || w in last.workloads;
    }
  }

  /** The page's distinct object UIDs are among those of the namespace, and are all of them iff
      each of those occurs under some valid recommendation. */
  lemma ServedObjects(recs: seq<Recommendation>, ns: string, compose: Composer)
    ensures |ServedUids(View(recs, ns, compose))| <= |Uids(AllWorkloads(recs), ns)|
    ensures |ServedUids(View(recs, ns, compose))| == |Uids(AllWorkloads(recs), ns)| <==>
            forall uid :: AnyUid(recs, ns, uid) ==> ValidUid(recs, ns, compose, uid)
  {
    var served, all := ServedUids(View(recs, ns, compose)), Uids(AllWorkloads(recs), ns);
    forall uid ensures uid in served <==> ValidUid(recs, ns, compose, uid) {
      ServedUidsMeaning(recs, ns, compose, uid);
    }
    forall uid ensures uid in all <==> AnyUid(recs, ns, uid) {
      UidsMeaning(recs, ns, uid);
    }
    SubsetSize(served, all);
  }

  lemma SubsetSize<T>(a: set<T>, b: set<T>)
    requires a <= b
    ensures |a| <= |b|
    ensures |a| == |b| <==> forall x :: x in b ==> x in a
  {
    assert b == a + (b - a);
  }

  lemma AllValidCoversUids(recs: seq<Recommendation>, ns: string, compose: Composer)
    requires AllValidIn(recs, ns, compose)
    ensures forall uid :: AnyUid(recs, ns, uid) ==> ValidUid(recs, ns, compose, uid)
  {
    forall uid | AnyUid(recs, ns, uid) ensures ValidUid(recs, ns, compose, uid) {
      var i :| 0 <= i < |recs| && HasUid(ObjectsIn(recs[i].workloads, ns), uid);
      ObjectsCounted(recs[i].workloads, ns);
      assert CountIn(recs[i], ns) > 0;
    }
  }

  /** The stored summary agrees with the served page, for every report and every namespace. */
  lemma SummaryAgreesWithView(agg: Aggregates, recs: seq<Recommendation>, compose: Composer, ns: string)
    requires Summarises(agg, recs, compose)
    ensures forall rule :: ListedObjects(View(recs, ns, compose), rule) == Stored(agg.hits, ns, rule)
    ensures ns !in agg.names ==> View(recs, ns, compose) == []
    ensures ns in agg.names ==>
              && |View(recs, ns, compose)| <= agg.recommendations[ns]
              && (|View(recs, ns, compose)| == agg.recommendations[ns] <==> AllValidIn(recs, ns, compose))
    ensures ns in agg.names ==>
              && |ServedUids(View(recs, ns, compose))| <= agg.objects[ns]
              && (AllValidIn(recs, ns, compose) ==> |ServedUids(View(recs, ns, compose))| == agg.objects[ns])
  {
    forall rule ensures ListedObjects(View(recs, ns, compose), rule) == Stored(agg.hits, ns, rule) {
      ListedObjectsAreHits(recs, ns, compose, rule);
      assert Stored(agg.hits, ns, rule) == HitCount(recs, compose, ns, rule);
    }
    ListedRecommendations(recs, ns, compose);
    RecommendationCountPositive(recs);
    ServedObjects(recs, ns, compose);
    if AllValidIn(recs, ns, compose) {
      AllValidCoversUids(recs, ns, compose);
    }
  }
}
