/**
 Laws of the per-namespace summary: it does not depend on the order of the
 report, and its hit counts add up to the workload entries of valid rules.
 */
module DvoLaws {
  import opened Options
  import opened Sums
  import opened DvoAggregates

  // ---------------------------------------------------------------------------
  // Order independence
  // ---------------------------------------------------------------------------

  /** Same recommendation, its workloads permuted. */
  ghost predicate SameWorkloads(a: Recommendation, b: Recommendation)
  {
    a.component == b.component && a.key == b.key && multiset(a.workloads) == multiset(b.workloads)
  }

  /** `b` is `a` with the recommendations permuted and the workloads inside each permuted. */
  ghost predicate Rearranged(a: seq<Recommendation>, b: seq<Recommendation>)
  {
    exists mid :: RearrangedVia(a, mid, b)
  }

  ghost predicate RearrangedVia(a: seq<Recommendation>, mid: seq<Recommendation>, b: seq<Recommendation>)
  {
    multiset(a) == multiset(mid) && |mid| == |b| && forall i :: 0 <= i < |b| ==> SameWorkloads(mid[i], b[i])
  }

  ghost predicate Listed(recs: seq<Recommendation>, w: Workload)
  {
    exists i :: 0 <= i < |recs| && w in recs[i].workloads
  }

  lemma {:induction false} InAllWorkloads(recs: seq<Recommendation>, w: Workload)
    ensures w in AllWorkloads(recs) <==> Listed(recs, w)
  {
    if recs != [] {
      var n := |recs| - 1;
      var front := recs[..n];
      InAllWorkloads(front, w);
      assert forall i :: 0 <= i < n ==> front[i] == recs[i];
      assert Listed(recs, w) <==> Listed(front, w) || w in recs[n].workloads by {
        if w in recs[n].workloads { assert Listed(recs, w); }
      }
    }
  }

  lemma ListedPermuted(a: seq<Recommendation>, b: seq<Recommendation>, w: Workload)
    requires multiset(a) == multiset(b) && Listed(a, w)
    ensures Listed(b, w)
  {
    var i :| 0 <= i < |a| && w in a[i].workloads;
    assert a[i] in multiset(a);
    assert a[i] in b;
  }

  lemma ListedPointwise(a: seq<Recommendation>, b: seq<Recommendation>, w: Workload)
    requires |a| == |b| && forall i :: 0 <= i < |b| ==> SameWorkloads(a[i], b[i])
    ensures Listed(a, w) <==> Listed(b, w)
  {
    forall i | 0 <= i < |b| ensures w in a[i].workloads <==> w in b[i].workloads {
      assert SameWorkloads(a[i], b[i]);
      assert w in multiset(a[i].workloads) <==> w in multiset(b[i].workloads);
    }
  }

  lemma RearrangedWorkloads(a: seq<Recommendation>, b: seq<Recommendation>, w: Workload)
    requires Rearranged(a, b)
    ensures w in AllWorkloads(a) <==> w in AllWorkloads(b)
  {
    InAllWorkloads(a, w);
    InAllWorkloads(b, w);
    var mid: seq<Recommendation> :| RearrangedVia(a, mid, b);
    if Listed(a, w) { ListedPermuted(a, mid, w); }
    ListedPointwise(mid, b, w);
    if Listed(mid, w) { ListedPermuted(mid, a, w); }
  }

  lemma SameSets(ws: seq<Workload>, vs: seq<Workload>, ns: string)
    requires forall w :: w in ws <==> w in vs
    ensures Namespaces(ws) == Namespaces(vs) && Uids(ws, ns) == Uids(vs, ns)
  {
  }

  lemma RearrangedCounts(a: seq<Recommendation>, b: seq<Recommendation>, compose: Composer, ns: string, rule: string)
    requires Rearranged(a, b)
    ensures RecommendationCount(a, ns) == RecommendationCount(b, ns)
    ensures HitCount(a, compose, ns, rule) == HitCount(b, compose, ns, rule)
  {
    var mid: seq<Recommendation> :| RearrangedVia(a, mid, b);
    forall i | 0 <= i < |b| ensures CountIn(mid[i], ns) == CountIn(b[i], ns) {
      assert SameWorkloads(mid[i], b[i]);
      SumPermutation(mid[i].workloads, b[i].workloads, InNamespace(ns));
    }
    SumPermutation(a, mid, TouchesTerm(ns));
    SumPointwise(mid, b, TouchesTerm(ns), TouchesTerm(ns));
    SumPermutation(a, mid, HitTerm(compose, ns, rule));
    forall i | 0 <= i < |b| ensures HitTerm(compose, ns, rule)(mid[i]) == HitTerm(compose, ns, rule)(b[i]) {
      assert SameWorkloads(mid[i], b[i]);
    }
    SumPointwise(mid, b, HitTerm(compose, ns, rule), HitTerm(compose, ns, rule));
  }

  /** Two hit-count tables with the same stored counts are the same table. */
  lemma SameHits(h: map<string, map<string, nat>>, h': map<string, map<string, nat>>)
    requires h.Keys == h'.Keys
    requires forall ns :: ns in h ==> NoZeroEntry(h[ns]) && NoZeroEntry(h'[ns])
    requires forall ns, rule :: Stored(h, ns, rule) == Stored(h', ns, rule)
    ensures h == h'
  {
    forall ns | ns in h ensures h[ns] == h'[ns] {
      assert NoZeroEntry(h[ns]) && NoZeroEntry(h'[ns]);
      forall rule ensures (rule in h[ns] <==> rule in h'[ns]) && (rule in h[ns] ==> h[ns][rule] == h'[ns][rule]) {
        assert Stored(h, ns, rule) == Stored(h', ns, rule);
      }
    }
  }

  /** Any two summaries of the same report, in any order, have the same three count maps. */
  lemma SummaryIgnoresOrder(a: seq<Recommendation>, b: seq<Recommendation>, compose: Composer,
                            x: Aggregates, y: Aggregates)
    requires Rearranged(a, b)
    requires Summarises(x, a, compose) && Summarises(y, b, compose)
    ensures x.objects == y.objects && x.recommendations == y.recommendations && x.hits == y.hits
    ensures x.names.Keys == y.names.Keys
  {
    RearrangedUids(a, b, "");
    ObjectsIgnoreOrder(a, b, x.objects, y.objects);
    RecommendationsIgnoreOrder(a, b, x.recommendations, y.recommendations);
    HitsIgnoreOrder(a, b, compose, x.hits, y.hits);
  }

  lemma ObjectsIgnoreOrder(a: seq<Recommendation>, b: seq<Recommendation>, x: map<string, nat>, y: map<string, nat>)
    requires Rearranged(a, b)
    requires ObjectCountsExact(x, AllWorkloads(a)) && ObjectCountsExact(y, AllWorkloads(b))
    ensures x == y
  {
    RearrangedUids(a, b, "");
    forall ns | ns in x ensures x[ns] == y[ns] {
      RearrangedUids(a, b, ns);
    }
  }

  lemma RecommendationsIgnoreOrder(
      a: seq<Recommendation>, b: seq<Recommendation>, x: map<string, nat>, y: map<string, nat>)
    requires Rearranged(a, b)
    requires RecommendationCountsExact(x, a) && RecommendationCountsExact(y, b)
    ensures x == y
  {
    RearrangedUids(a, b, "");
    forall ns | ns in x ensures x[ns] == y[ns] {
      RearrangedCounts(a, b, (c, k) => None, ns, "");
    }
  }

  lemma HitsIgnoreOrder(a: seq<Recommendation>, b: seq<Recommendation>, compose: Composer,
                        x: map<string, map<string, nat>>, y: map<string, map<string, nat>>)
    requires Rearranged(a, b)
    requires AllHitsExact(x, a, compose) && AllHitsExact(y, b, compose)
    ensures x == y
  {
    RearrangedUids(a, b, "");
    forall ns, rule ensures Stored(x, ns, rule) == Stored(y, ns, rule) {
      RearrangedCounts(a, b, compose, ns, rule);
      assert Stored(x, ns, rule) == HitCount(a, compose, ns, rule);
      assert Stored(y, ns, rule) == HitCount(b, compose, ns, rule);
    }
    SameHits(x, y);
  }

  lemma RearrangedUids(a: seq<Recommendation>, b: seq<Recommendation>, ns: string)
    requires Rearranged(a, b)
    ensures Namespaces(AllWorkloads(a)) == Namespaces(AllWorkloads(b))
    ensures Uids(AllWorkloads(a), ns) == Uids(AllWorkloads(b), ns)
  {
    forall w ensures w in AllWorkloads(a) <==> w in AllWorkloads(b) {
      RearrangedWorkloads(a, b, w);
    }
    SameSets(AllWorkloads(a), AllWorkloads(b), ns);
  }

  /** Only the namespace names may differ: the names that some order of the report gives a namespace are exactly those
      that its workloads carry. So the name does not depend on the order iff they all carry the same. */
  lemma NamesDependOnOrder(recs: seq<Recommendation>, ns: string, name: string)
    ensures (exists b :: Rearranged(recs, b) && IsFirstName(AllWorkloads(b), ns, name)) <==>
            exists w :: w in AllWorkloads(recs) && w.namespaceUid == ns && w.namespace == name
  {
    if b :| Rearranged(recs, b) && IsFirstName(AllWorkloads(b), ns, name) {
      var i :| 0 <= i < |AllWorkloads(b)| && AllWorkloads(b)[i].namespaceUid == ns && AllWorkloads(b)[i].namespace == name;
      RearrangedWorkloads(recs, b, AllWorkloads(b)[i]);
    }
    if w :| w in AllWorkloads(recs) && w.namespaceUid == ns && w.namespace == name {
      var b := PutFirst(recs, w);
      assert AllWorkloads(b)[0] == w;
    }
  }

  lemma PermutedToFront<T>(s: seq<T>, i: nat)
    requires i < |s|
    ensures multiset([s[i]] + s[..i] + s[i + 1..]) == multiset(s)
  {
    assert s == s[..i] + [s[i]] + s[i + 1..];
  }

  /** Some order of the report starts with the given workload. */
  lemma PutFirst(recs: seq<Recommendation>, w: Workload) returns (b: seq<Recommendation>)
    requires w in AllWorkloads(recs)
    ensures Rearranged(recs, b) && AllWorkloads(b) != [] && AllWorkloads(b)[0] == w
  {
    InAllWorkloads(recs, w);
    var i :| 0 <= i < |recs| && w in recs[i].workloads;
    var ws := recs[i].workloads;
    var j :| 0 <= j < |ws| && ws[j] == w;
    PermutedToFront(ws, j);
    var first := recs[i].(workloads := [w] + ws[..j] + ws[j + 1..]);
    b := FirstRearranged(recs, i, first);
  }

  lemma FirstRearranged(recs: seq<Recommendation>, i: nat, first: Recommendation) returns (b: seq<Recommendation>)
    requires i < |recs| && SameWorkloads(recs[i], first) && first.workloads != []
    ensures Rearranged(recs, b) && AllWorkloads(b) != [] && AllWorkloads(b)[0] == first.workloads[0]
  {
    PermutedToFront(recs, i);
    var rest := recs[..i] + recs[i + 1..];
    var mid := [recs[i]] + recs[..i] + recs[i + 1..];
    b := [first] + rest;
    assert mid == [recs[i]] + rest;
    assert RearrangedVia(recs, mid, b);
    WorkloadsOfFirst(first, rest);
  }

  lemma {:induction false} WorkloadsOfFirst(first: Recommendation, rest: seq<Recommendation>)
    ensures AllWorkloads([first] + rest) == first.workloads + AllWorkloads(rest)
  {
    var recs := [first] + rest;
    if rest == [] {
      assert recs[..|recs| - 1] == [];
      assert AllWorkloads(recs) == AllWorkloads([]) + first.workloads;
    } else {
      var n := |rest| - 1;
      WorkloadsOfFirst(first, rest[..n]);
      assert recs[..|recs| - 1] == [first] + rest[..n];
      assert AllWorkloads(rest) == AllWorkloads(rest[..n]) + rest[n].workloads;
    }
  }

  // ---------------------------------------------------------------------------
  // Conservation
  // ---------------------------------------------------------------------------

  function ValidTerm(compose: Composer): Recommendation -> nat
  {
    (rec: Recommendation) => if CompositeId(rec, compose).Some? then |rec.workloads| else 0
  }

  /** Workload entries of recommendations with a valid composite ID. */
  function ValidWorkloads(recs: seq<Recommendation>, compose: Composer): nat
  {
    Sum(recs, ValidTerm(compose))
  }

  function ValueAt(m: map<string, nat>): string -> nat
  {
    (k: string) => if k in m then m[k] else 0
  }

  ghost function NamespaceTotal(hits: map<string, map<string, nat>>): string -> nat
  {
    (ns: string) => if ns in hits then SumSet(hits[ns].Keys, ValueAt(hits[ns])) else 0
  }

  /** All stored hit counts, over every namespace and rule. */
  ghost function TotalHits(hits: map<string, map<string, nat>>): nat
  {
    SumSet(hits.Keys, NamespaceTotal(hits))
  }

  ghost function Ids(recs: seq<Recommendation>, compose: Composer): set<string>
  {
    set rec | rec in recs && CompositeId(rec, compose).Some? :: CompositeId(rec, compose).value
  }

  function RuleTerm(recs: seq<Recommendation>, compose: Composer, ns: string): string -> nat
  {
    (rule: string) => HitCount(recs, compose, ns, rule)
  }

  ghost function NamespaceTerm(recs: seq<Recommendation>, compose: Composer, rules: set<string>): string -> nat
  {
    (ns: string) => SumSet(rules, RuleTerm(recs, compose, ns))
  }

  function CountTerm(ws: seq<Workload>): string -> nat
  {
    (ns: string) => Sum(ws, InNamespace(ns))
  }

  /** Every workload is counted in exactly one namespace. */
  lemma {:induction false} CountsPartition(ws: seq<Workload>, spaces: set<string>)
    requires Namespaces(ws) <= spaces
    ensures SumSet(spaces, CountTerm(ws)) == |ws|
  {
    if ws == [] {
      SumSetZero(spaces, CountTerm(ws));
    } else {
      var front, last := ws[..|ws| - 1], ws[|ws| - 1];
      assert forall w :: w in front ==> w in ws;
      assert last in ws;
      CountsPartition(front, spaces);
      SumSetBump(spaces, CountTerm(front), CountTerm(ws), last.namespaceUid, 1);
    }
  }

  ghost function ValidCountTerm(rec: Recommendation, compose: Composer): string -> nat
  {
    (ns: string) => if CompositeId(rec, compose).Some? then CountIn(rec, ns) else 0
  }

  lemma {:induction false} HitsPartition(recs: seq<Recommendation>, compose: Composer, spaces: set<string>, rules: set<string>)
    requires Namespaces(AllWorkloads(recs)) <= spaces
    requires Ids(recs, compose) <= rules
    ensures SumSet(spaces, NamespaceTerm(recs, compose, rules)) == ValidWorkloads(recs, compose)
  {
    if recs == [] {
      forall ns ensures NamespaceTerm(recs, compose, rules)(ns) == 0 {
        SumSetZero(rules, RuleTerm(recs, compose, ns));
      }
      SumSetZero(spaces, NamespaceTerm(recs, compose, rules));
    } else {
      var front, last := recs[..|recs| - 1], recs[|recs| - 1];
      FrontParts(recs, compose);
      HitsPartition(front, compose, spaces, rules);
      LastPartition(last, compose, spaces);
      LastHitsSum(recs, compose, spaces, rules);
    }
  }

  lemma LastHitsSum(recs: seq<Recommendation>, compose: Composer, spaces: set<string>, rules: set<string>)
    requires recs != [] && Ids(recs, compose) <= rules
    ensures SumSet(spaces, NamespaceTerm(recs, compose, rules)) ==
            SumSet(spaces, NamespaceTerm(recs[..|recs| - 1], compose, rules))
            + SumSet(spaces, ValidCountTerm(recs[|recs| - 1], compose))
  {
    var f := NamespaceTerm(recs[..|recs| - 1], compose, rules);
    var g := ValidCountTerm(recs[|recs| - 1], compose);
    forall ns | ns in spaces ensures NamespaceTerm(recs, compose, rules)(ns) == Plus(f, g)(ns) {
      LastHits(recs, compose, ns, rules);
    }
    SumSetSame(spaces, Plus(f, g), NamespaceTerm(recs, compose, rules));
    SumSetPlus(spaces, f, g);
  }

  lemma FrontParts(recs: seq<Recommendation>, compose: Composer)
    requires recs != []
    ensures var front, last := recs[..|recs| - 1], recs[|recs| - 1];
            && Namespaces(AllWorkloads(front)) <= Namespaces(AllWorkloads(recs))
            && Namespaces(last.workloads) <= Namespaces(AllWorkloads(recs))
            && Ids(front, compose) <= Ids(recs, compose)
  {
    var front, last := recs[..|recs| - 1], recs[|recs| - 1];
    var ws := AllWorkloads(recs);
    assert ws == AllWorkloads(front) + last.workloads;
    assert forall w :: w in AllWorkloads(front) ==> w in ws;
    assert forall w :: w in last.workloads ==> w in ws;
    assert forall rec :: rec in front ==> rec in recs;
  }

  lemma LastPartition(last: Recommendation, compose: Composer, spaces: set<string>)
    requires Namespaces(last.workloads) <= spaces
    ensures SumSet(spaces, ValidCountTerm(last, compose)) == ValidTerm(compose)(last)
  {
    if CompositeId(last, compose).Some? {
      CountsPartition(last.workloads, spaces);
      SumSetSame(spaces, CountTerm(last.workloads), ValidCountTerm(last, compose));
    } else {
      SumSetZero(spaces, ValidCountTerm(last, compose));
    }
  }

  lemma LastHits(recs: seq<Recommendation>, compose: Composer, ns: string, rules: set<string>)
    requires recs != [] && Ids(recs, compose) <= rules
    ensures SumSet(rules, RuleTerm(recs, compose, ns)) ==
            SumSet(rules, RuleTerm(recs[..|recs| - 1], compose, ns)) + ValidCountTerm(recs[|recs| - 1], compose)(ns)
  {
    var front, last := recs[..|recs| - 1], recs[|recs| - 1];
    match CompositeId(last, compose)
    case None =>
      SumSetSame(rules, RuleTerm(front, compose, ns), RuleTerm(recs, compose, ns));
    case Some(id) =>
      assert last in recs;
      SumSetBump(rules, RuleTerm(front, compose, ns), RuleTerm(recs, compose, ns), id, CountIn(last, ns));
  }

  lemma {:induction false} HitsHaveIds(recs: seq<Recommendation>, compose: Composer, ns: string, rule: string)
    requires HitCount(recs, compose, ns, rule) > 0
    ensures rule in Ids(recs, compose)
  {
    var front, last := recs[..|recs| - 1], recs[|recs| - 1];
    if CompositeId(last, compose) == Some(rule) {
      assert last in recs;
    } else {
      HitsHaveIds(front, compose, ns, rule);
      assert forall rec :: rec in front ==> rec in recs;
    }
  }

  /** The hit counts of a summary add up to the workload entries of valid recommendations. */
  lemma HitsAreConserved(agg: Aggregates, recs: seq<Recommendation>, compose: Composer)
    requires Summarises(agg, recs, compose)
    ensures TotalHits(agg.hits) == ValidWorkloads(recs, compose)
  {
    var rules := Ids(recs, compose);
    forall ns | ns in agg.hits ensures NamespaceTotal(agg.hits)(ns) == NamespaceTerm(recs, compose, rules)(ns) {
      NamespaceConserved(agg.hits, recs, compose, ns);
    }
    SumSetSame(agg.hits.Keys, NamespaceTotal(agg.hits), NamespaceTerm(recs, compose, rules));
    HitsPartition(recs, compose, agg.hits.Keys, rules);
  }

  lemma NamespaceConserved(hits: map<string, map<string, nat>>, recs: seq<Recommendation>, compose: Composer, ns: string)
    requires ns in hits && NoZeroEntry(hits[ns]) && CountsHits(hits, recs, compose)
    ensures SumSet(hits[ns].Keys, ValueAt(hits[ns])) == SumSet(Ids(recs, compose), RuleTerm(recs, compose, ns))
  {
    var rules, stored := Ids(recs, compose), hits[ns];
    forall rule ensures ValueAt(stored)(rule) == HitCount(recs, compose, ns, rule) {
      assert Stored(hits, ns, rule) == HitCount(recs, compose, ns, rule);
    }
    forall rule | rule in stored ensures rule in rules {
      assert stored[rule] > 0;
      HitsHaveIds(recs, compose, ns, rule);
    }
    SumSetSupport(stored.Keys, rules, ValueAt(stored));
    SumSetSame(rules, ValueAt(stored), RuleTerm(recs, compose, ns));
  }
}
