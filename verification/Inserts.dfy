/**
 The builders of the multi-row INSERT statements. Placeholders and arguments
 are computed separately; `Bind` evaluates one against the other.
 */
module Inserts {
  import opened Options
  import opened Timeline
  import opened Schema
  import Text

  datatype Hit = Hit(rule: Rule, templateData: string)

  datatype Value = OrgValue(org: OrgId) | TextValue(text: string) | TimeValue(time: Time)

  /** The VALUES list of a statement: one list of $n placeholders per row. */
  type Placeholders = seq<seq<nat>>

  const REPORT_SUFFIX := ".report"

  function Flatten(p: Placeholders): seq<nat>
  {
    if p == [] then [] else Flatten(p[..|p| - 1]) + p[|p| - 1]
  }

  /** $1 .. $n. */
  function Enumeration(n: nat): seq<nat>
  {
    seq(n, (i: nat) => i + 1)
  }

  /** Row i of a statement of `width` columns. */
  function RowPlaceholders(i: nat, width: nat): seq<nat>
  {
    seq(width, (j: nat) => width * i + j + 1)
  }

  /** The placeholders are $1 .. $(width * rows), each once and in order. */
  predicate Enumerates(p: Placeholders, width: nat)
  {
    forall i :: 0 <= i < |p| ==> p[i] == RowPlaceholders(i, width)
  }

  lemma {:induction false} EnumeratesInOrder(p: Placeholders, width: nat)
    requires Enumerates(p, width)
    ensures Flatten(p) == Enumeration(width * |p|)
  {
    if p != [] {
      var n := |p| - 1;
      EnumeratesInOrder(p[..n], width);
      assert width * |p| == width * n + width;
      assert Flatten(p) == Enumeration(width * n) + RowPlaceholders(n, width);
    }
  }

  /** The statement uses every argument exactly once, in order, and nothing else. */
  predicate Binds(p: Placeholders, args: seq<Value>)
  {
    Flatten(p) == Enumeration(|args|)
  }

  predicate InRange(p: Placeholders, args: seq<Value>)
  {
    forall i, j :: 0 <= i < |p| && 0 <= j < |p[i]| ==> 1 <= p[i][j] <= |args|
  }

  /** The values of one VALUES row. */
  function BindRow(row: seq<nat>, args: seq<Value>): (values: seq<Value>)
    requires forall j :: 0 <= j < |row| ==> 1 <= row[j] <= |args|
    ensures |values| == |row|
    ensures forall j :: 0 <= j < |row| ==> values[j] == args[row[j] - 1]
  {
    seq(|row|, (j: nat) requires j < |row| => args[row[j] - 1])
  }

  /** Executes the VALUES list: the rows of values it inserts. */
  function Bind(p: Placeholders, args: seq<Value>): (rows: seq<seq<Value>>)
    requires InRange(p, args)
    ensures |rows| == |p|
    ensures forall i :: 0 <= i < |p| ==> rows[i] == BindRow(p[i], args)
  {
    seq(|p|, (i: nat) requires i < |p| => BindRow(p[i], args))
  }

  /** `values` are the arguments from position `at` on. */
  predicate ValuesAt(args: seq<Value>, at: nat, values: seq<Value>)
  {
    at + |values| <= |args| && forall j :: 0 <= j < |values| ==> args[at + j] == values[j]
  }

  /** An enumerating statement binds, row by row, consecutive runs of the arguments. */
  lemma EnumerationBinds(p: Placeholders, width: nat, args: seq<Value>)
    requires Enumerates(p, width) && |args| == width * |p|
    ensures Binds(p, args) && InRange(p, args)
    ensures forall i, values :: 0 <= i < |p| && |values| == width && ValuesAt(args, width * i, values) ==>
              Bind(p, args)[i] == values
  {
    EnumeratesInOrder(p, width);
    forall i, j | 0 <= i < |p| && 0 <= j < |p[i]| ensures 1 <= p[i][j] <= |args| {
      RowInRange(i, width, |p|);
      assert p[i] == RowPlaceholders(i, width);
    }
    forall i, values | 0 <= i < |p| && |values| == width && ValuesAt(args, width * i, values)
      ensures Bind(p, args)[i] == values {
      RowBinds(p, width, args, i, values);
    }
  }

  lemma RowBinds(p: Placeholders, width: nat, args: seq<Value>, i: nat, values: seq<Value>)
    requires Enumerates(p, width) && InRange(p, args)
    requires i < |p| && |values| == width && ValuesAt(args, width * i, values)
    ensures Bind(p, args)[i] == values
  {
    var row := BindRow(p[i], args);
    assert p[i] == RowPlaceholders(i, width);
    forall j | 0 <= j < width ensures row[j] == values[j] {
      assert p[i][j] == width * i + j + 1;
    }
  }

  lemma {:induction false} RowInRange(i: nat, width: nat, n: nat)
    requires i < n
    ensures width * i + width <= width * n
  {
    assert width * n == width * (n - 1) + width;
    if i + 1 < n {
      RowInRange(i, width, n - 1);
    }
  }

  /** Values written earlier stay when only later positions change. */
  lemma ValuesKept(before: seq<Value>, after: seq<Value>, n: nat, at: nat, values: seq<Value>)
    requires n <= |before| && n <= |after| && before[..n] == after[..n]
    requires ValuesAt(before, at, values) && at + |values| <= n
    ensures ValuesAt(after, at, values)
  {
    forall j | 0 <= j < |values| ensures after[at + j] == values[j] {
      assert after[..n][at + j] == before[..n][at + j];
    }
  }

  /** The argument array starts with `rows`, one after the other. */
  predicate RowsPlaced(args: seq<Value>, width: nat, rows: seq<seq<Value>>)
  {
    forall i :: 0 <= i < |rows| ==> ValuesAt(args, width * i, rows[i])
  }

  /** Writing the n-th row behind the ones already placed. */
  lemma RowPlaced(before: seq<Value>, after: seq<Value>, width: nat, rows: seq<seq<Value>>, n: nat)
    requires n < |rows| && forall i :: 0 <= i < |rows| ==> |rows[i]| == width
    requires width * n <= |before| && width * n <= |after| && before[..width * n] == after[..width * n]
    requires RowsPlaced(before, width, rows[..n]) && ValuesAt(after, width * n, rows[n])
    ensures RowsPlaced(after, width, rows[..n + 1])
  {
    forall i | 0 <= i < n ensures ValuesAt(after, width * i, rows[i]) {
      RowInRange(i, width, n);
      assert rows[..n][i] == rows[i];
      ValuesKept(before, after, width * n, width * i, rows[i]);
    }
  }

  // ---------------------------------------------------------------------------
  // rule_hit
  // ---------------------------------------------------------------------------

  /** The concatenation, without separator, under which earlier timestamps are looked up. */
  function LookupKey(rule: Rule): string
  {
    rule.fqdn + rule.key
  }

  /** The earlier time if there is one, otherwise the current time in whole seconds. */
  function SinceOrNow(rule: Rule, earlier: map<string, Time>, now: Time): Time
  {
    if LookupKey(rule) in earlier then earlier[LookupKey(rule)] else ToSecond(now)
  }

  function HitValues(org: OrgId, c: Cluster, hit: Hit, time: Time): (values: seq<Value>)
    ensures |values| == 6
  {
    [OrgValue(org), TextValue(c), TextValue(hit.rule.fqdn), TextValue(hit.rule.key),
     TextValue(hit.templateData), TimeValue(time)]
  }

  /** GetRuleHitInsertStatement. */
  method GetRuleHitInsertStatement(hits: seq<Hit>) returns (p: Placeholders)
    ensures |p| == |hits| && Enumerates(p, 6)
  {
    var placeholders := new seq<nat>[|hits|](_ => []);
    for index := 0 to |hits|
      invariant forall i :: 0 <= i < index ==> placeholders[i] == RowPlaceholders(i, 6)
    {
      placeholders[index] :=
        [index * 6 + 1, index * 6 + 2, index * 6 + 3, index * 6 + 4, index * 6 + 5, index * 6 + 6];
    }
    return placeholders[..];
  }

  /** What the columns of each rule's row should be bound to. */
  ghost function HitArguments(org: OrgId, c: Cluster, hits: seq<Hit>, earlier: map<string, Time>, clock: nat -> Time)
    : (rows: seq<seq<Value>>)
    ensures |rows| == |hits| && forall i :: 0 <= i < |rows| ==> |rows[i]| == 6
  {
    seq(|hits|, (i: nat) requires i < |hits| => HitValues(org, c, hits[i], HitTime(hits, earlier, clock, i)))
  }

  /** When rule i was first hit: the earlier time, or the wall clock as it is visited. */
  function HitTime(hits: seq<Hit>, earlier: map<string, Time>, clock: nat -> Time, i: nat): Time
    requires i < |hits|
  {
    SinceOrNow(hits[i].rule, earlier, clock(i))
  }

  /** valuesForRuleHitsInsert; `clock(i)` is the wall clock when rule i is visited. */
  method ValuesForRuleHitsInsert(org: OrgId, c: Cluster, hits: seq<Hit>, earlier: map<string, Time>, clock: nat -> Time)
    returns (args: seq<Value>)
    ensures |args| == 6 * |hits|
    ensures RowsPlaced(args, 6, HitArguments(org, c, hits, earlier, clock))
    ensures forall i :: 0 <= i < |hits| ==> BindsHit(args, 6 * i, org, c, hits[i], HitTime(hits, earlier, clock, i))
  {
    ghost var rows := HitArguments(org, c, hits, earlier, clock);
    var values := new Value[|hits| * 6](_ => TimeValue(0));
    for index := 0 to |hits|
      invariant RowsPlaced(values[..], 6, rows[..index])
    {
      ghost var before := values[..];
      var rule := hits[index].rule;
      var ruleKey := rule.fqdn + rule.key;
      var impactedSince;
      if ruleKey in earlier {
        impactedSince := earlier[ruleKey];
      } else {
        impactedSince := ToSecond(clock(index));
      }
      values[6 * index] := OrgValue(org);
      values[6 * index + 1] := TextValue(c);
      values[6 * index + 2] := TextValue(rule.fqdn);
      values[6 * index + 3] := TextValue(rule.key);
      values[6 * index + 4] := TextValue(hits[index].templateData);
      values[6 * index + 5] := TimeValue(impactedSince);
      ghost var after := values[..];
      assert before[..6 * index] == after[..6 * index];
      assert impactedSince == HitTime(hits, earlier, clock, index);
      RowPlaced(before, after, 6, rows, index);
    }
    assert rows[..|hits|] == rows;
    args := values[..];
    HitsBound(args, org, c, hits, earlier, clock);
  }

  /** The arguments from `at` on are the columns org_id, cluster_id, rule_fqdn, error_key, template_data, created_at. */
  predicate BindsHit(args: seq<Value>, at: nat, org: OrgId, c: Cluster, hit: Hit, time: Time)
  {
    && at + 6 <= |args|
    && args[at] == OrgValue(org) && args[at + 1] == TextValue(c)
    && args[at + 2] == TextValue(hit.rule.fqdn) && args[at + 3] == TextValue(hit.rule.key)
    && args[at + 4] == TextValue(hit.templateData) && args[at + 5] == TimeValue(time)
  }

  lemma HitsBound(args: seq<Value>, org: OrgId, c: Cluster, hits: seq<Hit>, earlier: map<string, Time>, clock: nat -> Time)
    requires RowsPlaced(args, 6, HitArguments(org, c, hits, earlier, clock))
    ensures forall i :: 0 <= i < |hits| ==> BindsHit(args, 6 * i, org, c, hits[i], HitTime(hits, earlier, clock, i))
  {
    var rows := HitArguments(org, c, hits, earlier, clock);
    forall i | 0 <= i < |hits| ensures BindsHit(args, 6 * i, org, c, hits[i], HitTime(hits, earlier, clock, i)) {
      assert ValuesAt(args, 6 * i, rows[i]);
      HitBound(args, 6 * i, org, c, hits[i], HitTime(hits, earlier, clock, i));
    }
  }

  lemma HitBound(args: seq<Value>, at: nat, org: OrgId, c: Cluster, hit: Hit, time: Time)
    requires ValuesAt(args, at, HitValues(org, c, hit, time))
    ensures BindsHit(args, at, org, c, hit, time)
  {
    var v := HitValues(org, c, hit, time);
    assert args[at + 0] == v[0] && args[at + 1] == v[1] && args[at + 2] == v[2]
           && args[at + 3] == v[3] && args[at + 4] == v[4] && args[at + 5] == v[5];
  }

  /** The row of rule_hit that a row of values denotes. */
  predicate IsHitValues(v: seq<Value>)
  {
    |v| == 6 && v[0].OrgValue? && v[1].TextValue? && v[2].TextValue? && v[3].TextValue? && v[4].TextValue? && v[5].TimeValue?
  }

  function DecodeHit(v: seq<Value>): (Key<Rule>, HitRow)
    requires IsHitValues(v)
  {
    (Key(v[0].org, v[1].text, Rule(v[2].text, v[3].text)), HitRow(v[4].text, Some(v[5].time)))
  }

  /** One row per rule, every column from that rule. */
  function HitRows(org: OrgId, c: Cluster, hits: seq<Hit>, earlier: map<string, Time>, clock: nat -> Time)
    : seq<(Key<Rule>, HitRow)>
  {
    seq(|hits|, (i: nat) requires i < |hits| =>
      (Key(org, c, hits[i].rule), HitRow(hits[i].templateData, Some(HitTime(hits, earlier, clock, i)))))
  }

  /** The built statement, evaluated against the built arguments, inserts exactly one row per rule. */
  method BuildHitRows(org: OrgId, c: Cluster, hits: seq<Hit>, earlier: map<string, Time>, clock: nat -> Time)
    returns (rows: seq<(Key<Rule>, HitRow)>)
    ensures rows == HitRows(org, c, hits, earlier, clock)
  {
    var p := GetRuleHitInsertStatement(hits);
    var args := ValuesForRuleHitsInsert(org, c, hits, earlier, clock);
    EnumerationBinds(p, 6, args);
    var bound := Bind(p, args);
    forall i | 0 <= i < |hits|
      ensures bound[i] == HitValues(org, c, hits[i], SinceOrNow(hits[i].rule, earlier, clock(i))) {
      assert ValuesAt(args, 6 * i, HitArguments(org, c, hits, earlier, clock)[i]);
    }
    rows := seq(|bound|, (i: nat) requires i < |bound| => DecodeHit(bound[i]));
  }

  // ---------------------------------------------------------------------------
  // recommendation
  // ---------------------------------------------------------------------------

  /** The rule as the recommendation table names it: without the ".report" suffix. */
  function Stripped(rule: Rule): Rule
  {
    Rule(Text.TrimSuffix(rule.fqdn, REPORT_SUFFIX), rule.key)
  }

  function RuleIdOf(rule: Rule): string
  {
    rule.fqdn + "|" + rule.key
  }

  function RecommendationValues(org: OrgId, c: Cluster, rule: Rule, createdAt: Time, since: Time): seq<Value>
  {
    [OrgValue(org), TextValue(c), TextValue(rule.fqdn), TextValue(rule.key), TextValue(RuleIdOf(rule)),
     TimeValue(createdAt), TimeValue(since)]
  }

  /** What the columns of each recommendation's row should be bound to. */
  ghost function RecommendationArguments(
      org: OrgId, c: Cluster, hits: seq<Hit>, createdAt: Time, earlier: map<string, Time>)
    : (rows: seq<seq<Value>>)
    ensures |rows| == |hits| && forall i :: 0 <= i < |rows| ==> |rows[i]| == 7
  {
    seq(|hits|, (i: nat) requires i < |hits| =>
      RecommendationValues(org, c, Stripped(hits[i].rule), createdAt,
                           SinceOrNow(Stripped(hits[i].rule), earlier, createdAt)))
  }

  /** prepareInsertRecommendationsStatement. */
  method PrepareInsertRecommendationsStatement(
      org: OrgId, c: Cluster, hits: seq<Hit>, createdAt: Time, earlier: map<string, Time>)
    returns (selectors: seq<string>, p: Placeholders, args: seq<Value>)
    requires createdAt == ToSecond(createdAt)
    ensures |p| == |selectors| == |hits| && Enumerates(p, 7)
    ensures |args| == 7 * |hits|
    ensures forall i :: 0 <= i < |hits| ==> selectors[i] == RuleIdOf(Stripped(hits[i].rule))
    ensures RowsPlaced(args, 7, RecommendationArguments(org, c, hits, createdAt, earlier))
    ensures forall i :: 0 <= i < |hits| ==>
              BindsRecommendation(args, 7 * i, org, c, Stripped(hits[i].rule), createdAt,
                                  SinceOrNow(Stripped(hits[i].rule), earlier, createdAt))
  {
    ghost var rows := RecommendationArguments(org, c, hits, createdAt, earlier);
    var valuesIdx := new seq<nat>[|hits|](_ => []);
    var selectorsArray := new string[|hits|](_ => "");
    args := [];
    for idx := 0 to |hits|
      invariant |args| == 7 * idx
      invariant forall i :: 0 <= i < idx ==> valuesIdx[i] == RowPlaceholders(i, 7)
      invariant forall i :: 0 <= i < idx ==> selectorsArray[i] == RuleIdOf(Stripped(hits[i].rule))
      invariant RowsPlaced(args, 7, rows[..idx])
    {
      var ruleFqdn := Text.TrimSuffix(hits[idx].rule.fqdn, REPORT_SUFFIX);
      var errorKey := hits[idx].rule.key;
      var ruleId := ruleFqdn + "|" + errorKey;
      var impactedSince := createdAt;
      if ruleFqdn + errorKey in earlier {
        impactedSince := earlier[ruleFqdn + errorKey];
      }
      selectorsArray[idx] := ruleId;
      ghost var before := args;
      args := args + [OrgValue(org), TextValue(c), TextValue(ruleFqdn), TextValue(errorKey), TextValue(ruleId),
                      TimeValue(createdAt), TimeValue(impactedSince)];
      RowPlaced(before, args, 7, rows, idx);
      var n := |args|;
      valuesIdx[idx] := [n - 6, n - 5, n - 4, n - 3, n - 2, n - 1, n];
    }
    assert rows[..|hits|] == rows;
    RecommendationsBound(args, org, c, hits, createdAt, earlier);
    return selectorsArray[..], valuesIdx[..], args;
  }

  /** The arguments from `at` on are the columns org_id, cluster_id, rule_fqdn, error_key, rule_id, created_at,
      impacted_since. */
  predicate BindsRecommendation(args: seq<Value>, at: nat, org: OrgId, c: Cluster, rule: Rule, createdAt: Time, since: Time)
  {
    && at + 7 <= |args|
    && args[at] == OrgValue(org) && args[at + 1] == TextValue(c)
    && args[at + 2] == TextValue(rule.fqdn) && args[at + 3] == TextValue(rule.key)
    && args[at + 4] == TextValue(rule.fqdn + "|" + rule.key)
    && args[at + 5] == TimeValue(createdAt) && args[at + 6] == TimeValue(since)
  }

  lemma RecommendationsBound(args: seq<Value>, org: OrgId, c: Cluster, hits: seq<Hit>, createdAt: Time,
                             earlier: map<string, Time>)
    requires RowsPlaced(args, 7, RecommendationArguments(org, c, hits, createdAt, earlier))
    ensures forall i :: 0 <= i < |hits| ==>
              BindsRecommendation(args, 7 * i, org, c, Stripped(hits[i].rule), createdAt,
                                  SinceOrNow(Stripped(hits[i].rule), earlier, createdAt))
  {
    var rows := RecommendationArguments(org, c, hits, createdAt, earlier);
    forall i | 0 <= i < |hits|
      ensures BindsRecommendation(args, 7 * i, org, c, Stripped(hits[i].rule), createdAt,
                                  SinceOrNow(Stripped(hits[i].rule), earlier, createdAt)) {
      assert ValuesAt(args, 7 * i, rows[i]);
      RecommendationBound(args, 7 * i, org, c, Stripped(hits[i].rule), createdAt,
                          SinceOrNow(Stripped(hits[i].rule), earlier, createdAt));
    }
  }

  lemma RecommendationBound(args: seq<Value>, at: nat, org: OrgId, c: Cluster, rule: Rule, createdAt: Time, since: Time)
    requires ValuesAt(args, at, RecommendationValues(org, c, rule, createdAt, since))
    ensures BindsRecommendation(args, at, org, c, rule, createdAt, since)
  {
    var v := RecommendationValues(org, c, rule, createdAt, since);
    assert args[at + 0] == v[0] && args[at + 1] == v[1] && args[at + 2] == v[2] && args[at + 3] == v[3]
           && args[at + 4] == v[4] && args[at + 5] == v[5] && args[at + 6] == v[6];
  }

  predicate IsRecommendationValues(v: seq<Value>)
  {
    && |v| == 7 && v[0].OrgValue? && v[1].TextValue? && v[2].TextValue? && v[3].TextValue? && v[4].TextValue?
    && v[5].TimeValue? && v[6].TimeValue?
  }

  function DecodeRecommendation(v: seq<Value>): (Key<Rule>, RecommendationRow)
    requires IsRecommendationValues(v)
  {
    (Key(v[0].org, v[1].text, Rule(v[2].text, v[3].text)), RecommendationRow(v[4].text, Some(v[5].time), Some(v[6].time)))
  }

  /** One row per rule hit: the stripped rule, its rule ID and its impacted_since. */
  function RecommendationRows(org: OrgId, c: Cluster, hits: seq<Hit>, createdAt: Time, earlier: map<string, Time>)
    : seq<(Key<Rule>, RecommendationRow)>
  {
    seq(|hits|, (i: nat) requires i < |hits| =>
      var rule := Stripped(hits[i].rule);
      (Key(org, c, rule),
       RecommendationRow(RuleIdOf(rule), Some(createdAt), Some(SinceOrNow(rule, earlier, createdAt)))))
  }

  /** The built statement, evaluated against the built arguments, inserts exactly one row per hit. */
  method BuildRecommendationRows(org: OrgId, c: Cluster, hits: seq<Hit>, createdAt: Time, earlier: map<string, Time>)
    returns (rows: seq<(Key<Rule>, RecommendationRow)>)
    requires createdAt == ToSecond(createdAt)
    ensures rows == RecommendationRows(org, c, hits, createdAt, earlier)
  {
    var _, p, args := PrepareInsertRecommendationsStatement(org, c, hits, createdAt, earlier);
    EnumerationBinds(p, 7, args);
    var bound := Bind(p, args);
    forall i | 0 <= i < |hits|
      ensures bound[i] == RecommendationValues(org, c, Stripped(hits[i].rule), createdAt,
                            SinceOrNow(Stripped(hits[i].rule), earlier, createdAt)) {
      assert ValuesAt(args, 7 * i, RecommendationArguments(org, c, hits, createdAt, earlier)[i]);
    }
    rows := seq(|bound|, (i: nat) requires i < |bound| => DecodeRecommendation(bound[i]));
  }
}
