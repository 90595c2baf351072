/**
 Rule selectors "rule|KEY", ratings looked up by selector, and the CSV of rule
 hits: printers and their parsers.
 */
module Selectors {
  import opened Options
  import opened Schema
  import opened Inserts
  import Text

  // ---------------------------------------------------------------------------
  // The selector parser
  // ---------------------------------------------------------------------------

  datatype ParseResult = Parsed(rule: Rule) | WrongShape | WrongCharacters

  predicate AllowedChar(c: char)
  {
    'a' <= c <= 'z' || 'A' <= c <= 'Z' || '0' <= c <= '9' || c == '_' || c == '.'
  }

  /** The validator ^[a-zA-Z_0-9.]+$. */
  predicate Allowed(s: string)
  {
    s != "" && forall i :: 0 <= i < |s| ==> AllowedChar(s[i])
  }

  /** getRuleAndErrorKeyFromRuleID. */
  function ParseSelector(s: string): ParseResult
  {
    var parts := Text.Split(s, '|');
    if |parts| != 2 then WrongShape
    else if !Allowed(parts[0]) || !Allowed(parts[1]) then WrongCharacters
    else Parsed(Rule(parts[0], parts[1]))
  }

  const LOWER := "abcdefghijklmnopqrstuvwxyz"
  const UPPER := "ABCDEFGHIJKLMNOPQRSTUVWXYZ"
  const DIGITS := "0123456789"

  /** A non-empty text over letters, digits, underscore and dot. */
  predicate IsWord(s: string)
  {
    s != "" && forall i :: 0 <= i < |s| ==> s[i] in LOWER || s[i] in UPPER || s[i] in DIGITS || s[i] == '_' || s[i] == '.'
  }

  lemma LowerCase(c: char)
    ensures c in LOWER <==> 'a' <= c <= 'z'
  {
    if 'a' <= c <= 'z' {
      assert LOWER[c as int - 'a' as int] == c;
    }
  }

  lemma UpperCase(c: char)
    ensures c in UPPER <==> 'A' <= c <= 'Z'
  {
    if 'A' <= c <= 'Z' {
      assert UPPER[c as int - 'A' as int] == c;
    }
  }

  lemma Numeric(c: char)
    ensures c in DIGITS <==> '0' <= c <= '9'
  {
    if '0' <= c <= '9' {
      assert DIGITS[c as int - '0' as int] == c;
    }
  }

  lemma AllowedMeaning(s: string)
    ensures Allowed(s) <==> IsWord(s)
  {
    forall i | 0 <= i < |s|
      ensures AllowedChar(s[i]) <==> s[i] in LOWER || s[i] in UPPER || s[i] in DIGITS || s[i] == '_' || s[i] == '.' {
      LowerCase(s[i]);
      UpperCase(s[i]);
      Numeric(s[i]);
    }
  }

  predicate AllowedRule(rule: Rule)
  {
    Allowed(rule.fqdn) && Allowed(rule.key)
  }

  lemma SplitSelector(rule: Rule)
    requires '|' !in rule.fqdn && '|' !in rule.key
    ensures Text.Split(RuleIdOf(rule), '|') == [rule.fqdn, rule.key]
  {
    var parts := [rule.fqdn, rule.key];
    assert Text.Join(parts, '|') == rule.fqdn + ['|'] + Text.Join(parts[1..], '|');
    assert RuleIdOf(rule) == Text.Join(parts, '|');
    Text.SplitJoin(parts, '|');
  }

  lemma TwoParts(s: string)
    requires |Text.Split(s, '|')| == 2
    ensures s == RuleIdOf(Rule(Text.Split(s, '|')[0], Text.Split(s, '|')[1]))
  {
    var parts := Text.Split(s, '|');
    assert parts == [parts[0], parts[1]];
    assert Text.Join(parts, '|') == parts[0] + ['|'] + Text.Join(parts[1..], '|');
  }

  /** Parsing succeeds exactly on printed selectors of allowed parts, and inverts printing. */
  lemma ParseInvertsPrint(s: string, rule: Rule)
    ensures ParseSelector(s) == Parsed(rule) <==> IsWord(rule.fqdn) && IsWord(rule.key) && s == rule.fqdn + "|" + rule.key
  {
    AllowedMeaning(rule.fqdn);
    AllowedMeaning(rule.key);
    if AllowedRule(rule) && s == RuleIdOf(rule) {
      forall c | c in rule.fqdn || c in rule.key ensures c != '|' {
        assert AllowedChar(c);
      }
      SplitSelector(rule);
    }
    if ParseSelector(s) == Parsed(rule) {
      TwoParts(s);
    }
  }

  /** The two refusals: not exactly one '|', or one '|' with a part outside the alphabet. */
  lemma ParseRefuses(s: string)
    ensures ParseSelector(s) == WrongCharacters <==>
            exists rule: Rule :: '|' !in rule.fqdn && '|' !in rule.key && s == rule.fqdn + "|" + rule.key
                                 && !(IsWord(rule.fqdn) && IsWord(rule.key))
    ensures ParseSelector(s) == WrongShape <==>
            forall rule: Rule :: '|' !in rule.fqdn && '|' !in rule.key ==> s != rule.fqdn + "|" + rule.key
  {
    forall rule: Rule ensures AllowedRule(rule) <==> IsWord(rule.fqdn) && IsWord(rule.key) {
      AllowedMeaning(rule.fqdn);
      AllowedMeaning(rule.key);
    }
    forall rule: Rule | '|' !in rule.fqdn && '|' !in rule.key && s == RuleIdOf(rule)
      ensures Text.Split(s, '|') == [rule.fqdn, rule.key] {
      SplitSelector(rule);
    }
    var parts := Text.Split(s, '|');
    if |parts| == 2 {
      TwoParts(s);
      assert '|' !in Rule(parts[0], parts[1]).fqdn && '|' !in Rule(parts[0], parts[1]).key;
    }
  }

  /** Selectors of rules whose modules contain no '|' identify the rule. */
  lemma SelectorInjective(p: Rule, q: Rule)
    requires '|' !in p.fqdn && '|' !in q.fqdn && RuleIdOf(p) == RuleIdOf(q)
    ensures p == q
  {
    var s := RuleIdOf(p);
    assert s == p.fqdn + ("|" + p.key) == q.fqdn + ("|" + q.key);
    Text.IndexOfAfterPrefix(p.fqdn, "|" + p.key, '|');
    Text.IndexOfAfterPrefix(q.fqdn, "|" + q.key, '|');
    assert s[..|p.fqdn|] == p.fqdn && s[..|q.fqdn|] == q.fqdn;
    assert s[|p.fqdn| + 1..] == p.key && s[|q.fqdn| + 1..] == q.key;
  }

  // ---------------------------------------------------------------------------
  // Ratings
  // ---------------------------------------------------------------------------

  datatype RatingKey = RatingKey(org: OrgId, rule: Rule)
  datatype RatingRow = RatingRow(ruleId: string, rating: int, ratedAt: int, lastUpdatedAt: int)
  datatype Submission = Submission(org: OrgId, rule: Rule, rating: int, at: int)

  type Ratings = map<RatingKey, RatingRow>

  /** The upsert: a conflict on (org_id, rule_fqdn, error_key) changes the rating and last_updated_at only. */
  function Rated(t: Ratings, s: Submission): Ratings
  {
    var k := RatingKey(s.org, s.rule);
    if k in t then t[k := t[k].(lastUpdatedAt := s.at, rating := s.rating)]
    else t[k := RatingRow(RuleIdOf(s.rule), s.rating, s.at, s.at)]
  }

  class RatingStorage {
    var ratings: Ratings
    ghost var history: seq<Submission>

    /** The table is what the stored submissions made of it. */
    ghost predicate Valid()
      reads this
    {
      ratings == AfterHistory(history)
    }

    constructor ()
      ensures Valid() && history == [] && ratings == map[]
    {
      ratings, history := map[], [];
    }

    /** RateOnRule. */
    method RateOnRule(s: Submission, fails: bool) returns (ok: bool)
      requires Valid()
      modifies this
      ensures Valid() && ok == !fails
      ensures history == if ok then old(history) + [s] else old(history)
      ensures ok ==>
                var k := RatingKey(s.org, s.rule);
                && ratings.Keys == old(ratings).Keys + {k}
                && (forall l :: l in ratings && l != k ==> ratings[l] == old(ratings)[l])
                && ratings[k].rating == s.rating && ratings[k].lastUpdatedAt == s.at
                && (if k in old(ratings)
                    then ratings[k].ratedAt == old(ratings)[k].ratedAt && ratings[k].ruleId == old(ratings)[k].ruleId
                    else ratings[k].ratedAt == s.at && ratings[k].ruleId == RuleIdOf(s.rule))
    {
      if fails {
        return false;
      }
      var ruleId := s.rule.fqdn + "|" + s.rule.key;
      var k := RatingKey(s.org, s.rule);
      if k in ratings {
        ratings := ratings[k := ratings[k].(lastUpdatedAt := s.at, rating := s.rating)];
      } else {
        ratings := ratings[k := RatingRow(ruleId, s.rating, s.at, s.at)];
      }
      assert (history + [s])[..|history|] == history;
      history := history + [s];
      ok := true;
    }

    /** GetRuleRating: some row of the organization with this rule_id. If only one rule rated by the organization
        prints as the selector, that is the last rating submitted under it. */
    method GetRuleRating(org: OrgId, selector: string) returns (r: Option<int>)
      requires Valid()
      ensures r.Some? ==> CanReturn(ratings, org, selector, r.value)
      ensures r.None? ==> forall k :: k in ratings && k.org == org ==> ratings[k].ruleId != selector
      ensures PrintsOneRule(history, org, selector) ==> r == LastRating(history, org, selector)
    {
      if PrintsOneRule(history, org, selector) {
        LookupReturnsLast(history, org, selector);
        var last := LastRating(history, org, selector);
        assert last.Some? ==> CanReturn(ratings, org, selector, last.value);
      }
      if k :| k in ratings && k.org == org && ratings[k].ruleId == selector {
        return Some(ratings[k].rating);
      }
      return None;
    }
  }

  /** The lookup can return this rating. */
  ghost predicate CanReturn(t: Ratings, org: OrgId, selector: string, rating: int)
  {
    exists k :: k in t && k.org == org && t[k].ruleId == selector && t[k].rating == rating
  }

  /** The table after a history of submissions. */
  function AfterHistory(h: seq<Submission>): Ratings
  {
    if h == [] then map[] else Rated(AfterHistory(h[..|h| - 1]), h[|h| - 1])
  }

  /** The organization's last submission for the rule. */
  function LastFor(h: seq<Submission>, org: OrgId, rule: Rule): Option<Submission>
  {
    if h == [] then None
    else if h[|h| - 1].org == org && h[|h| - 1].rule == rule then Some(h[|h| - 1])
    else LastFor(h[..|h| - 1], org, rule)
  }

  /** When the organization first rated the rule. */
  function FirstAt(h: seq<Submission>, org: OrgId, rule: Rule): Option<int>
  {
    if h == [] then None
    else
      var before := FirstAt(h[..|h| - 1], org, rule);
      if before.None? && h[|h| - 1].org == org && h[|h| - 1].rule == rule then Some(h[|h| - 1].at) else before
  }

  /** The last rating submitted by the organization under the selector. */
  function LastRating(h: seq<Submission>, org: OrgId, selector: string): Option<int>
  {
    if h == [] then None
    else if Prints(h[|h| - 1], org, selector) then Some(h[|h| - 1].rating)
    else LastRating(h[..|h| - 1], org, selector)
  }

  predicate Prints(s: Submission, org: OrgId, selector: string)
  {
    s.org == org && RuleIdOf(s.rule) == selector
  }

  /** The organization rated at most one rule that prints as the selector. */
  ghost predicate PrintsOneRule(h: seq<Submission>, org: OrgId, selector: string)
  {
    forall i, j :: 0 <= i < |h| && 0 <= j < |h| && Prints(h[i], org, selector) && Prints(h[j], org, selector) ==>
                     h[i].rule == h[j].rule
  }

  /** After any history each rated rule has one row: rated first at its first submission, with the rating of its last. */
  lemma {:induction false} HistoryRows(h: seq<Submission>, org: OrgId, rule: Rule)
    ensures var k := RatingKey(org, rule);
            && (k in AfterHistory(h) <==> LastFor(h, org, rule).Some?)
            && (LastFor(h, org, rule).Some? <==> FirstAt(h, org, rule).Some?)
            && (k in AfterHistory(h) ==>
                  AfterHistory(h)[k] == RatingRow(RuleIdOf(rule), LastFor(h, org, rule).value.rating,
                                                  FirstAt(h, org, rule).value, LastFor(h, org, rule).value.at))
  {
    if h != [] {
      HistoryRows(h[..|h| - 1], org, rule);
    }
  }

  predicate IsFor(s: Submission, org: OrgId, rule: Rule)
  {
    s.org == org && s.rule == rule
  }

  lemma {:induction false} LastForMeaning(h: seq<Submission>, org: OrgId, rule: Rule)
    ensures LastFor(h, org, rule).None? ==> forall i :: 0 <= i < |h| ==> !IsFor(h[i], org, rule)
    ensures LastFor(h, org, rule).Some? ==> LastFor(h, org, rule).value in h && IsFor(LastFor(h, org, rule).value, org, rule)
  {
    if h != [] {
      var n := |h| - 1;
      assert h == h[..n] + [h[n]];
      LastForMeaning(h[..n], org, rule);
    }
  }

  /** Over any history, a lookup can return exactly the last ratings of the rules that print as the selector. */
  lemma LookupExactly(h: seq<Submission>, org: OrgId, selector: string, rating: int)
    ensures CanReturn(AfterHistory(h), org, selector, rating) <==>
            exists i :: 0 <= i < |h| && Prints(h[i], org, selector)
                        && LastFor(h, org, h[i].rule).Some? && LastFor(h, org, h[i].rule).value.rating == rating
  {
    var t := AfterHistory(h);
    if CanReturn(t, org, selector, rating) {
      var k :| k in t && k.org == org && t[k].ruleId == selector && t[k].rating == rating;
      HistoryRows(h, org, k.rule);
      LastForMeaning(h, org, k.rule);
      var i :| 0 <= i < |h| && h[i] == LastFor(h, org, k.rule).value;
      assert Prints(h[i], org, selector);
    }
    if i :| 0 <= i < |h| && Prints(h[i], org, selector)
            && LastFor(h, org, h[i].rule).Some? && LastFor(h, org, h[i].rule).value.rating == rating {
      HistoryRows(h, org, h[i].rule);
      assert RatingKey(org, h[i].rule) in t;
    }
  }

  /** The last rating under a selector is that of some rule printing as it, of the only one if there is only one. */
  lemma {:induction false} LastOfOneRule(h: seq<Submission>, org: OrgId, selector: string, i: nat)
    requires i < |h| && Prints(h[i], org, selector) && PrintsOneRule(h, org, selector)
    ensures LastFor(h, org, h[i].rule).Some?
    ensures LastRating(h, org, selector) == Some(LastFor(h, org, h[i].rule).value.rating)
  {
    var n := |h| - 1;
    if !Prints(h[n], org, selector) {
      assert h[..n][i] == h[i];
      assert forall j :: 0 <= j < n ==> h[..n][j] == h[j];
      LastOfOneRule(h[..n], org, selector, i);
    }
  }

  lemma {:induction false} NothingPrinted(h: seq<Submission>, org: OrgId, selector: string)
    ensures LastRating(h, org, selector).None? <==> forall i :: 0 <= i < |h| ==> !Prints(h[i], org, selector)
  {
    if h != [] {
      var n := |h| - 1;
      NothingPrinted(h[..n], org, selector);
      assert forall j :: 0 <= j < n ==> h[..n][j] == h[j];
    }
  }

  /** If only one rated rule prints as the selector, a lookup returns exactly the last rating submitted under it, or
      nothing if there was none. */
  lemma LookupReturnsLast(h: seq<Submission>, org: OrgId, selector: string)
    requires PrintsOneRule(h, org, selector)
    ensures forall rating :: CanReturn(AfterHistory(h), org, selector, rating) <==> LastRating(h, org, selector) == Some(rating)
  {
    NothingPrinted(h, org, selector);
    forall rating ensures CanReturn(AfterHistory(h), org, selector, rating) <==> LastRating(h, org, selector) == Some(rating) {
      LookupExactly(h, org, selector, rating);
      forall i | 0 <= i < |h| && Prints(h[i], org, selector)
        ensures LastFor(h, org, h[i].rule).Some?
                && LastRating(h, org, selector) == Some(LastFor(h, org, h[i].rule).value.rating) {
        LastOfOneRule(h, org, selector, i);
      }
    }
  }

  /** Rules that came through the selector parser never print alike, so the lookup is exact for them. */
  lemma ParsedPrintOneRule(h: seq<Submission>, org: OrgId, selector: string)
    requires forall i :: 0 <= i < |h| ==> exists s :: ParseSelector(s) == Parsed(h[i].rule)
    ensures PrintsOneRule(h, org, selector)
  {
    forall i | 0 <= i < |h| ensures '|' !in h[i].rule.fqdn {
      var s :| ParseSelector(s) == Parsed(h[i].rule);
      ParseInvertsPrint(s, h[i].rule);
      AllowedMeaning(h[i].rule.fqdn);
      assert forall c :: c in h[i].rule.fqdn ==> AllowedChar(c);
    }
    forall i, j | 0 <= i < |h| && 0 <= j < |h| && Prints(h[i], org, selector) && Prints(h[j], org, selector)
      ensures h[i].rule == h[j].rule {
      SelectorInjective(h[i].rule, h[j].rule);
    }
  }

  /** Over any history, a lookup can return something else than the last rating under the selector iff a rule that prints
      as it was last rated differently. */
  lemma AmbiguousSelectors(h: seq<Submission>, org: OrgId, selector: string)
    ensures (exists rating :: CanReturn(AfterHistory(h), org, selector, rating)
                              && LastRating(h, org, selector) != Some(rating)) <==>
            exists i :: 0 <= i < |h| && Prints(h[i], org, selector) && LastFor(h, org, h[i].rule).Some?
                        && LastRating(h, org, selector) != Some(LastFor(h, org, h[i].rule).value.rating)
  {
    if rating :| CanReturn(AfterHistory(h), org, selector, rating) && LastRating(h, org, selector) != Some(rating) {
      LookupExactly(h, org, selector, rating);
    }
    if i :| 0 <= i < |h| && Prints(h[i], org, selector) && LastFor(h, org, h[i].rule).Some?
            && LastRating(h, org, selector) != Some(LastFor(h, org, h[i].rule).value.rating) {
      LookupExactly(h, org, selector, LastFor(h, org, h[i].rule).value.rating);
    }
  }

  // ---------------------------------------------------------------------------
  // The CSV of rule hits
  // ---------------------------------------------------------------------------

  function CsvFields(hits: seq<Hit>): (fields: seq<string>)
    ensures |fields| == |hits|
    ensures forall i :: 0 <= i < |hits| ==> fields[i] == RuleIdOf(Stripped(hits[i].rule))
  {
    seq(|hits|, (i: nat) requires i < |hits| => RuleIdOf(Stripped(hits[i].rule)))
  }

  /** getRuleHitsCSV. */
  method GetRuleHitsCsv(hits: seq<Hit>) returns (output: string)
    ensures output == Text.Join(CsvFields(hits), ',')
  {
    output := "";
    for i := 0 to |hits|
      invariant output == Text.Join(CsvFields(hits[..i]), ',')
    {
      var before := output;
      if i > 0 {
        output := output + [','];
      }
      output := output + Text.TrimSuffix(hits[i].rule.fqdn, REPORT_SUFFIX);
      output := output + ['|'];
      output := output + hits[i].rule.key;
      var field := RuleIdOf(Stripped(hits[i].rule));
      assert CsvFields(hits[..i + 1]) == CsvFields(hits[..i]) + [field];
      if i > 0 {
        Text.JoinAppend(CsvFields(hits[..i]), field, ',');
        assert output == before + [','] + field;
      } else {
        assert output == field;
      }
    }
    assert hits[..|hits|] == hits;
  }

  /** Reading the CSV back: split on ',', then each field on '|'. */
  function DecodeCsv(s: string): seq<seq<string>>
  {
    var fields := Text.Split(s, ',');
    seq(|fields|, (i: nat) requires i < |fields| => Text.Split(fields[i], '|'))
  }

  predicate NoSeparators(rule: Rule)
  {
    ',' !in rule.fqdn && '|' !in rule.fqdn && ',' !in rule.key && '|' !in rule.key
  }

  /** A non-empty list of hits without separators is recovered from its CSV, suffixes trimmed. */
  lemma CsvRoundTrip(hits: seq<Hit>)
    requires hits != [] && forall i :: 0 <= i < |hits| ==> NoSeparators(hits[i].rule)
    ensures var d := DecodeCsv(Text.Join(CsvFields(hits), ','));
            && |d| == |hits|
            && forall i :: 0 <= i < |hits| ==> d[i] == [Stripped(hits[i].rule).fqdn, Stripped(hits[i].rule).key]
  {
    var fields := CsvFields(hits);
    forall i | 0 <= i < |hits|
      ensures ',' !in fields[i]
      ensures Text.Split(fields[i], '|') == [Stripped(hits[i].rule).fqdn, Stripped(hits[i].rule).key] {
      var rule := Stripped(hits[i].rule);
      assert NoSeparators(hits[i].rule);
      assert forall c :: c in rule.fqdn ==> c in hits[i].rule.fqdn;
      SplitSelector(rule);
    }
    Text.SplitJoin(fields, ',');
  }

  /** The empty list prints like nothing at all and reads back as one empty field. */
  lemma EmptyCsvIsNotDecodable()
    ensures Text.Join(CsvFields([]), ',') == "" && DecodeCsv("") == [[""]]
  {
    assert Text.Split("", ',') == [""];
    assert Text.Split("", '|') == [""];
  }
}
