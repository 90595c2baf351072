/**
 Migrations 16 and 19: the recommendation table built from rule_hit with two
 regular expressions, against what today's writer stores.
 */
module RecommendationMigrations {
  import opened Options
  import opened Schema
  import opened Inserts
  import Text

  // ---------------------------------------------------------------------------
  // The two regular expressions
  // ---------------------------------------------------------------------------

  const REPORT := "report"

  /** What a replacement text stands for: a backslash before a digit is a group, of which the pattern has none,
      before & the match, before another backslash a backslash; any other is itself. */
  function Expand(text: string): string
  {
    if text == "" then ""
    else if text[0] != '\\' then [text[0]] + Expand(text[1..])
    else if |text| == 1 then text
    else if '1' <= text[1] <= '9' then Expand(text[2..])
    else if text[1] == '&' then REPORT + Expand(text[2..])
    else if text[1] == '\\' then ['\\'] + Expand(text[2..])
    else ['\\'] + Expand(text[1..])
  }

  /** Piece by piece: what precedes the first backslash is itself; the backslash and the character after it stand for
      the match, a backslash, nothing or, before any other character or at the end, for the backslash alone. */
  lemma {:induction false} ExpandPieces(plain: string, c: char, rest: string)
    requires '\\' !in plain
    ensures Expand(plain) == plain && Expand(plain + "\\") == plain + "\\"
    ensures Expand(plain + ['\\', c] + rest) ==
            plain + if c == '&' then "report" + Expand(rest)
                    else if c == '\\' then "\\" + Expand(rest)
                    else if c in "123456789" then Expand(rest)
                    else "\\" + Expand([c] + rest)
  {
    var s := plain + ['\\', c] + rest;
    if plain == "" {
      assert s == ['\\', c] + rest;
      assert s[1..] == [c] + rest && s[2..] == rest;
      assert c in "123456789" <==> '1' <= c <= '9' by { OneToNine(c); }
    } else {
      assert s[1..] == plain[1..] + ['\\', c] + rest;
      assert (plain + "\\")[1..] == plain[1..] + "\\";
      ExpandPieces(plain[1..], c, rest);
    }
  }

  lemma OneToNine(c: char)
    ensures c in "123456789" <==> '1' <= c <= '9'
  {
    if '1' <= c <= '9' {
      assert "123456789"[c as int - '1' as int] == c;
    }
  }

  /** Bars and dots stay and none is added. */
  lemma {:induction false} ExpandKeeps(text: string, c: char)
    requires c == '|' || c == '.'
    ensures c in Expand(text) <==> c in text
  {
    if text != "" {
      assert text == [text[0]] + text[1..];
      if text[0] != '\\' {
        ExpandKeeps(text[1..], c);
      } else if |text| > 1 {
        assert text[1..] == [text[1]] + text[2..];
        if '1' <= text[1] <= '9' || text[1] == '&' || text[1] == '\\' {
          ExpandKeeps(text[2..], c);
        } else {
          ExpandKeeps(text[1..], c);
        }
      }
    }
  }

  /** REGEXP_REPLACE(s, 'report$', key). */
  function ReplaceReport(s: string, key: string): string
  {
    if Text.HasSuffix(s, REPORT) then s[..|s| - |REPORT|] + Expand(key) else s
  }

  /** The pattern (\.(?!.*\|)(?!.*\.|\|).*)|(\|.*) matches at position i, up to the end of s. */
  predicate MatchesAt(s: string, i: nat)
    requires i < |s|
  {
    s[i] == '|' || (s[i] == '.' && '|' !in s[i + 1..] && '.' !in s[i + 1..])
  }

  /** The leftmost match at or after i, or |s|. */
  function LeftmostMatch(s: string, i: nat): (r: nat)
    requires i <= |s|
    ensures i <= r <= |s|
    ensures r < |s| ==> MatchesAt(s, r)
    ensures forall j :: i <= j < r ==> !MatchesAt(s, j)
    decreases |s| - i
  {
    if i == |s| || MatchesAt(s, i) then i else LeftmostMatch(s, i + 1)
  }

  /** REGEXP_REPLACE(s, pattern, ''): the leftmost match is removed. */
  function CutTail(s: string): string
  {
    s[..LeftmostMatch(s, 0)]
  }

  /** With a '|' in s the cut is at the first one. */
  lemma CutAtBar(a: string, b: string)
    requires '|' !in a
    ensures CutTail(a + "|" + b) == a
  {
    var s := a + "|" + b;
    assert s[|a|] == '|';
    forall j | 0 <= j < |a| ensures !MatchesAt(s, j) {
      assert s[j] == a[j] != '|';
      assert s[j + 1..][|a| - j - 1] == '|';
    }
    assert MatchesAt(s, |a|);
    assert LeftmostMatch(s, 0) == |a|;
  }

  /** Without a '|' the cut is at the last dot. */
  lemma CutAtDot(a: string, b: string)
    requires '|' !in a && '|' !in b && '.' !in b
    ensures CutTail(a + "." + b) == a
  {
    var s := a + "." + b;
    assert s[|a|] == '.';
    assert s[|a| + 1..] == b;
    assert forall j :: 0 <= j < |a| ==> s[j] == a[j];
    forall j | 0 <= j < |a| ensures !MatchesAt(s, j) {
      assert s[j + 1..][|a| - j - 1] == '.';
    }
    assert MatchesAt(s, |a|);
    assert LeftmostMatch(s, 0) == |a|;
  }

  /** A dot in the error key moves the cut into the error key. */
  lemma CutBeyond(a: string, b: string)
    requires '|' !in a && '|' !in b && '.' in b
    ensures |CutTail(a + "." + b)| > |a|
  {
    var s := a + "." + b;
    var k :| 0 <= k < |b| && b[k] == '.';
    forall j | 0 <= j <= |a| ensures !MatchesAt(s, j) {
      assert j < |a| ==> s[j] == a[j];
      assert s[j + 1..][|a| + k - j] == '.';
    }
  }

  /** For a module ending in ".report", the migrated rule FQDN is the one today's writer stores iff neither
      field contains '|' and the error key contains no dot. */
  lemma MigratedFqdnExactly(rule: Rule)
    requires Text.HasSuffix(rule.fqdn, REPORT_SUFFIX)
    ensures CutTail(ReplaceReport(rule.fqdn, rule.key)) == Stripped(rule).fqdn <==>
            '|' !in rule.fqdn && '|' !in rule.key && '.' !in rule.key
  {
    var f, e := Stripped(rule).fqdn, rule.key;
    ReplacedSuffix(rule);
    assert rule.fqdn == f + REPORT_SUFFIX;
    assert '|' in rule.fqdn <==> '|' in f;
    ExpandKeeps(e, '|');
    ExpandKeeps(e, '.');
    CutExactly(f, Expand(e));
  }

  lemma CutExactly(f: string, e: string)
    ensures CutTail(f + "." + e) == f <==> '|' !in f && '|' !in e && '.' !in e
  {
    if '|' in f {
      BarInModule(f, e);
    } else if '|' in e {
      BarInKey(f, e);
    } else if '.' in e {
      CutBeyond(f, e);
    } else {
      CutAtDot(f, e);
    }
  }

  lemma BarInModule(f: string, e: string)
    requires '|' in f
    ensures |CutTail(f + "." + e)| < |f|
  {
    var i := Text.IndexOf(f, '|');
    BarFound(f);
    var rest := f[i + 1..] + "." + e;
    assert f == f[..i] + "|" + f[i + 1..];
    assert f + "." + e == f[..i] + "|" + rest;
    CutAtBar(f[..i], rest);
  }

  lemma BarInKey(f: string, e: string)
    requires '|' !in f && '|' in e
    ensures |CutTail(f + "." + e)| > |f|
  {
    var i := Text.IndexOf(e, '|');
    BarFound(e);
    var head := f + "." + e[..i];
    assert e == e[..i] + "|" + e[i + 1..];
    assert f + "." + e == head + "|" + e[i + 1..];
    CutAtBar(head, e[i + 1..]);
  }

  lemma BarFound(s: string)
    requires '|' in s
    ensures Text.IndexOf(s, '|') < |s|
  {
    assert s[..|s|] == s;
  }

  /** Migration 16 turns "f.report" into "f." and what the key stands for. */
  lemma ReplacedSuffix(rule: Rule)
    requires Text.HasSuffix(rule.fqdn, REPORT_SUFFIX)
    ensures ReplaceReport(rule.fqdn, rule.key) == Stripped(rule).fqdn + "." + Expand(rule.key)
  {
    var f := Stripped(rule).fqdn;
    assert rule.fqdn == (f + ".") + REPORT;
    Text.TrimSuffixOfConcat(f + ".", REPORT);
    assert rule.fqdn[..|rule.fqdn| - |REPORT|] == f + ".";
  }

  // ---------------------------------------------------------------------------
  // The tables
  // ---------------------------------------------------------------------------

  function Row16(k: Key<Rule>): Key<Rule>
  {
    k.(id := Rule(ReplaceReport(k.id.fqdn, k.id.key), k.id.key))
  }

  /** Migration 16: one row per rule hit; None when the new primary key is not unique. */
  ghost function Mig16(hits: set<Key<Rule>>): Option<set<Key<Rule>>>
  {
    if forall k, l :: k in hits && l in hits && Row16(k) == Row16(l) ==> k == l
    then Some(set k | k in hits :: Row16(k)) else None
  }

  function Row19(k: Key<Rule>): Key<Rule>
  {
    k.(id := Rule(CutTail(k.id.fqdn), k.id.key))
  }

  /** The UPDATE of migration 19 visits the rows in some order; each new key is checked at once against all other rows,
      those already updated and those still to come. */
  function UpdatedInOrder(done: set<Key<Rule>>, pending: seq<Key<Rule>>): Option<set<Key<Rule>>>
    decreases |pending|
  {
    if pending == [] then Some(done)
    else
      var k := Row19(pending[0]);
      if k in done || k in pending[1..] then None else UpdatedInOrder(done + {k}, pending[1..])
  }

  /** Migration 19: the corrected keys and the new rule_id; None when the update violates the primary key. */
  function Mig19(order: seq<Key<Rule>>): Option<map<Key<Rule>, string>>
  {
    match UpdatedInOrder({}, order)
    case None => None
    case Some(keys) => Some(map k | k in keys :: RuleIdOf(k.id))
  }

  predicate Distinct(order: seq<Key<Rule>>)
  {
    forall i, j :: 0 <= i < j < |order| ==> order[i] != order[j]
  }

  /** An order in which the rows can be visited. */
  ghost predicate IsOrder(order: seq<Key<Rule>>, rows: set<Key<Rule>>)
  {
    Distinct(order) && forall k :: k in order <==> k in rows
  }

  /** Modules end in ".report" without '|'; error keys have no dot or '|'. */
  predicate Clean(rule: Rule)
  {
    && Text.HasSuffix(rule.fqdn, REPORT_SUFFIX) && '|' !in rule.fqdn
    && '.' !in rule.key && '|' !in rule.key
  }

  function StrippedKey(k: Key<Rule>): Key<Rule>
  {
    k.(id := Stripped(k.id))
  }

  lemma CleanRow(k: Key<Rule>)
    requires Clean(k.id)
    ensures Row19(Row16(k)) == StrippedKey(k)
  {
    MigratedFqdnExactly(k.id);
  }

  lemma StrippedKeyInjective(k: Key<Rule>, l: Key<Rule>)
    requires Clean(k.id) && Clean(l.id) && StrippedKey(k) == StrippedKey(l)
    ensures k == l
  {
    assert k.id.fqdn == Stripped(k.id).fqdn + REPORT_SUFFIX;
    assert l.id.fqdn == Stripped(l.id).fqdn + REPORT_SUFFIX;
  }

  /** Migration 16 succeeds on every clean table, and migration 19 would keep its rows apart. */
  lemma CleanTable(hits: set<Key<Rule>>)
    requires forall k :: k in hits ==> Clean(k.id)
    ensures Mig16(hits).Some?
    ensures forall k, l :: k in hits && l in hits && Row19(Row16(k)) == Row19(Row16(l)) ==> k == l
  {
    forall k, l | k in hits && l in hits && Row19(Row16(k)) == Row19(Row16(l)) ensures k == l {
      CleanRow(k);
      CleanRow(l);
      StrippedKeyInjective(k, l);
    }
  }

  // ---------------------------------------------------------------------------
  // The update in some order
  // ---------------------------------------------------------------------------

  /** If the update succeeds it has replaced every key. */
  lemma {:induction false} UpdatedKeys(done: set<Key<Rule>>, pending: seq<Key<Rule>>)
    ensures UpdatedInOrder(done, pending).Some? ==>
              UpdatedInOrder(done, pending).value == done + set k | k in pending :: Row19(k)
    decreases |pending|
  {
    if pending != [] {
      var k := Row19(pending[0]);
      assert pending == [pending[0]] + pending[1..];
      UpdatedKeys(done + {k}, pending[1..]);
    }
  }

  /** A row is updated to the key of one still to come. */
  ghost predicate MeetsLater(pending: seq<Key<Rule>>)
  {
    exists i, j :: 0 <= i < j < |pending| && Row19(pending[i]) == pending[j]
  }

  /** For rows whose new keys are distinct, the update fails iff some row meets one still to come. */
  lemma {:induction false} FailsExactly(done: set<Key<Rule>>, pending: seq<Key<Rule>>)
    requires forall i, j :: 0 <= i < j < |pending| ==> Row19(pending[i]) != Row19(pending[j])
    requires forall i :: 0 <= i < |pending| ==> Row19(pending[i]) !in done
    ensures UpdatedInOrder(done, pending).None? <==> MeetsLater(pending)
    decreases |pending|
  {
    if pending != [] {
      var k, rest := Row19(pending[0]), pending[1..];
      if k in rest {
        var j :| 0 <= j < |rest| && rest[j] == k;
        assert pending[j + 1] == k;
      } else {
        assert forall i :: 0 <= i < |rest| ==> rest[i] == pending[i + 1];
        FailsExactly(done + {k}, rest);
        MeetsLaterRest(pending);
      }
    }
  }

  lemma MeetsLaterRest(pending: seq<Key<Rule>>)
    requires pending != [] && Row19(pending[0]) !in pending[1..]
    ensures MeetsLater(pending) <==> MeetsLater(pending[1..])
  {
    var rest := pending[1..];
    if MeetsLater(pending) {
      var i, j :| 0 <= i < j < |pending| && Row19(pending[i]) == pending[j];
      assert pending[j] == rest[j - 1] && i > 0;
      assert Row19(rest[i - 1]) == rest[j - 1];
    }
    if MeetsLater(rest) {
      var i, j :| 0 <= i < j < |rest| && Row19(rest[i]) == rest[j];
      assert Row19(pending[i + 1]) == pending[j + 1];
    }
  }

  /** The same for the rows of a clean table. */
  lemma OrderFailsExactly(hits: set<Key<Rule>>, order: seq<Key<Rule>>)
    requires forall k :: k in hits ==> Clean(k.id)
    requires Mig16(hits).Some? && IsOrder(order, Mig16(hits).value)
    ensures Mig19(order).None? <==> MeetsLater(order)
  {
    CleanTable(hits);
    forall i, j | 0 <= i < j < |order| ensures Row19(order[i]) != Row19(order[j]) {
      assert order[i] in order && order[j] in order;
      var k :| k in hits && Row16(k) == order[i];
      var l :| l in hits && Row16(l) == order[j];
      assert k != l;
    }
    FailsExactly({}, order);
  }

  /** Migrations 16 and 19 agree with today's writer: for every clean rule_hit table, whenever the update goes through,
      in whatever order, the recommendation table holds exactly the writer's rule_fqdn and rule_id for each hit, each
      once. */
  lemma MigrationsMatchWriter(hits: set<Key<Rule>>, order: seq<Key<Rule>>)
    requires forall k :: k in hits ==> Clean(k.id)
    requires Mig16(hits).Some? ==> IsOrder(order, Mig16(hits).value)
    ensures Mig16(hits).Some?
    ensures Mig19(order).Some? ==>
              var recs := Mig19(order).value;
              && (forall k :: k in hits ==> StrippedKey(k) in recs && recs[StrippedKey(k)] == RuleIdOf(Stripped(k.id)))
              && (forall r :: r in recs ==> exists k :: k in hits && StrippedKey(k) == r)
              && (forall k, l :: k in hits && l in hits && StrippedKey(k) == StrippedKey(l) ==> k == l)
  {
    CleanTable(hits);
    UpdatedKeys({}, order);
    if Mig19(order).Some? {
      var recs := Mig19(order).value;
      forall k | k in hits ensures StrippedKey(k) in recs && recs[StrippedKey(k)] == RuleIdOf(Stripped(k.id)) {
        CleanRow(k);
        assert Row16(k) in order;
      }
      forall r | r in recs ensures exists k :: k in hits && StrippedKey(k) == r {
        var m :| m in order && Row19(m) == r;
        var k :| k in hits && Row16(k) == m;
        CleanRow(k);
      }
      forall k, l | k in hits && l in hits && StrippedKey(k) == StrippedKey(l) ensures k == l {
        StrippedKeyInjective(k, l);
      }
    }
  }

  // ---------------------------------------------------------------------------
  // Which tables depend on the order
  // ---------------------------------------------------------------------------

  /** Two hits of one cluster with the same error key, one module being the other followed by what that key
      stands for. */
  ghost predicate ModuleEndsInKey(hits: set<Key<Rule>>)
  {
    exists k, l :: k in hits && l in hits && Overlap(k, l)
  }

  predicate Overlap(k: Key<Rule>, l: Key<Rule>)
  {
    && k.org == l.org && k.cluster == l.cluster && k.id.key == l.id.key
    && Stripped(k.id).fqdn == Stripped(l.id).fqdn + "." + Expand(l.id.key)
  }

  lemma MeetsExactly(k: Key<Rule>, l: Key<Rule>)
    requires Clean(k.id) && Clean(l.id)
    ensures Row19(Row16(k)) == Row16(l) <==> Overlap(k, l)
    ensures Overlap(k, l) ==> Row16(k) != Row16(l)
  {
    CleanRow(k);
    ReplacedSuffix(k.id);
    ReplacedSuffix(l.id);
    if Overlap(k, l) {
      assert |Row16(k).id.fqdn| > |Row16(l).id.fqdn|;
    }
  }

  /** On a clean table migration 19 succeeds in every order iff no module ends in its own error key after another
      module; otherwise there is an order in which it trips over a key not updated yet. */
  lemma MigrationsSucceedExactly(hits: set<Key<Rule>>)
    requires forall k :: k in hits ==> Clean(k.id)
    ensures Mig16(hits).Some?
    ensures (forall order :: IsOrder(order, Mig16(hits).value) ==> Mig19(order).Some?) <==> !ModuleEndsInKey(hits)
  {
    CleanTable(hits);
    var rows := Mig16(hits).value;
    if ModuleEndsInKey(hits) {
      var k, l :| k in hits && l in hits && Overlap(k, l);
      MeetsExactly(k, l);
      var order := OrderStarting(rows, Row16(k), Row16(l));
      assert Row19(order[0]) == order[1];
      OrderFailsExactly(hits, order);
      assert IsOrder(order, rows) && Mig19(order).None?;
    } else {
      forall order | IsOrder(order, rows) ensures Mig19(order).Some? {
        NoneMeets(hits, order);
        OrderFailsExactly(hits, order);
      }
    }
  }

  lemma NoneMeets(hits: set<Key<Rule>>, order: seq<Key<Rule>>)
    requires forall k :: k in hits ==> Clean(k.id)
    requires Mig16(hits).Some? && IsOrder(order, Mig16(hits).value) && !ModuleEndsInKey(hits)
    ensures !MeetsLater(order)
  {
    forall i, j | 0 <= i < j < |order| ensures Row19(order[i]) != order[j] {
      assert order[i] in order && order[j] in order;
      var k :| k in hits && Row16(k) == order[i];
      var l :| l in hits && Row16(l) == order[j];
      MeetsExactly(k, l);
    }
  }

  lemma OrderStarting(rows: set<Key<Rule>>, k: Key<Rule>, l: Key<Rule>) returns (order: seq<Key<Rule>>)
    requires k in rows && l in rows && k != l
    ensures IsOrder(order, rows) && |order| >= 2 && order[0] == k && order[1] == l
  {
    var rest := ShortestFirst(rows - {k, l});
    order := [k, l] + rest;
  }

  /** The rows by the length of their module. */
  predicate ByLength(order: seq<Key<Rule>>)
  {
    forall i, j :: 0 <= i < j < |order| ==> |order[i].id.fqdn| <= |order[j].id.fqdn|
  }

  lemma ShortestFirst(rows: set<Key<Rule>>) returns (order: seq<Key<Rule>>)
    ensures IsOrder(order, rows) && ByLength(order)
    decreases |rows|
  {
    if rows == {} {
      order := [];
    } else {
      var k := Shortest(rows);
      var rest := ShortestFirst(rows - {k});
      order := [k] + rest;
      assert forall i :: 0 <= i < |rest| ==> rest[i] in rest;
    }
  }

  lemma Shortest(rows: set<Key<Rule>>) returns (k: Key<Rule>)
    requires rows != {}
    ensures k in rows && forall l :: l in rows ==> |k.id.fqdn| <= |l.id.fqdn|
    decreases |rows|
  {
    k :| k in rows;
    if rows != {k} {
      var rest := rows - {k};
      assert rows == rest + {k};
      assert rest != {};
      var l := Shortest(rest);
      if |l.id.fqdn| < |k.id.fqdn| {
        k := l;
      }
    }
  }

  /** Some order always succeeds, so the outcome depends on the order exactly where it can fail at all: every new key
      is shorter than the old one, and updating the shortest first meets none. */
  lemma SomeOrderSucceeds(hits: set<Key<Rule>>) returns (order: seq<Key<Rule>>)
    requires forall k :: k in hits ==> Clean(k.id)
    ensures Mig16(hits).Some? && IsOrder(order, Mig16(hits).value) && Mig19(order).Some?
  {
    CleanTable(hits);
    order := ShortestFirst(Mig16(hits).value);
    forall i, j | 0 <= i < j < |order| ensures Row19(order[i]) != order[j] {
      assert order[i] in order;
      var k :| k in hits && Row16(k) == order[i];
      CleanRow(k);
      ReplacedSuffix(k.id);
      assert |Row19(order[i]).id.fqdn| < |order[i].id.fqdn|;
    }
    OrderFailsExactly(hits, order);
  }
}
