/**
 Timestamps, and how long something has been continuously reported.

 A timestamp counts microseconds, the resolution of the TIMESTAMP columns.
 */
module Timeline {
  type Time = int

  const SECOND := 1_000_000

  /** Formatting as RFC 3339 and reading back keeps whole seconds only. */
  function ToSecond(t: Time): (r: Time)
    ensures r <= t < r + SECOND && r % SECOND == 0
  {
    t - t % SECOND
  }

  lemma ToSecondIdempotent(t: Time)
    ensures ToSecond(ToSecond(t)) == ToSecond(t)
  {
    assert ToSecond(t) % SECOND == 0;
  }

  /** One accepted report: the time it recorded for each item it contains, and whether the
      writer could read the times recorded before it. */
  datatype Entry<D> = Entry(seen: map<D, Time>, remembered: bool)

  type History<D(==)> = seq<Entry<D>>

  predicate InLast<D(==)>(hist: History<D>, d: D)
  {
    hist != [] && d in hist[|hist| - 1].seen
  }

  /** The time kept in the database for `d` after the reports of `hist`: the newest report either
      starts the item or carries the stored time over, which truncates it to seconds. */
  function Kept<D(==)>(hist: History<D>, d: D): Time
    requires InLast(hist, d)
  {
    var front, last := hist[..|hist| - 1], hist[|hist| - 1];
    if last.remembered && InLast(front, d) then ToSecond(Kept(front, d)) else last.seen[d]
  }

  /** `i` starts the unbroken suffix of reports that contain `d`. */
  predicate StartsSuffix<D(==)>(hist: History<D>, d: D, i: nat)
  {
    && i < |hist|
    && (forall j :: i <= j < |hist| ==> d in hist[j].seen)
    && (forall j :: i < j < |hist| ==> hist[j].remembered)
    && (i == 0 || d !in hist[i - 1].seen || !hist[i].remembered)
  }

  /** The unbroken suffix has exactly one start. */
  lemma SuffixUnique<D>(hist: History<D>, d: D, i: nat, j: nat)
    requires StartsSuffix(hist, d, i) && StartsSuffix(hist, d, j)
    ensures i == j
  {
  }

  /** The kept time is the one recorded by the first report of the unbroken suffix, truncated to
      seconds once it has been carried over. */
  lemma {:induction false} KeptIsFirstOfSuffix<D>(hist: History<D>, d: D) returns (i: nat)
    requires InLast(hist, d)
    ensures StartsSuffix(hist, d, i) && forall j :: StartsSuffix(hist, d, j) ==> j == i
    ensures Kept(hist, d) == if i == |hist| - 1 then hist[i].seen[d] else ToSecond(hist[i].seen[d])
  {
    var n := |hist| - 1;
    var front := hist[..n];
    if hist[n].remembered && InLast(front, d) {
      i := KeptIsFirstOfSuffix(front, d);
      assert forall j :: 0 <= j < n ==> front[j] == hist[j];
      ToSecondIdempotent(hist[i].seen[d]);
    } else {
      i := n;
    }
    forall j | StartsSuffix(hist, d, j) ensures j == i {
      SuffixUnique(hist, d, i, j);
    }
  }
}
