/**
 The migration engine: moving a database between versions in one transaction.
 The data and the steps are arbitrary; a step may fail or panic.
 */
module MigrationEngine {
  import opened Options

  /** Go's 64-bit uint. */
  newtype Version = v: int | 0 <= v < 0x1_0000_0000_0000_0000

  datatype StepResult<D> = Done(data: D) | Fails | Panics

  datatype Migration<!D> = Migration(up: D -> StepResult<D>, down: D -> StepResult<D>)

  type Migrations<!D> = ms: seq<Migration<D>> | |ms| < 0x1_0000_0000_0000_0000

  datatype Outcome = Success | Error | Panic

  /** Calls that fail although the step functions would not: `step(v)` is the step taken at version v. */
  datatype Faults = Faults(read: bool, begin: bool, step: nat -> bool, update: bool, commit: bool)

  // ---------------------------------------------------------------------------
  // What a sequence of steps does
  // ---------------------------------------------------------------------------

  function Distance(a: nat, b: nat): nat
  {
    if a < b then b - a else a - b
  }

  /** One step from version `from` towards `to`. */
  function StepFrom<D>(ms: seq<Migration<D>>, d: D, from: nat, to: nat): StepResult<D>
    requires from <= |ms| && to <= |ms| && from != to
  {
    if from < to then ms[from].up(d) else ms[from - 1].down(d)
  }

  function Next(from: nat, to: nat): nat
    requires from != to
  {
    if from < to then from + 1 else from - 1
  }

  /** The in-order fold of exactly the |to - from| steps between two versions. */
  function Path<D>(ms: seq<Migration<D>>, d: D, from: nat, to: nat): StepResult<D>
    requires from <= |ms| && to <= |ms|
    decreases Distance(from, to)
  {
    if from == to then Done(d)
    else
      match StepFrom(ms, d, from, to)
      case Done(d') => Path(ms, d', Next(from, to), to)
      case Fails => Fails
      case Panics => Panics
  }

  /** The versions at which a step is taken. */
  predicate OnPath(v: nat, from: nat, to: nat)
  {
    from <= v < to || to < v <= from
  }

  /** `b` lies between `a` and `c`. */
  predicate Between(a: nat, b: nat, c: nat)
  {
    a <= b <= c || c <= b <= a
  }

  /** Going over an intermediate version is the same as going directly. */
  lemma {:induction false} PathsCompose<D>(ms: seq<Migration<D>>, d: D, a: nat, b: nat, c: nat)
    requires a <= |ms| && b <= |ms| && c <= |ms| && Between(a, b, c)
    ensures match Path(ms, d, a, b)
            case Done(d') => Path(ms, d, a, c) == Path(ms, d', b, c)
            case r => Path(ms, d, a, c) == r
    decreases Distance(a, b)
  {
    if a != b {
      match StepFrom(ms, d, a, b)
      case Done(d') => PathsCompose(ms, d', Next(a, b), b, c);
      case _ =>
    }
  }

  /** `trail` is the data before, between and after successful StepUps of the versions from `from` on. */
  predicate Climbs<D(==)>(ms: seq<Migration<D>>, trail: seq<D>, from: nat)
  {
    && 0 < |trail| && from + |trail| <= |ms| + 1
    && forall i :: 0 <= i < |trail| - 1 ==> ms[from + i].up(trail[i]) == Done(trail[i + 1])
  }

  /** The same for the StepDowns of the versions from `from` downwards. */
  predicate Descends<D(==)>(ms: seq<Migration<D>>, trail: seq<D>, from: nat)
  {
    && 0 < |trail| <= from + 1 && from <= |ms|
    && forall i :: 0 <= i < |trail| - 1 ==> ms[from - 1 - i].down(trail[i]) == Done(trail[i + 1])
  }

  /** A path upwards takes the StepUp of each version on the way and stops at the first failure. */
  lemma {:induction false} PathUp<D>(ms: seq<Migration<D>>, d: D, from: nat, to: nat) returns (trail: seq<D>)
    requires from <= to <= |ms|
    ensures Climbs(ms, trail, from) && trail[0] == d
    ensures match Path(ms, d, from, to)
            case Done(d') => from + |trail| == to + 1 && trail[|trail| - 1] == d'
            case r => from + |trail| <= to && ms[from + |trail| - 1].up(trail[|trail| - 1]) == r
    decreases Distance(from, to)
  {
    trail := [d];
    if from < to && ms[from].up(d).Done? {
      var d' := ms[from].up(d).data;
      var rest := PathUp(ms, d', from + 1, to);
      trail := [d] + rest;
      forall i | 0 <= i < |rest| ensures ms[from + i].up(trail[i]) == Done(trail[i + 1]) {
        assert i > 0 ==> ms[from + 1 + (i - 1)].up(rest[i - 1]) == Done(rest[i]);
      }
    }
  }

  /** A path downwards takes the StepDown of each version on the way and stops at the first failure. */
  lemma {:induction false} PathDown<D>(ms: seq<Migration<D>>, d: D, from: nat, to: nat) returns (trail: seq<D>)
    requires to <= from <= |ms|
    ensures Descends(ms, trail, from) && trail[0] == d
    ensures match Path(ms, d, from, to)
            case Done(d') => from + 1 == to + |trail| && trail[|trail| - 1] == d'
            case r => to + |trail| <= from && ms[from - |trail|].down(trail[|trail| - 1]) == r
    decreases Distance(from, to)
  {
    trail := [d];
    if to < from && ms[from - 1].down(d).Done? {
      var d' := ms[from - 1].down(d).data;
      var rest := PathDown(ms, d', from - 1, to);
      trail := [d] + rest;
      forall i | 0 <= i < |rest| ensures ms[from - 1 - i].down(trail[i]) == Done(trail[i + 1]) {
        assert i > 0 ==> ms[from - 2 - (i - 1)].down(rest[i - 1]) == Done(rest[i]);
      }
    }
  }

  // ---------------------------------------------------------------------------
  // The engine
  // ---------------------------------------------------------------------------

  class Database<!D> {
    var data: D
    /** The rows of migration_info; None while the table does not exist. */
    var info: Option<seq<Version>>

    constructor (data: D)
      ensures this.data == data && info == None
    {
      this.data := data;
      info := None;
    }

    predicate HasVersion(v: Version)
      reads this
    {
      info == Some([v])
    }
  }

  /** InitInfoTable: creates the table with one row at version 0; more than one row is an error. */
  method InitInfoTable<D>(db: Database<D>, begin: bool, exec: bool, commit: bool) returns (ok: bool)
    modifies db
    ensures db.data == old(db.data)
    ensures !ok ==> db.info == old(db.info)
    ensures ok ==> db.info == if old(db.info.None? || db.info.value == []) then Some([0]) else old(db.info)
    ensures ok ==> |db.info.value| == 1
    ensures ok <==> !begin && !exec && !commit && old(db.info.None? || |db.info.value| <= 1)
  {
    if begin || exec {
      return false;
    }
    var tx := db.info;
    if tx.None? {
      tx := Some([]);
    }
    if tx.value == [] {
      tx := Some([0]);
    }
    if |tx.value| != 1 || commit {
      return false;
    }
    db.info := tx;
    ok := true;
  }

  /** GetDBVersion: an error unless the info table has exactly one row. */
  method GetDbVersion<D>(db: Database<D>, read: bool) returns (version: Option<Version>)
    ensures version.Some? <==> !read && db.info.Some? && |db.info.value| == 1
    ensures version.Some? ==> db.HasVersion(version.value)
  {
    if read || db.info.None? || |db.info.value| != 1 {
      return None;
    }
    assert db.info.value == [db.info.value[0]];
    version := Some(db.info.value[0]);
  }

  /** updateVersionInDB: sets every row and insists on exactly one. */
  method UpdateVersionInDb(info: Option<seq<Version>>, v: Version, fails: bool) returns (r: Option<seq<Version>>)
    ensures r.Some? <==> !fails && info.Some? && |info.value| == 1
    ensures r.Some? ==> r.value == [v]
  {
    if fails || info.None? || |info.value| != 1 {
      return None;
    }
    r := Some([v]);
  }

  /** The two loops of execStepsInTx, on the transaction's copy of the data. */
  method RunSteps<D>(d0: D, current: Version, target: Version, ms: Migrations<D>, step: nat -> bool)
    returns (outcome: Outcome, d: D, reached: Version)
    requires current as int <= |ms| && target as int <= |ms|
    ensures outcome == Success ==> Path(ms, d0, current as nat, target as nat) == Done(d) && reached == target
    ensures (forall v :: OnPath(v, current as nat, target as nat) ==> !step(v)) ==>
              outcome == (match Path(ms, d0, current as nat, target as nat)
                          case Done(_) => Success
                          case Fails => Error
                          case Panics => Panic)
  {
    var currentVer := current;
    d := d0;
    while currentVer < target
      invariant current <= target ==> current <= currentVer <= target
      invariant current >= target ==> currentVer == current
      invariant Path(ms, d0, current as nat, target as nat) == Path(ms, d, currentVer as nat, target as nat)
      decreases target as nat - currentVer as nat
    {
      if step(currentVer as nat) {
        assert OnPath(currentVer as nat, current as nat, target as nat);
        return Error, d, currentVer;
      }
      match ms[currentVer].up(d)
      case Fails => return Error, d, currentVer;
      case Panics => return Panic, d, currentVer;
      case Done(d') =>
        d := d';
        currentVer := currentVer + 1;
    }
    while currentVer > target
      invariant current <= target ==> currentVer == target
      invariant current >= target ==> target <= currentVer <= current
      invariant Path(ms, d0, current as nat, target as nat) == Path(ms, d, currentVer as nat, target as nat)
      decreases currentVer as nat - target as nat
    {
      if step(currentVer as nat) {
        assert OnPath(currentVer as nat, current as nat, target as nat);
        return Error, d, currentVer;
      }
      match ms[currentVer - 1].down(d)
      case Fails => return Error, d, currentVer;
      case Panics => return Panic, d, currentVer;
      case Done(d') =>
        d := d';
        currentVer := currentVer - 1;
    }
    return Success, d, currentVer;
  }

  /** execStepsInTx inside withTransaction: commit on success, roll back on an error or a panic. */
  method ExecStepsInTx<D>(db: Database<D>, current: Version, target: Version, ms: Migrations<D>, f: Faults)
    returns (outcome: Outcome)
    requires db.HasVersion(current)
    requires current as int <= |ms| && target as int <= |ms|
    modifies db
    ensures outcome == Success ==> Path(ms, old(db.data), current as nat, target as nat) == Done(db.data) && db.HasVersion(target)
    ensures outcome != Success ==> db.data == old(db.data) && db.info == old(db.info)
    ensures !f.begin && !f.update && !f.commit && (forall v :: OnPath(v, current as nat, target as nat) ==> !f.step(v)) ==>
              outcome == (match Path(ms, old(db.data), current as nat, target as nat)
                          case Done(_) => Success
                          case Fails => Error
                          case Panics => Panic)
  {
    if current == target {
      return Success;
    }
    if f.begin {
      return Error;
    }
    var r, d, reached := RunSteps(db.data, current, target, ms, f.step);
    if r != Success {
      return r;
    }
    var info := UpdateVersionInDb(db.info, reached, f.update);
    if info.None? || f.commit {
      return Error;
    }
    db.data := d;
    db.info := info;
    outcome := Success;
  }

  /** SetDBVersion is all-or-nothing: on success the data are the fold of exactly the steps between the two
      versions and the one info row holds the target; otherwise nothing has changed. */
  method SetDbVersion<D>(db: Database<D>, target: Version, ms: Migrations<D>, f: Faults) returns (outcome: Outcome)
    modifies db
    ensures outcome == Success ==>
              && target as int <= |ms| && old(db.info).Some? && |old(db.info).value| == 1
              && old(db.info).value[0] as int <= |ms|
              && Path(ms, old(db.data), old(db.info).value[0] as nat, target as nat) == Done(db.data)
              && db.HasVersion(target)
    ensures outcome != Success ==> db.data == old(db.data) && db.info == old(db.info)
    ensures target as int > |ms| || old(db.info).None? || |old(db.info).value| != 1 || old(db.info).value[0] as int > |ms|
            ==> outcome == Error
    ensures target as int <= |ms| && old(db.info).Some? && |old(db.info).value| == 1 && old(db.info).value[0] as int <= |ms|
            && !f.read && !f.begin && !f.update && !f.commit && (forall v :: !f.step(v)) ==>
              outcome == (match Path(ms, old(db.data), old(db.info).value[0] as nat, target as nat)
                          case Done(_) => Success
                          case Fails => Error
                          case Panics => Panic)
  {
    var maxVer := |ms| as Version;
    if target > maxVer {
      return Error;
    }
    var version := GetDbVersion(db, f.read);
    if version.None? {
      return Error;
    }
    if version.value > maxVer {
      return Error;
    }
    outcome := ExecStepsInTx(db, version.value, target, ms, f);
  }

  // ---------------------------------------------------------------------------
  // Path independence
  // ---------------------------------------------------------------------------

  /** The database built from scratch up to version v. */
  function Built<D>(ms: seq<Migration<D>>, d0: D, v: nat): StepResult<D>
    requires v <= |ms|
  {
    Path(ms, d0, 0, v)
  }

  /** Every StepDown undoes its StepUp on the database of that version. */
  ghost predicate Reversible<D>(ms: seq<Migration<D>>, d0: D)
  {
    forall v :: 0 <= v < |ms| && Built(ms, d0, v).Done? && Built(ms, d0, v + 1).Done? ==>
                  ms[v].down(Built(ms, d0, v + 1).data) == Built(ms, d0, v)
  }

  lemma {:induction false} BuiltBelow<D>(ms: seq<Migration<D>>, d0: D, v: nat, w: nat)
    requires w <= v <= |ms| && Built(ms, d0, v).Done?
    ensures Built(ms, d0, w).Done?
    ensures Path(ms, Built(ms, d0, w).data, w, v) == Built(ms, d0, v)
  {
    PathsCompose(ms, d0, 0, w, v);
  }

  lemma {:induction false} DownRebuilds<D>(ms: seq<Migration<D>>, d0: D, v: nat, w: nat)
    requires w <= v <= |ms| && Built(ms, d0, v).Done? && Reversible(ms, d0)
    ensures Built(ms, d0, w).Done?
    ensures Path(ms, Built(ms, d0, v).data, v, w) == Built(ms, d0, w)
    decreases v - w
  {
    if w < v {
      BuiltBelow(ms, d0, v, v - 1);
      DownRebuilds(ms, d0, v - 1, w);
      assert ms[v - 1].down(Built(ms, d0, v - 1 + 1).data) == Built(ms, d0, v - 1);
    }
  }

  /** A successful change of version lands on the database built from scratch for the target. */
  lemma PathRebuilds<D>(ms: seq<Migration<D>>, d0: D, v: nat, w: nat)
    requires v <= |ms| && w <= |ms| && Reversible(ms, d0)
    requires Built(ms, d0, v).Done? && Path(ms, Built(ms, d0, v).data, v, w).Done?
    ensures Path(ms, Built(ms, d0, v).data, v, w) == Built(ms, d0, w)
  {
    if w <= v {
      DownRebuilds(ms, d0, v, w);
    } else {
      PathsCompose(ms, d0, 0, v, w);
    }
  }

  /** The data after a series of SetDBVersion calls starting at version `v`. */
  function Series<D>(ms: seq<Migration<D>>, d: D, v: nat, targets: seq<nat>): StepResult<D>
    requires v <= |ms| && forall i :: 0 <= i < |targets| ==> targets[i] <= |ms|
    decreases |targets|
  {
    if targets == [] then Done(d)
    else
      match Path(ms, d, v, targets[0])
      case Done(d') => Series(ms, d', targets[0], targets[1..])
      case r => r
  }

  /** After any series of successful SetDBVersion calls the database depends only on the last target. */
  lemma {:induction false} OnlyLastTargetMatters<D>(ms: seq<Migration<D>>, d0: D, v: nat, targets: seq<nat>)
    requires v <= |ms| && forall i :: 0 <= i < |targets| ==> targets[i] <= |ms|
    requires Reversible(ms, d0) && Built(ms, d0, v).Done?
    requires Series(ms, Built(ms, d0, v).data, v, targets).Done?
    ensures Series(ms, Built(ms, d0, v).data, v, targets) ==
            Built(ms, d0, if targets == [] then v else targets[|targets| - 1])
    decreases |targets|
  {
    if targets != [] {
      PathRebuilds(ms, d0, v, targets[0]);
      OnlyLastTargetMatters(ms, d0, targets[0], targets[1..]);
    }
  }
}
