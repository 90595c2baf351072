/**
 Runs of storeInDB over one database and any number of storage instances, and
 what every run keeps.
 */
module Runs {
  import opened Options
  import opened Timeline
  import opened Schema
  import opened Inserts
  import opened Protocol
  import opened SingleOrg

  /** The shared tables, and the cache of every instance that has one. */
  datatype World = World(tables: Tables, caches: map<nat, map<Cluster, Time>>)

  /** A processed message, a new instance with an empty cache, or an instance running Init, which gets to read the
      report rows of some clusters. */
  datatype Event =
    | Process(instance: nat, m: Message, e: Env, a: Answers)
    | Restart(instance: nat)
    | Load(instance: nat, read: set<Cluster>)

  function CacheOf(w: World, i: nat): map<Cluster, Time>
  {
    if i in w.caches then w.caches[i] else map[]
  }

  function StoreOf(w: World, i: nat): Store
  {
    Store(w.tables, CacheOf(w, i))
  }

  ghost function ResultOf(w: World, ev: Event): StoreResult
    requires ev.Process?
  {
    StoreInDb(StoreOf(w, ev.instance), ev.m, ev.e, ev.a)
  }

  ghost function Step(w: World, ev: Event): World
  {
    match ev
    case Process(i, m, e, a) =>
      var s := ResultOf(w, ev).store;
      World(s.tables, w.caches[i := s.cache])
    case Restart(i) => w.(caches := w.caches[i := map[]])
    case Load(i, read) => w.(caches := w.caches[i := Loaded(CacheOf(w, i), w.tables.report, read)])
  }

  /** A step the system can take. */
  ghost predicate Possible(w: World, ev: Event)
  {
    ev.Process? ==> PossibleAnswers(StoreOf(w, ev.instance), ev.m, ev.e, ev.a) && FailureAborts(ev.e.org)
  }

  ghost function Run(w: World, evs: seq<Event>): World
  {
    if evs == [] then w else Step(Run(w, evs[..|evs| - 1]), evs[|evs| - 1])
  }

  ghost predicate PossibleRun(w: World, evs: seq<Event>)
  {
    evs == [] || (PossibleRun(w, evs[..|evs| - 1]) && Possible(Run(w, evs[..|evs| - 1]), evs[|evs| - 1]))
  }

  lemma RunSnoc(w: World, evs: seq<Event>, ev: Event)
    ensures Run(w, evs + [ev]) == Step(Run(w, evs), ev)
    ensures PossibleRun(w, evs + [ev]) <==> PossibleRun(w, evs) && Possible(Run(w, evs), ev)
  {
    assert (evs + [ev])[..|evs|] == evs;
  }

  /** Every run from a good database keeps all rows of every cluster under one organization. */
  lemma {:induction false} SingleOrgForever(w: World, evs: seq<Event>)
    requires Good(w.tables) && PossibleRun(w, evs)
    ensures Good(Run(w, evs).tables)
  {
    if evs != [] {
      var front, ev := evs[..|evs| - 1], evs[|evs| - 1];
      SingleOrgForever(w, front);
      if ev.Process? {
        var before := Run(w, front);
        StoreInDbKeepsGood(StoreOf(before, ev.instance), ev.m, ev.e, ev.a);
      }
    }
  }
}
