/** One client's cache entry under arbitrary interleaving of cache reads, database reads, cache writes,
    commits, invalidations and expiry. Lists are numbered in the order the database went through them. */
module CacheRace {
  import opened Records
  import Machines

  /** A GetLinks call that missed the cache: before or after its database read. */
  datatype Reader = Missed | Loaded(version: nat)

  /** latest: number of the current list; cache: number of the list in the entry; returned: the answers. */
  datatype State = State(latest: nat, cache: Option<nat>, readers: map<nat, Reader>, owing: set<nat>, returned: seq<nat>)

  datatype Action =
    | Hit                                // cache get finds the entry
    | Miss(r: nat)                       // cache get finds nothing, or fails
    | Read(r: nat)                       // the service reads the database
    | Fail(r: nat)                       // the service reports an error
    | Set(r: nat, ok: bool)              // cache set, and the answer
    | Commit(w: nat)                     // an operation changes the client's list
    | Touch                              // a crawl changes last_update
    | Delete(w: nat, ok: bool)           // the invalidation of operation w
    | Expire

  predicate Enabled(s: State, a: Action) {
    match a
    case Hit => s.cache.Some?
    case Miss(r) => r !in s.readers
    case Read(r) => r in s.readers && s.readers[r].Missed?
    case Fail(r) => r in s.readers && s.readers[r].Missed?
    case Set(r, ok) => r in s.readers && s.readers[r].Loaded?
    case Commit(w) => w !in s.owing
    case Delete(w, ok) => w in s.owing
    case Touch => true
    case Expire => true
  }

  function Apply(s: State, a: Action): State
    requires Enabled(s, a)
  {
    match a
    case Hit => s.(returned := s.returned + [s.cache.value])
    case Miss(r) => s.(readers := s.readers[r := Missed])
    case Read(r) => s.(readers := s.readers[r := Loaded(s.latest)])
    case Fail(r) => s.(readers := WithoutKey(s.readers, r))
    case Set(r, ok) =>
      s.(readers := WithoutKey(s.readers, r), returned := s.returned + [s.readers[r].version],
         cache := if ok then Some(s.readers[r].version) else s.cache)
    case Commit(w) => s.(latest := s.latest + 1, owing := s.owing + {w})
    case Touch => s.(latest := s.latest + 1)
    case Delete(w, ok) => s.(owing := s.owing - {w}, cache := if ok then None else s.cache)
    case Expire => s.(cache := None)
  }

  predicate Steps(s: State, a: Action, t: State) {
    Enabled(s, a) && t == Apply(s, a)
  }

  /** A run from the state s; trace[k] is the state before acts[k]. */
  ghost predicate Run(s: State, trace: seq<State>, acts: seq<Action>) {
    Machines.Path(Steps, trace, acts) && trace[0] == s
  }

  const INIT := State(0, None, map[], {}, [])

  // ---------- every answer was true once ----------

  predicate Known(s: State) {
    && (s.cache.Some? ==> s.cache.value <= s.latest)
    && (forall r :: r in s.readers && s.readers[r].Loaded? ==> s.readers[r].version <= s.latest)
    && (forall i :: 0 <= i < |s.returned| ==> s.returned[i] <= s.latest)
  }

  lemma KnownRun(trace: seq<State>, acts: seq<Action>, k: nat)
    requires Run(INIT, trace, acts) && k < |trace|
    ensures Known(trace[k])
  {
    Machines.Always(Steps, Known, trace, acts, k);
  }

  /** The database held exactly the list that an answer shows, in some state before it. */
  lemma {:induction false} EveryAnswerWasTrue(trace: seq<State>, acts: seq<Action>, k: nat, i: nat) returns (j: nat)
    requires Run(INIT, trace, acts) && k < |trace| && i < |trace[k].returned|
    ensures j <= k && trace[j].latest == trace[k].returned[i]
  {
    KnownRun(trace, acts, k);
    j := ReachedVersion(trace, acts, k, trace[k].returned[i]);
  }

  lemma {:induction false} ReachedVersion(trace: seq<State>, acts: seq<Action>, k: nat, v: nat) returns (j: nat)
    requires Run(INIT, trace, acts) && k < |trace| && v <= trace[k].latest
    ensures j <= k && trace[j].latest == v
  {
    if v == trace[k].latest {
      j := k;
    } else {
      assert Steps(trace[k - 1], acts[k - 1], trace[k - 1 + 1]);
      j := ReachedVersion(trace, acts, k - 1, v);
    }
  }

  // ---------- freshness ----------

  /** Nothing older than list v is in the entry or in the hands of a reader. */
  predicate Floor(s: State, v: nat) {
    && v <= s.latest
    && (s.cache.Some? ==> v <= s.cache.value)
    && (forall r :: r in s.readers && s.readers[r].Loaded? ==> v <= s.readers[r].version)
  }

  /** The answers given after the first n are not older than v. */
  predicate FreshAfter(s: State, n: nat, v: nat) {
    forall i :: n <= i < |s.returned| ==> v <= s.returned[i]
  }

  ghost predicate AlwaysFresh(s: State, v: nat) {
    forall trace, acts {:trigger Run(s, trace, acts)} :: Run(s, trace, acts) ==> FreshAfter(trace[|acts|], |s.returned|, v)
  }

  lemma {:induction false} FloorRun(s: State, trace: seq<State>, acts: seq<Action>, k: nat, v: nat)
    requires Run(s, trace, acts) && k < |trace| && Floor(s, v)
    ensures Floor(trace[k], v) && FreshAfter(trace[k], |s.returned|, v)
  {
    if k > 0 {
      FloorRun(s, trace, acts, k - 1, v);
      assert Steps(trace[k - 1], acts[k - 1], trace[k - 1 + 1]);
    }
  }

  /** No later answer is older than list v exactly when neither the entry nor a call under way holds an
      older list. So a successful invalidation makes an operation visible for good if and only if no
      GetLinks call that read the database before its commit is still to set the cache. */
  lemma FreshIff(s: State, v: nat)
    requires v <= s.latest
    ensures AlwaysFresh(s, v) <==> Floor(s, v)
  {
    if Floor(s, v) {
      forall trace, acts | Run(s, trace, acts)
        ensures FreshAfter(trace[|acts|], |s.returned|, v)
      {
        FloorRun(s, trace, acts, |acts|, v);
      }
    } else if s.cache.Some? && s.cache.value < v {
      OneStep(s, Hit, v);
    } else {
      var r :| r in s.readers && s.readers[r].Loaded? && s.readers[r].version < v;
      OneStep(s, Set(r, true), v);
    }
  }

  /** A step that answers with an older list breaks freshness. */
  lemma OneStep(s: State, a: Action, v: nat)
    requires Enabled(s, a) && |Apply(s, a).returned| == |s.returned| + 1 && Apply(s, a).returned[|s.returned|] < v
    ensures !AlwaysFresh(s, v)
  {
    var trace, acts := [s, Apply(s, a)], [a];
    Machines.PathOne(Steps, s, a, Apply(s, a));
    assert Run(s, trace, acts);
    assert !FreshAfter(trace[|acts|], |s.returned|, v);
  }

  /** The stale set: a reader loads, an operation commits and invalidates, the reader sets. With nothing
      under way any more, the entry is out of date until it expires or is deleted. */
  lemma StaleSet(s: State, r: nat, w: nat)
    requires s.cache.None? && r !in s.readers && w !in s.owing
    ensures Enabled(s, Miss(r)) && Enabled(Apply(s, Miss(r)), Read(r))
    ensures var loaded := Apply(Apply(s, Miss(r)), Read(r));
      && Enabled(loaded, Commit(w)) && Enabled(Apply(loaded, Commit(w)), Delete(w, true))
      && Enabled(Apply(Apply(loaded, Commit(w)), Delete(w, true)), Set(r, true))
      && var end := Apply(Apply(Apply(loaded, Commit(w)), Delete(w, true)), Set(r, true));
         end.cache == Some(s.latest) && end.latest == s.latest + 1 && r !in end.readers && w !in end.owing
  {
  }
}
