/** Step machines: what a run is, and the induction over it, once for all machines. */
module Machines {

  /** trace[k] is the state before acts[k]; next tells which states a step may lead to. */
  ghost predicate Path<S, A>(next: (S, A, S) -> bool, trace: seq<S>, acts: seq<A>) {
    |trace| == |acts| + 1 && forall k :: 0 <= k < |acts| ==> next(trace[k], acts[k], trace[k + 1])
  }

  /** What holds at the start and is kept by every step holds all along. */
  lemma {:induction false} Always<S(!new), A(!new)>(next: (S, A, S) -> bool, keep: S -> bool, trace: seq<S>, acts: seq<A>, k: nat)
    requires Path(next, trace, acts) && k < |trace| && keep(trace[0])
    requires forall s, a, t :: keep(s) && next(s, a, t) ==> keep(t)
    ensures keep(trace[k])
  {
    if k > 0 {
      Always(next, keep, trace, acts, k - 1);
      assert next(trace[k - 1], acts[k - 1], trace[k - 1 + 1]);
    }
  }

  lemma PathOne<S, A>(next: (S, A, S) -> bool, s: S, a: A, t: S)
    requires next(s, a, t)
    ensures Path(next, [s, t], [a])
  {
  }

  lemma PathConcat<S, A>(next: (S, A, S) -> bool, t0: seq<S>, a0: seq<A>, t1: seq<S>, a1: seq<A>)
    requires Path(next, t0, a0) && Path(next, t1, a1) && t0[|a0|] == t1[0]
    ensures Path(next, t0 + t1[1..], a0 + a1)
    ensures (t0 + t1[1..])[0] == t0[0] && (t0 + t1[1..])[|a0 + a1|] == t1[|a1|]
  {
    var t, a := t0 + t1[1..], a0 + a1;
    forall k | 0 <= k < |a|
      ensures next(t[k], a[k], t[k + 1])
    {
      if k >= |a0| {
        assert t[k] == t1[k - |a0|] && t[k + 1] == t1[k - |a0| + 1];
      }
    }
  }
}
