/** What it means, by positions alone, that one sequence is chosen from another or cut out of it. */
module Selection {
  import opened Records

  /** at lists, in order, the positions of xs that keep lets through, and out their elements. */
  ghost predicate Picked<T>(xs: seq<T>, keep: nat -> bool, out: seq<T>, at: seq<nat>) {
    && |at| == |out|
    && (forall k :: 0 <= k < |at| ==> at[k] < |xs| && keep(at[k]) && out[k] == xs[at[k]])
    && (forall j, k :: 0 <= j < k < |at| ==> at[j] < at[k])
    && (forall i: nat :: i < |xs| && keep(i) ==> i in at)
  }

  ghost predicate Selects<T>(xs: seq<T>, keep: nat -> bool, out: seq<T>) {
    exists at :: Picked(xs, keep, out, at)
  }

  function Flags(oks: seq<bool>): nat -> bool {
    (i: nat) => i < |oks| && oks[i]
  }

  lemma SelectsNone<T>(keep: nat -> bool)
    ensures Selects<T>([], keep, [])
  {
    var at: seq<nat> := [];
    assert Picked<T>([], keep, [], at);
  }

  /** The last element joins the selection exactly when it is kept; the earlier ones may be judged by
      another function that agrees on them. */
  lemma SelectsLast<T>(xs: seq<T>, before: nat -> bool, keep: nat -> bool, out: seq<T>)
    requires xs != [] && Selects(xs[..|xs| - 1], before, out)
    requires forall i: nat :: i < |xs| - 1 ==> (before(i) <==> keep(i))
    ensures Selects(xs, keep, out + if keep(|xs| - 1) then [xs[|xs| - 1]] else [])
  {
    var n := |xs| - 1;
    var at :| Picked(xs[..n], before, out, at);
    var more := at + if keep(n) then [n] else [];
    forall i: nat | i < |xs| && keep(i)
      ensures i in more
    {
      assert i < n ==> i in at;
      assert i == n ==> more[|at|] == n;
    }
    assert Picked(xs, keep, out + if keep(n) then [xs[n]] else [], more);
  }

  /** Only what the judge says of positions of xs counts. */
  lemma SelectsAgree<T>(xs: seq<T>, before: nat -> bool, keep: nat -> bool, out: seq<T>)
    requires Selects(xs, before, out) && forall i: nat :: i < |xs| ==> (before(i) <==> keep(i))
    ensures Selects(xs, keep, out)
  {
    var at :| Picked(xs, before, out, at);
    assert Picked(xs, keep, out, at);
  }

  lemma PickedIn<T>(xs: seq<T>, keep: nat -> bool, out: seq<T>, at: seq<nat>, x: T) returns (i: nat)
    requires Picked(xs, keep, out, at) && x in out
    ensures i < |xs| && keep(i) && xs[i] == x
  {
    var k :| 0 <= k < |out| && out[k] == x;
    i := at[k];
  }

  lemma PickedOut<T>(xs: seq<T>, keep: nat -> bool, out: seq<T>, at: seq<nat>, i: nat)
    requires Picked(xs, keep, out, at) && i < |xs| && keep(i)
    ensures xs[i] in out
  {
    var k :| 0 <= k < |at| && at[k] == i;
    assert out[k] == xs[i];
  }

  lemma SelectsHas<T>(xs: seq<T>, keep: nat -> bool, out: seq<T>, x: T)
    requires Selects(xs, keep, out)
    ensures x in out <==> exists i: nat :: i < |xs| && keep(i) && xs[i] == x
  {
    var at :| Picked(xs, keep, out, at);
    if x in out {
      var i := PickedIn(xs, keep, out, at, x);
    }
    if exists i: nat :: i < |xs| && keep(i) && xs[i] == x {
      var i: nat :| i < |xs| && keep(i) && xs[i] == x;
      PickedOut(xs, keep, out, at, i);
    }
  }

  /** As many elements as positions that are kept. */
  lemma SelectsCount<T>(xs: seq<T>, keep: nat -> bool, out: seq<T>)
    requires Selects(xs, keep, out)
    ensures |out| == |set i: nat | i < |xs| && keep(i)|
  {
    var at :| Picked(xs, keep, out, at);
    var kept := set i: nat | i < |xs| && keep(i);
    ElementsCount(at, kept);
    forall i | i in kept
      ensures i in Elements(at)
    {
      ElementsOf(at, i);
    }
    assert kept - Elements(at) == {};
  }

  lemma FlagSet(oks: seq<bool>, n: nat)
    requires n == |oks|
    ensures (set i: nat | i < n && Flags(oks)(i)) == (set i: nat | i < |oks| && oks[i])
  {
    var a, b := set i: nat | i < n && Flags(oks)(i), set i: nat | i < |oks| && oks[i];
    forall i: nat
      ensures i in a <==> i in b
    {
    }
  }

  lemma FlaggedCount<T>(xs: seq<T>, oks: seq<bool>, out: seq<T>)
    requires |xs| == |oks| && Selects(xs, Flags(oks), out)
    ensures |out| == |set i: nat | i < |oks| && oks[i]|
  {
    SelectsCount(xs, Flags(oks), out);
    FlagSet(oks, |xs|);
  }

  lemma FlaggedHas<T>(xs: seq<T>, oks: seq<bool>, out: seq<T>)
    requires |xs| == |oks| && Selects(xs, Flags(oks), out)
    ensures forall x :: x in out <==> exists k :: 0 <= k < |oks| && oks[k] && xs[k] == x
  {
    forall x
      ensures x in out <==> exists k :: 0 <= k < |oks| && oks[k] && xs[k] == x
    {
      SelectsHas(xs, Flags(oks), out, x);
    }
  }

  predicate Cut<T>(whole: seq<T>, at: seq<nat>, k: nat) {
    k + 1 < |at| && at[k] <= at[k + 1] <= |whole|
  }

  /** The cuts at[0] = 0, at[1], ... divide whole into parts. */
  predicate Divided<T>(whole: seq<T>, at: seq<nat>, parts: nat) {
    && |at| == parts + 1 && at[0] == 0 && at[parts] == |whole|
    && forall k: nat :: k < parts ==> Cut(whole, at, k)
  }

  function Part<T>(whole: seq<T>, at: seq<nat>, k: nat): seq<T>
    requires Cut(whole, at, k)
  {
    whole[at[k]..at[k + 1]]
  }

  /** One more part at the end leaves the others as they are. */
  lemma DividedAppend<T>(whole: seq<T>, at: seq<nat>, parts: nat, more: seq<T>)
    requires Divided(whole, at, parts)
    ensures var w, b := whole + more, at + [|whole| + |more|];
      && Divided(w, b, parts + 1) && Part(w, b, parts) == more
      && forall k: nat :: k < parts ==> Part(w, b, k) == Part(whole, at, k)
  {
    var w, b := whole + more, at + [|whole| + |more|];
    forall k: nat | k < parts
      ensures Cut(w, b, k) && Part(w, b, k) == Part(whole, at, k)
    {
      assert Cut(whole, at, k);
    }
    assert Cut(w, b, parts);
  }

  /** whole is the lists one after another. */
  predicate JoinedAt<T(==)>(whole: seq<T>, at: seq<nat>, lists: seq<seq<T>>) {
    Divided(whole, at, |lists|) && forall l: nat :: l < |lists| ==> Cut(whole, at, l) && Part(whole, at, l) == lists[l]
  }

  ghost predicate Joins<T>(whole: seq<T>, lists: seq<seq<T>>) {
    exists at :: JoinedAt(whole, at, lists)
  }

  lemma JoinsNone<T>()
    ensures Joins<T>([], [])
  {
    var none: seq<T>, lists: seq<seq<T>>, at: seq<nat> := [], [], [0];
    assert JoinedAt(none, at, lists);
  }

  lemma JoinsLast<T>(whole: seq<T>, lists: seq<seq<T>>, more: seq<T>)
    requires Joins(whole, lists)
    ensures Joins(whole + more, lists + [more])
  {
    var at :| JoinedAt(whole, at, lists);
    DividedAppend(whole, at, |lists|, more);
    var end: nat := |whole| + |more|;
    var cuts := at + [end];
    assert JoinedAt(whole + more, cuts, lists + [more]);
  }
}
