/** The retrier: attempts with exponential backoff and jitter, in 64-bit nanoseconds. */
module Retry {
  import opened Records

  const TWO63 := 0x8000_0000_0000_0000
  const TWO64 := 0x1_0000_0000_0000_0000

  function Pow2(n: nat): (p: int)
    ensures p >= 1
  {
    if n == 0 then 1 else 2 * Pow2(n - 1)
  }

  /** Wrap-around of a signed 64-bit integer. */
  function Wrap64(x: int): (r: int)
    ensures -TWO63 <= r < TWO63 && (x - r) % TWO64 == 0
    ensures -TWO63 <= x < TWO63 ==> r == x
  {
    (x + TWO63) % TWO64 - TWO63
  }

  function Doubled(base: int, n: nat): int {
    if n == 0 then base else 2 * Doubled(base, n - 1)
  }

  lemma {:induction false} DoubledExact(base: int, n: nat)
    ensures Doubled(base, n) == base * Pow2(n)
  {
    if n > 0 {
      DoubledExact(base, n - 1);
    }
  }

  /** base << attempt on a time.Duration. */
  function Shl(base: int, attempt: nat): int {
    Wrap64(Doubled(base, attempt))
  }

  function Delay(base: int, max: int, attempt: nat): int {
    Min(Shl(base, attempt), max)
  }

  /** Go's division truncates towards zero. */
  function HalfOf(d: int): int {
    if d >= 0 then d / 2 else -((-d) / 2)
  }

  /** rand.Int64N: any number below the bound; an arbitrary number outside stands for zero. */
  function Draw(random: nat, bound: int): (n: int)
    requires bound > 0
    ensures 0 <= n < bound && (random < bound ==> n == random)
  {
    if random < bound then random else 0
  }

  /** backoffDelay; None is the panic of rand.Int64N for a bound that is not positive. */
  function BackoffDelay(base: int, max: int, attempt: nat, random: nat): Option<int> {
    var half := HalfOf(Delay(base, max, attempt));
    if half <= 0 then None else Some(half + Draw(random, half))
  }

  /** The jitter draw panics exactly for a delay below 2ns; otherwise the sleep is in [delay/2, delay). */
  lemma BackoffExact(base: int, max: int, attempt: nat, random: nat)
    ensures BackoffDelay(base, max, attempt, random).None? <==> Delay(base, max, attempt) < 2
    ensures Delay(base, max, attempt) >= 2 ==>
      Delay(base, max, attempt) / 2 <= BackoffDelay(base, max, attempt, random).value < Delay(base, max, attempt)
  {
    var d := Delay(base, max, attempt);
    assert d >= 0 ==> HalfOf(d) == d / 2;
  }

  lemma {:induction false} Pow2Monotone(i: nat, j: nat)
    requires i <= j
    ensures Pow2(i) <= Pow2(j)
  {
    if i < j {
      Pow2Monotone(i, j - 1);
    }
  }

  lemma MulMonotone(a: int, x: int, y: int)
    requires a >= 0 && x <= y
    ensures a * x <= a * y
  {
  }

  predicate Fits(base: int, attempts: nat) {
    base > 0 && base * Pow2(attempts) < TWO63
  }

  /** While the shift fits, the delay is the smaller of base * 2^i and max; it is at least 2ns but for a
      1ns base at the first attempt, or a 1ns limit. */
  lemma DelayFits(base: int, max: int, attempt: nat)
    requires Fits(base, attempt) && base <= max
    ensures Delay(base, max, attempt) == Min(base * Pow2(attempt), max)
    ensures Delay(base, max, attempt) < 2 <==> base == 1 && (attempt == 0 || max == 1)
  {
    var p := Pow2(attempt);
    DoubledExact(base, attempt);
    MulMonotone(base, 1, p);
    assert attempt > 0 ==> p == 2 * Pow2(attempt - 1) >= 2;
    if attempt > 0 {
      MulMonotone(base, 2, p);
    }
  }

  /** With the default base delay the 37th shift already wraps to a negative delay. */
  lemma ShiftOverflows()
    ensures Shl(200_000_000, 36) < 0
    ensures forall max: int, random: nat :: BackoffDelay(200_000_000, max, 36, random).None?
  {
    Pow36();
    DoubledExact(200_000_000, 36);
    forall max: int, random: nat
      ensures BackoffDelay(200_000_000, max, 36, random).None?
    {
      BackoffExact(200_000_000, max, 36, random);
    }
  }

  lemma Pow36()
    ensures Pow2(36) == 0x10_0000_0000
  {
    assert Pow2(4) == 16;
    assert Pow2(8) == 256;
    assert Pow2(12) == 0x1000;
    assert Pow2(16) == 0x1_0000;
    assert Pow2(20) == 0x10_0000;
    assert Pow2(24) == 0x100_0000;
    assert Pow2(28) == 0x1000_0000;
    assert Pow2(32) == 0x1_0000_0000;
  }

  // ---------- the loop ----------

  datatype Call = Done | Retryable(err: string) | Fatal(err: string)

  datatype Config = Config(maxAttempts: int, base: int, max: int)

  /** What the world answers: is the context live before attempt i, how does call i end, what is drawn. */
  datatype World = World(live: nat -> bool, call: nat -> Call, random: nat -> nat)

  datatype Outcome = Nil | Err(err: string) | ContextDone | Panic

  datatype Trace = Trace(outcome: Outcome, calls: nat, slept: seq<int>)

  /** The rest of the loop from attempt i on, err being the error of the last call (None before any). */
  function From(c: Config, w: World, i: nat, err: Option<string>): (t: Trace)
    decreases c.maxAttempts - i
  {
    if i >= c.maxAttempts then Trace(if err.Some? then Err(err.value) else Nil, i, [])
    else if !w.live(i) then Trace(ContextDone, i, [])
    else
      match w.call(i)
      case Done => Trace(Nil, i + 1, [])
      case Fatal(e) => Trace(Err(e), i + 1, [])
      case Retryable(e) =>
        var d := BackoffDelay(c.base, c.max, i, w.random(i));
        if d.None? then Trace(Panic, i + 1, [])
        else
          var t := From(c, w, i + 1, Some(e));
          t.(slept := [d.value] + t.slept)
  }

  function After(slept: seq<int>, t: Trace): Trace {
    t.(slept := slept + t.slept)
  }

  lemma RetryOnce(c: Config, w: World, i: nat, err: Option<string>, slept: seq<int>, d: int)
    requires i < c.maxAttempts && w.live(i) && w.call(i).Retryable?
    requires BackoffDelay(c.base, c.max, i, w.random(i)) == Some(d)
    ensures After(slept, From(c, w, i, err)) == After(slept + [d], From(c, w, i + 1, Some(w.call(i).err)))
  {
    var rest := From(c, w, i + 1, Some(w.call(i).err)).slept;
    assert slept + ([d] + rest) == slept + [d] + rest;
  }

  method Do(c: Config, w: World) returns (outcome: Outcome, calls: nat, slept: seq<int>)
    ensures Trace(outcome, calls, slept) == From(c, w, 0, None)
  {
    var err: Option<string> := None;
    var i := 0;
    calls, slept := 0, [];
    while i < c.maxAttempts
      invariant calls == i && (i == 0 || i <= c.maxAttempts)
      invariant From(c, w, 0, None) == After(slept, From(c, w, i, err))
      decreases c.maxAttempts - i
    {
      assert slept + [] == slept;
      if !w.live(i) {
        return ContextDone, calls, slept;
      }
      calls := calls + 1;
      match w.call(i)
      case Done => return Nil, calls, slept;
      case Fatal(e) => return Err(e), calls, slept;
      case Retryable(e) =>
        var d := BackoffDelay(c.base, c.max, i, w.random(i));
        if d.None? {
          return Panic, calls, slept;
        }
        RetryOnce(c, w, i, err, slept, d.value);
        err := Some(e);
        slept := slept + [d.value];
        i := i + 1;
    }
    outcome := if err.Some? then Err(err.value) else Nil;
  }

  // ---------- what the loop guarantees ----------

  /** Attempt k is reached: everything before it ended in a retryable failure and a sleep. */
  predicate Reaches(c: Config, w: World, i: nat, k: nat) {
    forall j :: i <= j < k ==> w.live(j) && w.call(j).Retryable? && Delay(c.base, c.max, j) >= 2
  }

  predicate SucceedsAt(c: Config, w: World, i: nat, k: nat) {
    i <= k < c.maxAttempts && Reaches(c, w, i, k) && w.live(k) && w.call(k).Done?
  }

  predicate PanicsAt(c: Config, w: World, i: nat, k: nat) {
    i <= k < c.maxAttempts && Reaches(c, w, i, k) && w.live(k) && w.call(k).Retryable? && Delay(c.base, c.max, k) < 2
  }

  lemma ReachesStep(c: Config, w: World, i: nat, k: nat)
    requires i < k
    ensures Reaches(c, w, i, k) <==> w.live(i) && w.call(i).Retryable? && Delay(c.base, c.max, i) >= 2 && Reaches(c, w, i + 1, k)
  {
  }

  /** Nil is returned exactly when some call succeeds after only retryable failures with the context live,
      or when no attempt is allowed at all. */
  lemma {:induction false} NilIff(c: Config, w: World, i: nat, err: Option<string>)
    requires i == 0 <==> err.None?
    ensures From(c, w, i, err).outcome.Nil? <==> (i == 0 && c.maxAttempts <= 0) || exists k: nat :: SucceedsAt(c, w, i, k)
    decreases c.maxAttempts - i
  {
    if i < c.maxAttempts {
      BackoffExact(c.base, c.max, i, w.random(i));
      assert w.live(i) && w.call(i).Done? ==> SucceedsAt(c, w, i, i);
      forall k: nat | i < k
        ensures SucceedsAt(c, w, i, k) <==> w.live(i) && w.call(i).Retryable? && Delay(c.base, c.max, i) >= 2 && SucceedsAt(c, w, i + 1, k)
      {
        ReachesStep(c, w, i, k);
      }
      if w.live(i) && w.call(i).Retryable? && Delay(c.base, c.max, i) >= 2 {
        NilIff(c, w, i + 1, Some(w.call(i).err));
        var next := i + 1;
        if exists k: nat :: SucceedsAt(c, w, next, k) {
          var k: nat :| SucceedsAt(c, w, next, k);
          assert SucceedsAt(c, w, i, k);
        }
      }
    }
  }

  /** The loop panics exactly when a retryable failure meets a delay below 2ns. */
  lemma {:induction false} PanicIff(c: Config, w: World, i: nat, err: Option<string>)
    ensures From(c, w, i, err).outcome.Panic? <==> exists k: nat :: PanicsAt(c, w, i, k)
    decreases c.maxAttempts - i
  {
    if i < c.maxAttempts {
      BackoffExact(c.base, c.max, i, w.random(i));
      assert w.live(i) && w.call(i).Retryable? && Delay(c.base, c.max, i) < 2 ==> PanicsAt(c, w, i, i);
      forall k: nat | i < k
        ensures PanicsAt(c, w, i, k) <==> w.live(i) && w.call(i).Retryable? && Delay(c.base, c.max, i) >= 2 && PanicsAt(c, w, i + 1, k)
      {
        ReachesStep(c, w, i, k);
      }
      if w.live(i) && w.call(i).Retryable? && Delay(c.base, c.max, i) >= 2 {
        PanicIff(c, w, i + 1, Some(w.call(i).err));
        var next := i + 1;
        if exists k: nat :: PanicsAt(c, w, next, k) {
          var k: nat :| PanicsAt(c, w, next, k);
          assert PanicsAt(c, w, i, k);
        }
      }
    }
  }

  /** Attempt k does not lead to another one. */
  predicate Stops(c: Config, w: World, k: nat) {
    k >= c.maxAttempts || !w.live(k) || !w.call(k).Retryable? || Delay(c.base, c.max, k) < 2
  }

  /** The loop in full: it sleeps before each attempt up to the first that stops it, and that attempt
      decides the outcome; running out of attempts returns the last error. */
  lemma {:induction false} StopExact(c: Config, w: World, i: nat, err: Option<string>, k: nat)
    requires i <= k && (k == i || k <= c.maxAttempts) && Reaches(c, w, i, k) && Stops(c, w, k)
    ensures var t := From(c, w, i, err);
      && |t.slept| == k - i
      && t.calls == (if k >= c.maxAttempts || !w.live(k) then k else k + 1)
      && t.outcome ==
           if k >= c.maxAttempts then
             if k > i then Err(w.call(k - 1).err) else if err.Some? then Err(err.value) else Nil
           else if !w.live(k) then ContextDone
           else match w.call(k) case Done => Nil case Fatal(e) => Err(e) case Retryable(_) => Panic
    decreases k - i
  {
    if i < k {
      BackoffExact(c.base, c.max, i, w.random(i));
      ReachesStep(c, w, i, k);
      StopExact(c, w, i + 1, Some(w.call(i).err), k);
    } else if i < c.maxAttempts {
      BackoffExact(c.base, c.max, i, w.random(i));
    }
  }

  /** There is such an attempt. */
  lemma {:induction false} StopExists(c: Config, w: World, i: nat) returns (k: nat)
    ensures i <= k && (k == i || k <= c.maxAttempts) && Reaches(c, w, i, k) && Stops(c, w, k)
    decreases c.maxAttempts - i
  {
    if Stops(c, w, i) {
      k := i;
    } else {
      k := StopExists(c, w, i + 1);
      ReachesStep(c, w, i, k);
    }
  }

  function Sum(s: seq<int>): int {
    if s == [] then 0 else s[0] + Sum(s[1..])
  }

  lemma Scale(a: int, n: int)
    ensures a * (n + 1) == a * n + a
  {
  }

  lemma DoublePow(base: int, i: nat)
    ensures base * Pow2(i + 1) == base * Pow2(i) + base * Pow2(i)
  {
    assert Pow2(i + 1) == 2 * Pow2(i);
  }

  /** Attempt i ends in a retryable failure and a sleep. */
  predicate Sleeps(c: Config, w: World, i: nat) {
    i < c.maxAttempts && w.live(i) && w.call(i).Retryable? && Delay(c.base, c.max, i) >= 2
  }

  function SleepOf(c: Config, w: World, i: nat): int
    requires Sleeps(c, w, i)
  {
    HalfOf(Delay(c.base, c.max, i)) + Draw(w.random(i), HalfOf(Delay(c.base, c.max, i)))
  }

  /** The loop unrolled once. */
  lemma Unroll(c: Config, w: World, i: nat, err: Option<string>)
    ensures var t := From(c, w, i, err);
      if Sleeps(c, w, i) then
        var u := From(c, w, i + 1, Some(w.call(i).err)); t.slept == [SleepOf(c, w, i)] + u.slept && t.calls == u.calls
      else t.slept == [] && i <= t.calls <= i + 1 && (t.calls == i + 1 ==> i < c.maxAttempts)
  {
    BackoffExact(c.base, c.max, i, w.random(i));
  }

  lemma SleepInRange(c: Config, w: World, i: nat)
    requires Sleeps(c, w, i)
    ensures Delay(c.base, c.max, i) / 2 <= SleepOf(c, w, i) < Delay(c.base, c.max, i)
  {
    BackoffExact(c.base, c.max, i, w.random(i));
  }

  /** Every sleep, the first belonging to attempt i, lies between half its delay and its delay. */
  predicate InRange(c: Config, slept: seq<int>, i: nat) {
    forall k :: 0 <= k < |slept| ==> Delay(c.base, c.max, i + k) / 2 <= slept[k] < Delay(c.base, c.max, i + k)
  }

  lemma InRangeCons(c: Config, d: int, rest: seq<int>, i: nat)
    requires InRange(c, rest, i + 1) && Delay(c.base, c.max, i) / 2 <= d < Delay(c.base, c.max, i)
    ensures InRange(c, [d] + rest, i)
  {
    var slept := [d] + rest;
    forall k | 0 <= k < |slept|
      ensures Delay(c.base, c.max, i + k) / 2 <= slept[k] < Delay(c.base, c.max, i + k)
    {
      if k > 0 {
        assert slept[k] == rest[k - 1] && i + 1 + (k - 1) == i + k;
      }
    }
  }

  /** Each sleep lies between half its delay and its delay; the calls stay within the limit. */
  lemma {:induction false} EachSleep(c: Config, w: World, i: nat, err: Option<string>)
    requires i <= c.maxAttempts
    ensures var t := From(c, w, i, err);
      i <= t.calls <= c.maxAttempts && |t.slept| <= c.maxAttempts - i && InRange(c, t.slept, i)
    decreases c.maxAttempts - i
  {
    Unroll(c, w, i, err);
    if Sleeps(c, w, i) {
      EachSleep(c, w, i + 1, Some(w.call(i).err));
      SleepInRange(c, w, i);
      InRangeCons(c, SleepOf(c, w, i), From(c, w, i + 1, Some(w.call(i).err)).slept, i);
    }
  }

  lemma SumStep(d: int, sum: int, max: int, base: int, i: nat, n: nat)
    requires d < max && d < base * Pow2(i)
    requires sum <= max * n - n && sum <= base * Pow2(i + 1 + n) - base * Pow2(i + 1) - n
    ensures d + sum <= max * (n + 1) - (n + 1) && d + sum <= base * Pow2(i + (n + 1)) - base * Pow2(i) - (n + 1)
  {
    Scale(max, n);
    DoublePow(base, i);
    assert i + 1 + n == i + (n + 1);
  }

  /** A sum of sleeps that stay below max and below the doubling delays. */
  lemma {:induction false} SumOfBounded(s: seq<int>, max: int, base: int, i: nat)
    requires forall k :: 0 <= k < |s| ==> s[k] < max && s[k] < base * Pow2(i + k)
    ensures Sum(s) <= max * |s| - |s| && Sum(s) <= base * Pow2(i + |s|) - base * Pow2(i) - |s|
  {
    if s != [] {
      var rest := s[1..];
      forall k | 0 <= k < |rest|
        ensures rest[k] < max && rest[k] < base * Pow2(i + 1 + k)
      {
        assert rest[k] == s[k + 1] && i + (k + 1) == i + 1 + k;
      }
      SumOfBounded(rest, max, base, i + 1);
      assert s[0] < base * Pow2(i + 0);
      SumStep(s[0], Sum(rest), max, base, i, |rest|);
    }
  }

  lemma BelowBoth(base: int, max: int, j: nat, d: int)
    requires Fits(base, j) && base <= max && d < Delay(base, max, j)
    ensures d < max && d < base * Pow2(j)
  {
    DelayFits(base, max, j);
  }

  /** Without overflow the sleeps add up to less than max each, and less than the geometric sum. */
  lemma SumBounds(c: Config, w: World, i: nat, err: Option<string>)
    requires i <= c.maxAttempts && 0 < c.base <= c.max
    requires forall j :: i <= j < c.maxAttempts ==> Fits(c.base, j)
    ensures var s := From(c, w, i, err).slept;
      && Sum(s) <= c.max * |s| - |s|
      && Sum(s) <= c.base * Pow2(i + |s|) - c.base * Pow2(i) - |s|
  {
    EachSleep(c, w, i, err);
    var s := From(c, w, i, err).slept;
    forall k | 0 <= k < |s|
      ensures s[k] < c.max && s[k] < c.base * Pow2(i + k)
    {
      var j := i + k;
      assert Fits(c.base, j);
      BelowBoth(c.base, c.max, j, s[k]);
    }
    SumOfBounded(s, c.max, c.base, i);
  }

  lemma TotalOf(sum: int, n: nat, m: nat, base: int, max: int)
    requires n <= m && m >= 1 && 0 < base <= max
    requires sum <= max * n - n && sum <= base * Pow2(n) - base * Pow2(0) - n
    ensures sum < m * max && sum < base * (Pow2(m) - 1)
  {
    Pow2Monotone(n, m);
    MulMonotone(base, Pow2(n), Pow2(m));
    MulMonotone(max, n, m);
    Pow2Monotone(1, m);
    MulMonotone(base, 2, Pow2(m));
    MulMonotone(max, 1, m);
    Distribute(base, Pow2(m));
  }

  /** With a positive attempt limit and no overflow the total sleep is below attempts * max and below
      base * (2^attempts - 1), and no more than the allowed calls are made. */
  lemma TotalSleep(c: Config, w: World)
    requires c.maxAttempts >= 1 && 0 < c.base <= c.max && forall j :: 0 <= j < c.maxAttempts ==> Fits(c.base, j)
    ensures var t := From(c, w, 0, None);
      t.calls <= c.maxAttempts && Sum(t.slept) < c.maxAttempts * c.max && Sum(t.slept) < c.base * (Pow2(c.maxAttempts) - 1)
  {
    EachSleep(c, w, 0, None);
    SumBounds(c, w, 0, None);
    TotalOf(Sum(From(c, w, 0, None).slept), |From(c, w, 0, None).slept|, c.maxAttempts, c.base, c.max);
  }

  lemma Distribute(a: int, p: int)
    ensures a * (p - 1) == a * p - a
  {
  }
}
