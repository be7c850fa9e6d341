/** The worker pool over one batch of links. Workers take links in order, then read, crawl and commit in any
    interleaving; the outcome is that of handling the links one after another. */
module CrawlPool {
  import opened Records
  import opened Selection
  import Crawl

  /** What the network and the database answer for one link. */
  datatype Fetch = ReadError | Failed(inserted: bool) | Shots(shots: seq<RawUpdate>, inserted: bool)

  datatype Link = Link(path: string, subs: seq<Crawl.Sub>, fetch: Fetch)

  datatype Worker = Idle | Taken(link: nat) | Planning(link: nat, subs: seq<Crawl.Sub>)

  /** rows: subscription rows by link; handled: links in the order their processing ended. */
  datatype Pool = Pool(next: nat, workers: seq<Worker>, rows: seq<seq<Crawl.Sub>>, out: multiset<RawUpdate>, handled: seq<nat>)

  // ---------- one link ----------

  function LastOf(rows: seq<Crawl.Sub>): map<int, int> {
    if rows == [] then map[] else LastOf(rows[..|rows| - 1])[rows[|rows| - 1].user := rows[|rows| - 1].last]
  }

  function Written(rows: seq<Crawl.Sub>, w: map<int, int>): (r: seq<Crawl.Sub>)
    ensures |r| == |rows|
  {
    seq(|rows|, i requires 0 <= i < |rows| => if rows[i].user in w then rows[i].(last := w[rows[i].user]) else rows[i])
  }

  /** The transaction of processLink commits: there is something to say, every row is found, and the
      database plays along. */
  predicate Commits(rows: seq<Crawl.Sub>, read: seq<Crawl.Sub>, f: Fetch) {
    f.Shots? && f.inserted && Crawl.Updates(read, f.shots) != [] && Crawl.AllFound(LastOf(rows), Crawl.Watermarks(read, f.shots))
  }

  /** The rows of the link after its processing, planned on what was read. */
  function RowsAfter(rows: seq<Crawl.Sub>, read: seq<Crawl.Sub>, f: Fetch): seq<Crawl.Sub> {
    if Commits(rows, read, f) then Written(rows, Crawl.Watermarks(read, f.shots)) else rows
  }

  function OutOf(rows: seq<Crawl.Sub>, read: seq<Crawl.Sub>, l: Link): multiset<RawUpdate> {
    match l.fetch
    case ReadError => multiset{}
    case Failed(inserted) => if inserted then multiset{Crawl.ErrorShot(l.path, Crawl.Users(read))} else multiset{}
    case Shots(shots, inserted) => if Commits(rows, read, l.fetch) then multiset(Crawl.Updates(read, shots)) else multiset{}
  }

  lemma {:induction false} LastOfUsers(rows: seq<Crawl.Sub>, i: nat)
    requires i < |rows|
    ensures rows[i].user in LastOf(rows)
  {
    if i < |rows| - 1 {
      LastOfUsers(rows[..|rows| - 1], i);
    }
  }

  /** While the subscribers stay, no watermark misses its row. */
  lemma AllFoundWhenUnchanged(rows: seq<Crawl.Sub>, shots: seq<RawUpdate>)
    ensures Crawl.AllFound(LastOf(rows), Crawl.Watermarks(rows, shots))
  {
    forall u | u in Crawl.Watermarks(rows, shots)
      ensures u in LastOf(rows)
    {
      Crawl.WatermarkUsers(rows, shots, u);
      var i :| 0 <= i < |rows| && rows[i].user == u;
      LastOfUsers(rows, i);
    }
  }

  // ---------- sequential processing ----------

  function SequentialRows(links: seq<Link>): (rows: seq<seq<Crawl.Sub>>)
    ensures |rows| == |links|
  {
    seq(|links|, i requires 0 <= i < |links| => RowsAfter(links[i].subs, links[i].subs, links[i].fetch))
  }

  /** What the link adds to the outbox when nothing happens to its rows meanwhile. */
  function OutAlone(l: Link): multiset<RawUpdate> {
    OutOf(l.subs, l.subs, l)
  }

  function Parts(links: seq<Link>): (parts: seq<multiset<RawUpdate>>)
    ensures |parts| == |links|
  {
    seq(|links|, i requires 0 <= i < |links| => OutAlone(links[i]))
  }

  /** Sum of those of the first n parts whose index is in done. */
  function SumWhere<T>(parts: seq<multiset<T>>, n: nat, done: seq<nat>): multiset<T>
    requires n <= |parts|
  {
    if n == 0 then multiset{}
    else SumWhere(parts, n - 1, done) + if n - 1 in done then parts[n - 1] else multiset{}
  }

  function Total<T>(parts: seq<multiset<T>>, n: nat): multiset<T>
    requires n <= |parts|
  {
    if n == 0 then multiset{} else Total(parts, n - 1) + parts[n - 1]
  }

  function SequentialOut(links: seq<Link>): multiset<RawUpdate> {
    Total(Parts(links), |links|)
  }

  // ---------- what processing a batch means ----------

  /** The subscription of row i is now r: moved to the latest of the shots when these hold a newer one and
      were committed, otherwise as it was. */
  predicate RowMoved(l: Link, i: nat, r: Crawl.Sub)
    requires i < |l.subs|
  {
    if l.fetch.Shots? && l.fetch.inserted && exists k :: 0 <= k < |l.fetch.shots| && l.subs[i].last < l.fetch.shots[k].updatedAt then
      && r.user == l.subs[i].user
      && (exists k :: 0 <= k < |l.fetch.shots| && l.fetch.shots[k].updatedAt == r.last)
      && (forall k :: 0 <= k < |l.fetch.shots| ==> l.fetch.shots[k].updatedAt <= r.last)
    else
      r == l.subs[i]
  }

  /** Each user once, no watermark before the zero time. */
  predicate WellRead(subs: seq<Crawl.Sub>) {
    Crawl.DistinctUsers(subs) && forall i :: 0 <= i < |subs| ==> 0 <= subs[i].last
  }

  predicate RowsMoved(l: Link, rows: seq<Crawl.Sub>) {
    |rows| == |l.subs| && forall i :: 0 <= i < |l.subs| ==> RowMoved(l, i, rows[i])
  }

  /** The records that one link adds to the outbox. */
  ghost predicate LinkRecords(l: Link, rs: seq<RawUpdate>) {
    match l.fetch
    case ReadError => rs == []
    case Failed(inserted) => if inserted then |rs| == 1 && Crawl.ErrorRecord(l.path, l.subs, rs[0]) else rs == []
    case Shots(shots, inserted) => if inserted then Crawl.PlanIs(l.subs, shots, rs) else rs == []
  }

  ghost predicate AllRecords(links: seq<Link>, lists: seq<seq<RawUpdate>>) {
    |lists| == |links| && forall l :: 0 <= l < |links| ==> LinkRecords(links[l], lists[l])
  }

  /** The outbox gains the records of every link, each once, and nothing else. */
  ghost predicate Enqueued(links: seq<Link>, out: multiset<RawUpdate>) {
    exists lists, recs :: AllRecords(links, lists) && Joins(recs, lists) && multiset(recs) == out
  }

  ghost predicate ProcessedAll(links: seq<Link>, rows: seq<seq<Crawl.Sub>>, out: multiset<RawUpdate>) {
    && Enqueued(links, out) && |rows| == |links|
    && forall l: nat :: l < |links| && WellRead(links[l].subs) ==> RowsMoved(links[l], rows[l])
  }

  lemma NewerIsTold(subs: seq<Crawl.Sub>, shots: seq<RawUpdate>, i: nat)
    requires i < |subs| && Crawl.Newer(subs[i], shots)
    ensures Crawl.Updates(subs, shots) != []
  {
    var k :| 0 <= k < |shots| && subs[i].last < shots[k].updatedAt;
    Crawl.BehindExact(subs, shots[k].updatedAt, subs[i].user);
    var _ := Crawl.PlanHolds(subs, shots, k);
  }

  lemma CommitsAlone(l: Link)
    ensures Commits(l.subs, l.subs, l.fetch) <==> l.fetch.Shots? && l.fetch.inserted && Crawl.Updates(l.subs, l.fetch.shots) != []
  {
    if l.fetch.Shots? {
      AllFoundWhenUnchanged(l.subs, l.fetch.shots);
    }
  }

  lemma RowExact(l: Link, i: nat)
    requires WellRead(l.subs) && i < |l.subs|
    ensures RowMoved(l, i, RowsAfter(l.subs, l.subs, l.fetch)[i])
  {
    CommitsAlone(l);
    if l.fetch.Shots? && l.fetch.inserted {
      Crawl.WatermarkExact(l.subs, l.fetch.shots, i);
      if Crawl.Newer(l.subs[i], l.fetch.shots) {
        NewerIsTold(l.subs, l.fetch.shots, i);
        LatestOfAll(l.subs[i].last, l.fetch.shots, Crawl.Watermarks(l.subs, l.fetch.shots)[l.subs[i].user]);
      }
    }
  }

  lemma LatestOfAll(last: int, shots: seq<RawUpdate>, t: int)
    requires last < t && forall k :: 0 <= k < |shots| && last < shots[k].updatedAt ==> shots[k].updatedAt <= t
    ensures forall k :: 0 <= k < |shots| ==> shots[k].updatedAt <= t
  {
  }

  function RecordsOf(l: Link): seq<RawUpdate> {
    match l.fetch
    case ReadError => []
    case Failed(inserted) => if inserted then [Crawl.ErrorShot(l.path, Crawl.Users(l.subs))] else []
    case Shots(shots, inserted) => if inserted then Crawl.Updates(l.subs, shots) else []
  }

  lemma RecordsExact(l: Link)
    ensures LinkRecords(l, RecordsOf(l)) && multiset(RecordsOf(l)) == OutAlone(l)
  {
    CommitsAlone(l);
    match l.fetch
    case ReadError =>
    case Failed(inserted) => Crawl.ErrorShotAcceptedIff(l.path, l.subs);
    case Shots(shots, inserted) => Crawl.PlanMeans(l.subs, shots);
  }

  lemma {:induction false} TotalExact<T>(parts: seq<multiset<T>>, lists: seq<seq<T>>, n: nat) returns (whole: seq<T>)
    requires n <= |lists| == |parts| && forall l :: 0 <= l < |lists| ==> multiset(lists[l]) == parts[l]
    ensures Joins(whole, lists[..n]) && multiset(whole) == Total(parts, n)
  {
    if n == 0 {
      whole := [];
      JoinsNone<T>();
    } else {
      var front := TotalExact(parts, lists, n - 1);
      JoinsLast(front, lists[..n - 1], lists[n - 1]);
      assert lists[..n - 1] + [lists[n - 1]] == lists[..n];
      whole := front + lists[n - 1];
      TotalStep(parts, n, front, lists[n - 1]);
    }
  }

  lemma TotalStep<T>(parts: seq<multiset<T>>, n: nat, front: seq<T>, rs: seq<T>)
    requires 0 < n <= |parts| && multiset(front) == Total(parts, n - 1) && multiset(rs) == parts[n - 1]
    ensures multiset(front + rs) == Total(parts, n)
  {
  }

  lemma SequentialRecords(links: seq<Link>)
    ensures Enqueued(links, SequentialOut(links))
  {
    var lists := seq(|links|, l requires 0 <= l < |links| => RecordsOf(links[l]));
    forall l | 0 <= l < |links|
      ensures LinkRecords(links[l], lists[l]) && multiset(lists[l]) == Parts(links)[l]
    {
      RecordsExact(links[l]);
    }
    var recs := TotalExact(Parts(links), lists, |links|);
    assert lists[..|links|] == lists;
    assert AllRecords(links, lists);
  }

  /** Sequential processing does what it should to every row and enqueues what it should. */
  lemma SequentialMeans(links: seq<Link>)
    ensures ProcessedAll(links, SequentialRows(links), SequentialOut(links))
  {
    SequentialRecords(links);
    forall l: nat | l < |links| && WellRead(links[l].subs)
      ensures RowsMoved(links[l], SequentialRows(links)[l])
    {
      forall i | 0 <= i < |links[l].subs|
        ensures RowMoved(links[l], i, SequentialRows(links)[l][i])
      {
        RowExact(links[l], i);
      }
    }
  }

  // ---------- the pool ----------

  function Start(links: seq<Link>, workerCount: nat): Pool {
    Pool(0, seq(workerCount, _ => Idle), seq(|links|, i requires 0 <= i < |links| => links[i].subs), multiset{}, [])
  }

  predicate Enabled(links: seq<Link>, p: Pool, w: nat) {
    && w < |p.workers| && |p.rows| == |links|
    && (p.workers[w].Idle? ==> p.next < |links|)
    && (!p.workers[w].Idle? ==> p.workers[w].link < |links|)
  }

  /** Worker w takes its next step. */
  function Step(links: seq<Link>, p: Pool, w: nat): (q: Pool)
    requires Enabled(links, p, w)
    ensures |q.workers| == |p.workers| && |q.rows| == |p.rows|
  {
    match p.workers[w]
    case Idle => p.(workers := p.workers[w := Taken(p.next)], next := p.next + 1)
    case Taken(l) => p.(workers := p.workers[w := Planning(l, p.rows[l])])
    case Planning(l, read) =>
      p.(workers := p.workers[w := Idle],
         rows := p.rows[l := RowsAfter(p.rows[l], read, links[l].fetch)],
         out := p.out + OutOf(p.rows[l], read, links[l]),
         handled := p.handled + [l])
  }

  predicate Finished(links: seq<Link>, p: Pool) {
    p.next == |links| && forall w :: 0 <= w < |p.workers| ==> p.workers[w].Idle?
  }

  // ---------- invariants ----------

  predicate Holds(w: Worker, l: nat) {
    !w.Idle? && w.link == l
  }

  /** A link that was taken is in the hands of one worker or handled, not both, and handled once. */
  ghost predicate Once(links: seq<Link>, p: Pool) {
    && p.next <= |links|
    && (forall w :: 0 <= w < |p.workers| && !p.workers[w].Idle? ==> p.workers[w].link < p.next && p.workers[w].link !in p.handled)
    && (forall v, w :: 0 <= v < w < |p.workers| && !p.workers[v].Idle? && !p.workers[w].Idle? ==> p.workers[v].link != p.workers[w].link)
    && (forall i :: 0 <= i < |p.handled| ==> p.handled[i] < p.next)
    && (forall i, j :: 0 <= i < j < |p.handled| ==> p.handled[i] != p.handled[j])
    && (forall l: nat :: l < p.next ==> l in p.handled || Held(p, l))
  }

  predicate Held(p: Pool, l: nat) {
    exists w :: 0 <= w < |p.workers| && Holds(p.workers[w], l)
  }

  /** Nobody else touches the rows of a link. */
  predicate Own(links: seq<Link>, p: Pool) {
    && |p.rows| == |links|
    && (forall l: nat :: l < |links| ==>
         p.rows[l] == if l in p.handled then RowsAfter(links[l].subs, links[l].subs, links[l].fetch) else links[l].subs)
    && (forall w :: 0 <= w < |p.workers| && p.workers[w].Planning? && p.workers[w].link < |links| ==>
         p.workers[w].subs == links[p.workers[w].link].subs)
  }

  ghost predicate Inv(links: seq<Link>, p: Pool) {
    Once(links, p) && Own(links, p) && p.out == SumWhere(Parts(links), |links|, p.handled)
  }

  lemma {:induction false} SumStep<T>(parts: seq<multiset<T>>, n: nat, done: seq<nat>, l: nat)
    requires n <= |parts| && l < |parts| && l !in done
    ensures SumWhere(parts, n, done + [l]) == SumWhere(parts, n, done) + if l < n then parts[l] else multiset{}
  {
    if n > 0 {
      SumStep(parts, n - 1, done, l);
      assert n - 1 in done + [l] <==> n - 1 in done || n - 1 == l;
    }
  }

  lemma {:induction false} SumNone<T>(parts: seq<multiset<T>>, n: nat)
    requires n <= |parts|
    ensures SumWhere(parts, n, []) == multiset{}
  {
    if n > 0 {
      SumNone(parts, n - 1);
    }
  }

  lemma {:induction false} SumAll<T>(parts: seq<multiset<T>>, n: nat, done: seq<nat>)
    requires n <= |parts| && forall l: nat :: l < n ==> l in done
    ensures SumWhere(parts, n, done) == Total(parts, n)
  {
    if n > 0 {
      SumAll(parts, n - 1, done);
    }
  }

  lemma OnceStep(links: seq<Link>, p: Pool, w: nat)
    requires Inv(links, p) && Enabled(links, p, w)
    ensures Once(links, Step(links, p, w))
  {
    var q := Step(links, p, w);
    forall l: nat | l < q.next
      ensures l in q.handled || Held(q, l)
    {
      if l == p.next {
        assert Holds(q.workers[w], l);
      } else if l in p.handled {
        assert l in q.handled;
      } else {
        var v :| 0 <= v < |p.workers| && Holds(p.workers[v], l);
        if v == w && p.workers[w].Planning? {
          assert q.handled[|p.handled|] == l;
        } else {
          assert Holds(q.workers[v], l);
        }
      }
    }
  }

  lemma OwnStep(links: seq<Link>, p: Pool, w: nat)
    requires Inv(links, p) && Enabled(links, p, w)
    ensures Own(links, Step(links, p, w))
  {
  }

  lemma InvStep(links: seq<Link>, p: Pool, w: nat)
    requires Inv(links, p) && Enabled(links, p, w)
    ensures Inv(links, Step(links, p, w))
  {
    OnceStep(links, p, w);
    OwnStep(links, p, w);
    if p.workers[w].Planning? {
      SumStep(Parts(links), |links|, p.handled, p.workers[w].link);
    }
  }

  lemma InvStart(links: seq<Link>, workerCount: nat)
    ensures Inv(links, Start(links, workerCount))
  {
    SumNone(Parts(links), |links|);
  }

  lemma AllHandled(links: seq<Link>, p: Pool)
    requires Once(links, p) && Finished(links, p)
    ensures forall l: nat :: l < |links| ==> l in p.handled
  {
    forall l: nat | l < |links|
      ensures l in p.handled
    {
      assert !Held(p, l);
    }
  }

  lemma RowsSequential(links: seq<Link>, p: Pool)
    requires Own(links, p) && forall l: nat :: l < |links| ==> l in p.handled
    ensures p.rows == SequentialRows(links)
  {
  }

  /** Confluence: however the workers interleave, a finished pool leaves the rows and the outbox records of
      sequential processing, and has handled each link exactly once. */
  lemma FinishedIsSequential(links: seq<Link>, p: Pool)
    requires Inv(links, p) && Finished(links, p)
    ensures p.rows == SequentialRows(links) && p.out == SequentialOut(links)
    ensures ProcessedAll(links, p.rows, p.out)
    ensures forall l: nat :: l < |links| ==> l in p.handled
    ensures forall i, j :: 0 <= i < j < |p.handled| ==> p.handled[i] != p.handled[j]
  {
    AllHandled(links, p);
    RowsSequential(links, p);
    SumAll(Parts(links), |links|, p.handled);
    SequentialMeans(links);
  }

  // ---------- runs ----------

  /** A run is the list of workers in the order they step. */
  ghost predicate Runs(links: seq<Link>, workerCount: nat, steps: seq<nat>, trace: seq<Pool>) {
    && |trace| == |steps| + 1 && trace[0] == Start(links, workerCount)
    && forall k :: 0 <= k < |steps| ==> Enabled(links, trace[k], steps[k]) && trace[k + 1] == Step(links, trace[k], steps[k])
  }

  lemma {:induction false} InvRun(links: seq<Link>, workerCount: nat, steps: seq<nat>, trace: seq<Pool>, k: nat)
    requires Runs(links, workerCount, steps, trace) && k < |trace|
    ensures Inv(links, trace[k])
  {
    if k == 0 {
      InvStart(links, workerCount);
    } else {
      InvRun(links, workerCount, steps, trace, k - 1);
      InvStep(links, trace[k - 1], steps[k - 1]);
      assert trace[k - 1 + 1] == Step(links, trace[k - 1], steps[k - 1]);
    }
  }

  /** Any two complete runs agree, whatever their schedules and numbers of workers. */
  lemma Confluence(links: seq<Link>, n: nat, a: seq<nat>, ta: seq<Pool>, m: nat, b: seq<nat>, tb: seq<Pool>)
    requires Runs(links, n, a, ta) && Finished(links, ta[|a|])
    requires Runs(links, m, b, tb) && Finished(links, tb[|b|])
    ensures ta[|a|].rows == tb[|b|].rows && ta[|a|].out == tb[|b|].out
  {
    InvRun(links, n, a, ta, |a|);
    InvRun(links, m, b, tb, |b|);
    FinishedIsSequential(links, ta[|a|]);
    FinishedIsSequential(links, tb[|b|]);
  }

  function Weight(w: Worker): nat {
    match w
    case Idle => 0
    case Taken(_) => 2
    case Planning(_, _) => 1
  }

  /** Steps the workers still have to make for the links they hold. */
  function Busy(workers: seq<Worker>): nat {
    if workers == [] then 0
    else
      var w := workers[|workers| - 1];
      Busy(workers[..|workers| - 1]) + Weight(w)
  }

  function Remaining(links: seq<Link>, p: Pool): int {
    3 * (|links| - p.next) + Busy(p.workers)
  }

  lemma {:induction false} BusyUpdate(workers: seq<Worker>, w: nat, x: Worker)
    requires w < |workers|
    ensures Busy(workers[w := x]) == Busy(workers) - Weight(workers[w]) + Weight(x)
  {
    var n := |workers| - 1;
    if w == n {
      assert workers[w := x][..n] == workers[..n];
    } else {
      BusyUpdate(workers[..n], w, x);
      assert workers[w := x][..n] == workers[..n][w := x];
    }
  }

  /** Every step makes progress, and with at least one worker an unfinished pool can step. */
  lemma Progress(links: seq<Link>, p: Pool)
    requires Inv(links, p)
    ensures forall w: nat :: Enabled(links, p, w) ==> Remaining(links, Step(links, p, w)) == Remaining(links, p) - 1
    ensures |p.workers| > 0 && !Finished(links, p) ==> exists w: nat :: Enabled(links, p, w)
  {
    forall w: nat | Enabled(links, p, w)
      ensures Remaining(links, Step(links, p, w)) == Remaining(links, p) - 1
    {
      BusyUpdate(p.workers, w, Step(links, p, w).workers[w]);
    }
    if |p.workers| > 0 && !Finished(links, p) {
      if p.next < |links| {
        assert Enabled(links, p, 0);
      } else {
        var w :| 0 <= w < |p.workers| && !p.workers[w].Idle?;
        assert Enabled(links, p, w);
      }
    }
  }

  /** processLinks: any enabled worker moves next. Without workers no link is handled. */
  method ProcessLinks(links: seq<Link>, workerCount: nat) returns (rows: seq<seq<Crawl.Sub>>, out: multiset<RawUpdate>)
    ensures workerCount > 0 ==> rows == SequentialRows(links) && out == SequentialOut(links) && ProcessedAll(links, rows, out)
    ensures workerCount == 0 ==> out == multiset{} && |rows| == |links| && forall l :: 0 <= l < |links| ==> rows[l] == links[l].subs
  {
    var p := Start(links, workerCount);
    InvStart(links, workerCount);
    if workerCount > 0 {
      while !Finished(links, p)
        invariant Inv(links, p) && |p.workers| == workerCount
        decreases Remaining(links, p)
      {
        Progress(links, p);
        var w: nat :| w < |p.workers| && Enabled(links, p, w);
        InvStep(links, p, w);
        p := Step(links, p, w);
      }
      FinishedIsSequential(links, p);
    }
    rows, out := p.rows, p.out;
  }
}
