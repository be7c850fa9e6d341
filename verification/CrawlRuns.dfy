/** All runs of one link's crawls against users who come and go. A crawl reads the subscribers, talks to the
    network, and commits later; the subscribers may have changed in between. */
module CrawlRuns {
  import opened Records
  import Crawl
  import Machines

  /** A subscription row; serial tells a user's successive subscriptions apart. */
  datatype Row = Row(serial: nat, last: int)

  /** A subscriber as a crawl read it. */
  datatype Reader = Reader(user: int, serial: nat, last: int)

  /** A committed crawl: its outbox rows are Crawl.Updates(SubsOf(readers), shots). */
  datatype Entry = Entry(readers: seq<Reader>, shots: seq<RawUpdate>)

  datatype State = State(subs: map<int, Row>, next: nat, open: map<nat, seq<Reader>>, log: seq<Entry>)

  const INIT := State(map[], 0, map[], [])

  datatype Action =
    | Subscribe(user: int)
    | Unsubscribe(user: int)
    | Begin(c: nat, order: seq<int>)
    | Finish(c: nat, shots: seq<RawUpdate>, dbOk: bool)

  function SubsOf(readers: seq<Reader>): (subs: seq<Crawl.Sub>)
    ensures |subs| == |readers|
  {
    seq(|readers|, i requires 0 <= i < |readers| => Crawl.Sub(readers[i].user, readers[i].last))
  }

  function ReadersOf(subs: map<int, Row>, order: seq<int>): (readers: seq<Reader>)
    requires forall i :: 0 <= i < |order| ==> order[i] in subs
    ensures |readers| == |order|
  {
    seq(|order|, i requires 0 <= i < |order| => Reader(order[i], subs[order[i]].serial, subs[order[i]].last))
  }

  ghost predicate Enabled(s: State, a: Action) {
    match a
    case Subscribe(user) => user !in s.subs
    case Unsubscribe(user) => user in s.subs
    case Begin(c, order) =>
      && c !in s.open
      && (forall i, j :: 0 <= i < j < |order| ==> order[i] != order[j])
      && (forall i :: 0 <= i < |order| ==> order[i] in s.subs)
      && (forall u :: u in s.subs ==> u in order)
    case Finish(c, shots, dbOk) => c in s.open
  }

  /** The plan is not empty, every planned watermark finds its row, and the database plays along. */
  predicate Commits(s: State, readers: seq<Reader>, shots: seq<RawUpdate>, dbOk: bool) {
    && dbOk
    && Crawl.Updates(SubsOf(readers), shots) != []
    && Crawl.AllFound(map u | u in s.subs :: s.subs[u].last, Crawl.Watermarks(SubsOf(readers), shots))
  }

  function Written(subs: map<int, Row>, w: map<int, int>): map<int, Row> {
    map u | u in subs :: if u in w then subs[u].(last := w[u]) else subs[u]
  }

  /** A new subscription starts at the zero time. */
  ghost function Apply(s: State, a: Action): State
    requires Enabled(s, a)
  {
    match a
    case Subscribe(user) => s.(subs := s.subs[user := Row(s.next, 0)], next := s.next + 1)
    case Unsubscribe(user) => s.(subs := map u | u in s.subs && u != user :: s.subs[u])
    case Begin(c, order) =>
      s.(open := s.open[c := ReadersOf(s.subs, order)])
    case Finish(c, shots, dbOk) =>
      var rest := WithoutKey(s.open, c);
      if Commits(s, s.open[c], shots, dbOk) then
        s.(subs := Written(s.subs, Crawl.Watermarks(SubsOf(s.open[c]), shots)), open := rest,
           log := s.log + [Entry(s.open[c], shots)])
      else s.(open := rest)
  }

  /** No crawl of the link starts while another is under way. */
  ghost predicate NoOverlap(s: State, a: Action) {
    a.Begin? ==> s.open == map[]
  }

  // ---------- invariants ----------

  /** The crawl enqueued a shot of time t for this subscription. */
  ghost predicate Told(e: Entry, user: int, serial: nat, t: int) {
    exists i, j :: ToldBy(e, user, serial, t, i, j)
  }

  predicate ToldBy(e: Entry, user: int, serial: nat, t: int, i: int, j: int) {
    && 0 <= i < |e.readers| && e.readers[i].user == user && e.readers[i].serial == serial
    && 0 <= j < |e.shots| && e.shots[j].updatedAt == t && e.readers[i].last < t
  }

  predicate Rows(s: State) {
    forall u :: u in s.subs ==> s.subs[u].serial < s.next && 0 <= s.subs[u].last
  }

  /** A read subscription still has the watermark that was read, unless the user left; a user who came
      back meanwhile is at the zero time. */
  predicate Current(s: State, r: Reader) {
    && r.serial < s.next && 0 <= r.last
    && (r.user in s.subs ==> if s.subs[r.user].serial == r.serial then s.subs[r.user].last == r.last else s.subs[r.user].last == 0)
  }

  ghost predicate Open(s: State) {
    && (forall c, d :: c in s.open && d in s.open ==> c == d)
    && (forall c :: c in s.open ==> Crawl.DistinctUsers(SubsOf(s.open[c])))
    && (forall c, i :: c in s.open && 0 <= i < |s.open[c]| ==> Current(s, s.open[c][i]))
  }

  /** Whatever a subscription was told about is not newer than its watermark. */
  ghost predicate Behind(s: State, user: int, serial: nat, t: int) {
    && serial < s.next
    && (user in s.subs && s.subs[user].serial == serial ==> t <= s.subs[user].last)
    && (forall c, i :: c in s.open && 0 <= i < |s.open[c]| && s.open[c][i].user == user && s.open[c][i].serial == serial ==>
         t <= s.open[c][i].last)
  }

  ghost predicate Past(s: State) {
    forall k, user, serial, t :: 0 <= k < |s.log| && Told(s.log[k], user, serial, t) ==> Behind(s, user, serial, t)
  }

  ghost predicate Increasing(s: State) {
    forall k, l, user, serial, t, t2 {:trigger Told(s.log[k], user, serial, t), Told(s.log[l], user, serial, t2)} ::
      0 <= k < l < |s.log| && Told(s.log[k], user, serial, t) && Told(s.log[l], user, serial, t2) ==> t < t2
  }

  ghost predicate Logged(s: State) {
    forall k :: 0 <= k < |s.log| ==> Crawl.DistinctUsers(SubsOf(s.log[k].readers))
  }

  ghost predicate Inv(s: State) {
    Rows(s) && Open(s) && Past(s) && Increasing(s) && Logged(s)
  }

  // ---------- one step ----------

  /** Where the commit puts the watermark of a subscription that it read. */
  lemma WrittenExact(s: State, c: nat, shots: seq<RawUpdate>, i: nat)
    requires Rows(s) && Open(s) && c in s.open && i < |s.open[c]|
    ensures var r := s.open[c][i]; var w := Crawl.Watermarks(SubsOf(s.open[c]), shots);
      && (r.user in w ==> r.last < w[r.user])
      && (forall k :: 0 <= k < |shots| && r.last < shots[k].updatedAt ==> r.user in w && shots[k].updatedAt <= w[r.user])
  {
    var subs := SubsOf(s.open[c]);
    assert Current(s, s.open[c][i]);
    Crawl.WatermarkExact(subs, shots, i);
    forall k | 0 <= k < |shots| && s.open[c][i].last < shots[k].updatedAt
      ensures s.open[c][i].user in Crawl.Watermarks(subs, shots)
    {
      assert Crawl.Newer(subs[i], shots);
    }
  }

  /** Last_update never decreases while a subscription lives. */
  lemma NeverDecreases(s: State, a: Action, user: int)
    requires Inv(s) && Enabled(s, a) && user in s.subs && user in Apply(s, a).subs
    requires Apply(s, a).subs[user].serial == s.subs[user].serial
    ensures s.subs[user].last <= Apply(s, a).subs[user].last
  {
    if a.Finish? {
      var readers := s.open[a.c];
      if user in Crawl.Watermarks(SubsOf(readers), a.shots) {
        Crawl.WatermarkUsers(SubsOf(readers), a.shots, user);
        var i :| 0 <= i < |SubsOf(readers)| && SubsOf(readers)[i].user == user;
        WrittenExact(s, a.c, a.shots, i);
        assert Current(s, readers[i]);
      }
    }
  }

  lemma RowsStep(s: State, a: Action)
    requires Inv(s) && Enabled(s, a)
    ensures Rows(Apply(s, a))
  {
    var t := Apply(s, a);
    forall u | u in t.subs
      ensures t.subs[u].serial < t.next && 0 <= t.subs[u].last
    {
      if u in s.subs {
        NeverDecreases(s, a, u);
      }
    }
  }

  lemma OpenStep(s: State, a: Action)
    requires Inv(s) && Enabled(s, a) && NoOverlap(s, a)
    ensures Open(Apply(s, a))
  {
    var t := Apply(s, a);
    if a.Begin? {
      assert forall c :: c in t.open ==> c == a.c;
    } else if a.Finish? {
      assert forall c :: c !in t.open;
    } else {
      assert t.open == s.open;
      forall c, i | c in t.open && 0 <= i < |t.open[c]|
        ensures Current(t, t.open[c][i])
      {
        assert Current(s, s.open[c][i]);
      }
    }
  }

  lemma BehindStays(s: State, a: Action, user: int, serial: nat, t: int)
    requires Inv(s) && Enabled(s, a) && Behind(s, user, serial, t)
    ensures Behind(Apply(s, a), user, serial, t)
  {
    var n := Apply(s, a);
    if user in n.subs && n.subs[user].serial == serial && user in s.subs {
      NeverDecreases(s, a, user);
    }
  }

  /** What the committing crawl enqueues is newer than anything enqueued before. */
  lemma NewEntry(s: State, c: nat, shots: seq<RawUpdate>, user: int, serial: nat, t: int)
    requires Inv(s) && c in s.open && Commits(s, s.open[c], shots, true) && Told(Entry(s.open[c], shots), user, serial, t)
    ensures Behind(Apply(s, Finish(c, shots, true)), user, serial, t)
    ensures forall k, t0 :: 0 <= k < |s.log| && Told(s.log[k], user, serial, t0) ==> t0 < t
  {
    var e := Entry(s.open[c], shots);
    var i, j :| ToldBy(e, user, serial, t, i, j);
    assert Current(s, s.open[c][i]);
    WrittenExact(s, c, shots, i);
    forall k, t0 | 0 <= k < |s.log| && Told(s.log[k], user, serial, t0)
      ensures t0 < t
    {
      assert Behind(s, user, serial, t0);
    }
  }

  lemma LogStep(s: State, a: Action)
    requires Inv(s) && Enabled(s, a)
    ensures Past(Apply(s, a)) && Increasing(Apply(s, a))
  {
    var n := Apply(s, a);
    forall k, user, serial, t | 0 <= k < |n.log| && Told(n.log[k], user, serial, t)
      ensures Behind(n, user, serial, t)
    {
      if k < |s.log| {
        BehindStays(s, a, user, serial, t);
      } else {
        NewEntry(s, a.c, a.shots, user, serial, t);
      }
    }
    forall k, l, user, serial, t, t2 | 0 <= k < l < |n.log| && Told(n.log[k], user, serial, t) && Told(n.log[l], user, serial, t2)
      ensures t < t2
    {
      if l == |s.log| {
        NewEntry(s, a.c, a.shots, user, serial, t2);
      }
    }
  }

  lemma InvStep(s: State, a: Action)
    requires Inv(s) && Enabled(s, a) && NoOverlap(s, a)
    ensures Inv(Apply(s, a))
  {
    RowsStep(s, a);
    OpenStep(s, a);
    LogStep(s, a);
  }

  // ---------- runs ----------

  ghost predicate Steps(s: State, a: Action, t: State) {
    Enabled(s, a) && t == Apply(s, a)
  }

  /** trace[k] is the state before acts[k]. */
  ghost predicate Run(trace: seq<State>, acts: seq<Action>) {
    Machines.Path(Steps, trace, acts) && trace[0] == INIT
  }

  ghost predicate SequentialSteps(s: State, a: Action, t: State) {
    Steps(s, a, t) && NoOverlap(s, a)
  }

  ghost predicate Sequential(trace: seq<State>, acts: seq<Action>) {
    Machines.Path(SequentialSteps, trace, acts) && trace[0] == INIT
  }

  lemma InvRun(trace: seq<State>, acts: seq<Action>, k: nat)
    requires Sequential(trace, acts) && k < |trace|
    ensures Inv(trace[k])
  {
    forall s, a, t | Inv(s) && SequentialSteps(s, a, t)
      ensures Inv(t)
    {
      InvStep(s, a);
    }
    Machines.Always(SequentialSteps, Inv, trace, acts, k);
  }

  /** In runs without overlapping crawls the watermark of a living subscription never decreases. */
  lemma WatermarkMonotone(trace: seq<State>, acts: seq<Action>, k: nat, user: int)
    requires Sequential(trace, acts) && k < |acts|
    requires user in trace[k].subs && user in trace[k + 1].subs && trace[k].subs[user].serial == trace[k + 1].subs[user].serial
    ensures trace[k].subs[user].last <= trace[k + 1].subs[user].last
  {
    InvRun(trace, acts, k);
    assert SequentialSteps(trace[k], acts[k], trace[k + 1]);
    NeverDecreases(trace[k], acts[k], user);
  }

  /** The outbox row of shot j in this entry lists the user. */
  predicate Listed(e: Entry, user: int, j: int) {
    0 <= j < |e.shots| && user in Crawl.Behind(SubsOf(e.readers), e.shots[j].updatedAt)
  }

  /** Reader i and shot j: the shot is enqueued for the reader exactly when it is newer than the watermark
      that was read. This is completeness and soundness of a committed crawl. */
  lemma ListedExact(e: Entry, i: nat, j: nat)
    requires Crawl.DistinctUsers(SubsOf(e.readers)) && i < |e.readers| && j < |e.shots|
    ensures Listed(e, e.readers[i].user, j) <==> ToldBy(e, e.readers[i].user, e.readers[i].serial, e.shots[j].updatedAt, i, j)
  {
    Crawl.BehindExact(SubsOf(e.readers), e.shots[j].updatedAt, e.readers[i].user);
    assert SubsOf(e.readers)[i] == Crawl.Sub(e.readers[i].user, e.readers[i].last);
    if Listed(e, e.readers[i].user, j) {
      var x :| 0 <= x < |SubsOf(e.readers)| && SubsOf(e.readers)[x].user == e.readers[i].user && SubsOf(e.readers)[x].last < e.shots[j].updatedAt;
      assert SubsOf(e.readers)[i].user == SubsOf(e.readers)[x].user;
      assert x == i;
    }
  }

  /** A subscription is told about each (shot, time) version in at most one crawl: every later crawl
      enqueues only strictly newer shots for it. */
  lemma VersionOnce(trace: seq<State>, acts: seq<Action>, n: nat, k: nat, l: nat, x: nat, y: nat, i: nat, j: nat)
    requires Sequential(trace, acts) && n < |trace| && k < l < |trace[n].log|
    requires var e, f := trace[n].log[k], trace[n].log[l];
      && x < |e.readers| && y < |f.readers| && e.readers[x].user == f.readers[y].user && e.readers[x].serial == f.readers[y].serial
      && Listed(e, e.readers[x].user, i) && Listed(f, f.readers[y].user, j)
    ensures trace[n].log[k].shots[i].updatedAt < trace[n].log[l].shots[j].updatedAt
  {
    InvRun(trace, acts, n);
    var e, f := trace[n].log[k], trace[n].log[l];
    ListedExact(e, x, i);
    ListedExact(f, y, j);
    assert Told(e, e.readers[x].user, e.readers[x].serial, e.shots[i].updatedAt);
    assert Told(f, e.readers[x].user, e.readers[x].serial, f.shots[j].updatedAt);
  }

  // ---------- overlapping crawls ----------

  /** What every run keeps, overlapping or not. */
  ghost predicate Sound(s: State) {
    && Rows(s)
    && (forall c :: c in s.open ==> Crawl.DistinctUsers(SubsOf(s.open[c])))
    && (forall c, i :: c in s.open && 0 <= i < |s.open[c]| ==> 0 <= s.open[c][i].last)
  }

  lemma WrittenAbove(subs: seq<Crawl.Sub>, shots: seq<RawUpdate>, user: int)
    requires Crawl.DistinctUsers(subs) && forall i :: 0 <= i < |subs| ==> 0 <= subs[i].last
    requires user in Crawl.Watermarks(subs, shots)
    ensures 0 < Crawl.Watermarks(subs, shots)[user]
  {
    Crawl.WatermarkUsers(subs, shots, user);
    var i :| 0 <= i < |subs| && subs[i].user == user;
    Crawl.WatermarkExact(subs, shots, i);
  }

  lemma SoundStep(s: State, a: Action)
    requires Sound(s) && Enabled(s, a)
    ensures Sound(Apply(s, a))
  {
    var t := Apply(s, a);
    if a.Finish? {
      var subs := SubsOf(s.open[a.c]);
      forall u | u in t.subs
        ensures 0 <= t.subs[u].last
      {
        if u in Crawl.Watermarks(subs, a.shots) {
          WrittenAbove(subs, a.shots, u);
        }
      }
    }
  }

  lemma SoundRun(trace: seq<State>, acts: seq<Action>, k: nat)
    requires Run(trace, acts) && k < |trace|
    ensures Sound(trace[k])
  {
    forall s, a, t | Sound(s) && Steps(s, a, t)
      ensures Sound(t)
    {
      SoundStep(s, a);
    }
    Machines.Always(Steps, Sound, trace, acts, k);
  }

  /** Everybody whom a shot of time t concerns still has a row. */
  predicate AllThere(s: State, readers: seq<Reader>, t: int) {
    forall j :: 0 <= j < |readers| && readers[j].last < t ==> readers[j].user in s.subs
  }

  /** The last_update values as the commit finds them. */
  function Lasts(s: State): map<int, int> {
    map u | u in s.subs :: s.subs[u].last
  }

  /** A fetch of one shot commits exactly when it concerns somebody, all of whom still have a row. */
  lemma OneShotCommits(s: State, c: nat, v: RawUpdate)
    requires Sound(s) && c in s.open
    ensures Commits(s, s.open[c], [v], true) <==>
      AllThere(s, s.open[c], v.updatedAt) && exists j :: 0 <= j < |s.open[c]| && s.open[c][j].last < v.updatedAt
  {
    var readers := s.open[c];
    var subs := SubsOf(readers);
    var w := Crawl.Watermarks(subs, [v]);
    forall j | 0 <= j < |readers|
      ensures readers[j].user in w <==> readers[j].last < v.updatedAt
    {
      Crawl.WatermarkExact(subs, [v], j);
      assert Crawl.Newer(subs[j], [v]) <==> subs[j].last < [v][0].updatedAt;
    }
    forall u | u in w
      ensures exists j :: 0 <= j < |readers| && readers[j].user == u
    {
      Crawl.WatermarkUsers(subs, [v], u);
      var j :| 0 <= j < |subs| && subs[j].user == u;
      assert readers[j].user == u;
    }
    OneShotPlan(subs, v);
    assert Crawl.AllFound(Lasts(s), w) <==> AllThere(s, readers, v.updatedAt);
    if exists j :: 0 <= j < |readers| && readers[j].last < v.updatedAt {
      var j :| 0 <= j < |readers| && readers[j].last < v.updatedAt;
      assert subs[j].last < v.updatedAt;
    }
    if exists j :: 0 <= j < |subs| && subs[j].last < v.updatedAt {
      var j :| 0 <= j < |subs| && subs[j].last < v.updatedAt;
      assert readers[j].last < v.updatedAt;
    }
  }

  lemma OneShotPlan(subs: seq<Crawl.Sub>, v: RawUpdate)
    ensures Crawl.Updates(subs, [v]) != [] <==> exists j :: 0 <= j < |subs| && subs[j].last < v.updatedAt
  {
    assert [v][..0] == [];
    var chats := Crawl.Behind(subs, v.updatedAt);
    if exists j :: 0 <= j < |subs| && subs[j].last < v.updatedAt {
      var j :| 0 <= j < |subs| && subs[j].last < v.updatedAt;
      Crawl.BehindExact(subs, v.updatedAt, subs[j].user);
    } else if chats != [] {
      Crawl.BehindExact(subs, v.updatedAt, chats[0]);
    }
  }

  function ShotAt(t: int): RawUpdate {
    RawUpdate(0, "", "", "", "", [], t)
  }

  /** Finishing crawl c with these shots puts the user's watermark below b. */
  ghost predicate PutsBelow(s: State, c: nat, shots: seq<RawUpdate>, user: int, b: int)
    requires c in s.open
  {
    var w := Crawl.Watermarks(SubsOf(s.open[c]), shots);
    Commits(s, s.open[c], shots, true) && user in w && user in s.subs && w[user] < b
  }

  /** An open crawl has a fetch that puts a subscriber's watermark below b exactly when the watermark it
      read leaves room for one, and everybody who is no further ahead still has a row. */
  lemma PutsBelowIff(s: State, c: nat, i: nat, b: int)
    requires Sound(s) && c in s.open && i < |s.open[c]| && s.open[c][i].user in s.subs
    ensures (exists shots :: PutsBelow(s, c, shots, s.open[c][i].user, b)) <==>
      s.open[c][i].last + 1 < b && AllThere(s, s.open[c], s.open[c][i].last + 1)
  {
    var readers := s.open[c];
    var r := readers[i];
    if exists shots :: PutsBelow(s, c, shots, r.user, b) {
      var shots :| PutsBelow(s, c, shots, r.user, b);
      BelowNeeds(s, c, i, b, shots);
    }
    if r.last + 1 < b && AllThere(s, readers, r.last + 1) {
      var v := ShotAt(r.last + 1);
      OneShotCommits(s, c, v);
      Crawl.WatermarkExact(SubsOf(readers), [v], i);
      assert Crawl.Newer(SubsOf(readers)[i], [v]) by {
        assert SubsOf(readers)[i].last < [v][0].updatedAt;
      }
      assert PutsBelow(s, c, [v], r.user, b);
    }
  }

  lemma BelowNeeds(s: State, c: nat, i: nat, b: int, shots: seq<RawUpdate>)
    requires Sound(s) && c in s.open && i < |s.open[c]| && PutsBelow(s, c, shots, s.open[c][i].user, b)
    ensures s.open[c][i].last + 1 < b && AllThere(s, s.open[c], s.open[c][i].last + 1)
  {
    var readers := s.open[c];
    var subs := SubsOf(readers);
    Crawl.WatermarkExact(subs, shots, i);
    assert Crawl.Newer(subs[i], shots);
    var k :| 0 <= k < |shots| && subs[i].last < shots[k].updatedAt;
    forall j | 0 <= j < |readers| && readers[j].last < readers[i].last + 1
      ensures readers[j].user in s.subs
    {
      Crawl.WatermarkExact(subs, shots, j);
      assert subs[j].last < shots[k].updatedAt;
      assert Crawl.Newer(subs[j], shots);
      assert readers[j].user in Lasts(s);
    }
  }

  /** Some fetch of the open crawl lowers the watermark of this row. */
  ghost predicate CanLower(s: State, c: nat, user: int)
    requires c in s.open && user in s.subs
  {
    exists shots :: Lowers(s, c, shots, user)
  }

  ghost predicate Lowers(s: State, c: nat, shots: seq<RawUpdate>, user: int)
    requires c in s.open && user in s.subs
  {
    var t := Apply(s, Finish(c, shots, true)); user in t.subs && t.subs[user].last < s.subs[user].last
  }

  /** Exactly when a watermark can move back: the crawl read it at least two below where it is now (another
      crawl raised it meanwhile), and everybody who is no further ahead still has a row. */
  lemma LowersIff(s: State, c: nat, i: nat)
    requires Sound(s) && c in s.open && i < |s.open[c]| && s.open[c][i].user in s.subs
    ensures var r := s.open[c][i]; CanLower(s, c, r.user) <==>
      r.last + 1 < s.subs[r.user].last && AllThere(s, s.open[c], r.last + 1)
  {
    var r := s.open[c][i];
    PutsBelowIff(s, c, i, s.subs[r.user].last);
    forall shots
      ensures Lowers(s, c, shots, r.user) <==> PutsBelow(s, c, shots, r.user, s.subs[r.user].last)
    {
    }
  }

  /** A crawl that begins now and fetches just v tells the subscription about v. */
  ghost predicate NextTells(s: State, c: nat, order: seq<int>, user: int, v: RawUpdate)
    requires Enabled(s, Begin(c, order)) && user in s.subs
  {
    var t := Apply(s, Begin(c, order));
    Commits(t, t.open[c], [v], true) && Told(Entry(t.open[c], [v]), user, s.subs[user].serial, v.updatedAt)
  }

  /** That is so exactly when v is newer than the watermark. */
  lemma NextTellsIff(s: State, c: nat, order: seq<int>, user: int, v: RawUpdate)
    requires Sound(s) && Enabled(s, Begin(c, order)) && user in s.subs
    ensures NextTells(s, c, order, user, v) <==> s.subs[user].last < v.updatedAt
  {
    var t := Apply(s, Begin(c, order));
    var i :| 0 <= i < |order| && order[i] == user;
    SoundStep(s, Begin(c, order));
    OneShotCommits(t, c, v);
    var e := Entry(t.open[c], [v]);
    assert t.open[c][i] == Reader(user, s.subs[user].serial, s.subs[user].last);
    if s.subs[user].last < v.updatedAt {
      assert ToldBy(e, user, s.subs[user].serial, v.updatedAt, i, 0);
    }
    if Told(e, user, s.subs[user].serial, v.updatedAt) {
      var x, j :| ToldBy(e, user, s.subs[user].serial, v.updatedAt, x, j);
      assert order[x] == order[i];
    }
  }

  /** The next crawl repeats no version that the watermark covers; this is exactly when crawl c can change
      that for version v, so that a crawl begun after it enqueues v again. */
  lemma RepeatedIff(s: State, c: nat, i: nat, v: RawUpdate)
    requires Sound(s) && c in s.open && i < |s.open[c]| && s.open[c][i].user in s.subs
    requires v.updatedAt <= s.subs[s.open[c][i].user].last
    ensures (exists shots :: CoversNoMore(s, c, shots, s.open[c][i].user, v)) <==>
      s.open[c][i].last + 1 < v.updatedAt && AllThere(s, s.open[c], s.open[c][i].last + 1)
  {
    var r := s.open[c][i];
    PutsBelowIff(s, c, i, v.updatedAt);
    forall shots
      ensures CoversNoMore(s, c, shots, r.user, v) <==> PutsBelow(s, c, shots, r.user, v.updatedAt)
    {
    }
  }

  /** After the crawl finishes with these shots the watermark is below v, so by NextTellsIff the next crawl
      that fetches v enqueues it. */
  ghost predicate CoversNoMore(s: State, c: nat, shots: seq<RawUpdate>, user: int, v: RawUpdate)
    requires c in s.open && user in s.subs
  {
    var t := Apply(s, Finish(c, shots, true)); user in t.subs && t.subs[user].last < v.updatedAt
  }

  /** And exactly when the open crawl itself can enqueue such a version. */
  lemma EnqueuedByOpenIff(s: State, c: nat, i: nat, v: RawUpdate)
    requires Sound(s) && c in s.open && i < |s.open[c]|
    ensures Commits(s, s.open[c], [v], true) && ToldBy(Entry(s.open[c], [v]), s.open[c][i].user, s.open[c][i].serial, v.updatedAt, i, 0)
      <==> s.open[c][i].last < v.updatedAt && AllThere(s, s.open[c], v.updatedAt)
  {
    OneShotCommits(s, c, v);
  }

  /** One subscriber, two crawls under way. */
  ghost function TwoOpen(): State {
    var one := Apply(INIT, Subscribe(1));
    Apply(Apply(one, Begin(7, [1])), Begin(8, [1]))
  }

  /** The crawl job is not a singleton. Two crawls that both read the zero watermark and commit the newer
      shot first leave the watermark at the older one, and a third crawl enqueues the newer shot again. */
  lemma OverlapRepeats(older: RawUpdate, newer: RawUpdate)
    requires 0 < older.updatedAt < newer.updatedAt
    ensures 7 in TwoOpen().open && 8 in TwoOpen().open && 7 in Apply(TwoOpen(), Finish(8, [newer], true)).open
    ensures var t := Apply(Apply(TwoOpen(), Finish(8, [newer], true)), Finish(7, [older], true));
      && 1 in t.subs && t.subs[1].last == older.updatedAt
      && Crawl.Updates([Crawl.Sub(1, t.subs[1].last)], [newer]) == [newer.(chats := [1])]
  {
    var s := TwoOpen();
    assert s.open[7] == [Reader(1, 0, 0)] && s.open[8] == [Reader(1, 0, 0)];
    assert SubsOf(s.open[7]) == [Crawl.Sub(1, 0)] && SubsOf(s.open[8]) == [Crawl.Sub(1, 0)];
    OneShot(newer, 0);
    OneShot(older, 0);
    OneShot(newer, older.updatedAt);
    var m := Apply(s, Finish(8, [newer], true));
    assert m.open[7] == s.open[7];
    assert m.subs[1].last == newer.updatedAt;
  }

  lemma OneShot(shot: RawUpdate, last: int)
    requires 0 <= last < shot.updatedAt
    ensures Crawl.Updates([Crawl.Sub(1, last)], [shot]) == [shot.(chats := [1])]
    ensures Crawl.Watermarks([Crawl.Sub(1, last)], [shot]) == map[1 := shot.updatedAt]
  {
    var subs := [Crawl.Sub(1, last)];
    assert subs[..0] == [] && [shot][..0] == [];
    assert Crawl.Behind(subs, shot.updatedAt) == [1];
    assert Crawl.Raise(subs, map[], shot.updatedAt) == map[1 := shot.updatedAt];
  }
}
