/** One link's crawl: which fetched shots are enqueued for which subscribers, and how the subscribers'
    last_update watermarks move. Times are counted from Go's zero time, which is 0. */
module Crawl {
  import opened Records
  import opened Selection

  datatype Sub = Sub(user: int, last: int)

  predicate DistinctUsers(subs: seq<Sub>) {
    forall i, j :: 0 <= i < j < |subs| ==> subs[i].user != subs[j].user
  }

  // ---------- the plan ----------

  /** Users whose watermark is before t. */
  function Behind(subs: seq<Sub>, t: int): seq<int> {
    if subs == [] then []
    else
      var s := subs[|subs| - 1];
      Behind(subs[..|subs| - 1], t) + if s.last < t then [s.user] else []
  }

  /** The shots to enqueue, each addressed to the users that are behind it. */
  function Updates(subs: seq<Sub>, shots: seq<RawUpdate>): seq<RawUpdate> {
    if shots == [] then []
    else
      var s := shots[|shots| - 1];
      var chats := Behind(subs, s.updatedAt);
      Updates(subs, shots[..|shots| - 1]) + if chats == [] then [] else [s.(chats := chats)]
  }

  /** A missing key of userUpdate reads as the zero time. */
  function Get(w: map<int, int>, user: int): int {
    if user in w then w[user] else 0
  }

  function Raise(subs: seq<Sub>, w: map<int, int>, t: int): map<int, int> {
    if subs == [] then w
    else
      var s := subs[|subs| - 1];
      var v := Raise(subs[..|subs| - 1], w, t);
      if s.last < t && Get(v, s.user) < t then v[s.user := t] else v
  }

  function Watermarks(subs: seq<Sub>, shots: seq<RawUpdate>): map<int, int> {
    if shots == [] then map[] else Raise(subs, Watermarks(subs, shots[..|shots| - 1]), shots[|shots| - 1].updatedAt)
  }

  lemma {:induction false} BehindExact(subs: seq<Sub>, t: int, user: int)
    ensures user in Behind(subs, t) <==> exists i :: 0 <= i < |subs| && subs[i].user == user && subs[i].last < t
  {
    if subs != [] {
      var n := |subs| - 1;
      BehindExact(subs[..n], t, user);
      if exists i :: 0 <= i < |subs| && subs[i].user == user && subs[i].last < t {
        var i :| 0 <= i < |subs| && subs[i].user == user && subs[i].last < t;
        assert i < n ==> subs[..n][i] == subs[i];
      }
      if user in Behind(subs[..n], t) {
        var i :| 0 <= i < |subs[..n]| && subs[..n][i].user == user && subs[..n][i].last < t;
        assert subs[i] == subs[..n][i];
      }
    }
  }

  /** A user is told about a shot exactly when the shot is newer than the user's watermark; in particular
      never about a shot whose time could not be parsed, which carries the zero time. */
  lemma {:induction false} PlanExact(subs: seq<Sub>, shots: seq<RawUpdate>, i: nat, k: nat)
    requires DistinctUsers(subs) && i < |subs| && k < |shots|
    ensures (exists j :: 0 <= j < |Updates(subs, shots)| && Updates(subs, shots)[j] == shots[k].(chats := Behind(subs, shots[k].updatedAt))
              && subs[i].user in Updates(subs, shots)[j].chats)
            <==> subs[i].last < shots[k].updatedAt
  {
    BehindExact(subs, shots[k].updatedAt, subs[i].user);
    if subs[i].last < shots[k].updatedAt {
      var j := PlanHolds(subs, shots, k);
    }
  }

  lemma {:induction false} PlanHolds(subs: seq<Sub>, shots: seq<RawUpdate>, k: nat) returns (j: nat)
    requires k < |shots| && Behind(subs, shots[k].updatedAt) != []
    ensures j < |Updates(subs, shots)| && Updates(subs, shots)[j] == shots[k].(chats := Behind(subs, shots[k].updatedAt))
  {
    var n := |shots| - 1;
    if k == n {
      j := |Updates(subs, shots[..n])|;
    } else {
      j := PlanHolds(subs, shots[..n], k);
    }
  }

  /** Nothing else is enqueued, and nothing without a recipient. */
  lemma {:induction false} PlanSound(subs: seq<Sub>, shots: seq<RawUpdate>, j: nat) returns (k: nat)
    requires j < |Updates(subs, shots)|
    ensures k < |shots| && Updates(subs, shots)[j] == shots[k].(chats := Behind(subs, shots[k].updatedAt))
    ensures Valid(Updates(subs, shots)[j])
  {
    var n := |shots| - 1;
    if j < |Updates(subs, shots[..n])| {
      k := PlanSound(subs, shots[..n], j);
    } else {
      k := n;
    }
  }

  // ---------- the plan in plain words ----------

  function Lagging(subs: seq<Sub>, t: int): nat -> bool {
    (i: nat) => i < |subs| && subs[i].last < t
  }

  /** chats names the users of who, one by one. */
  predicate UsersAre(who: seq<Sub>, chats: seq<int>) {
    |chats| == |who| && forall k :: 0 <= k < |who| ==> chats[k] == who[k].user
  }

  /** chats are the users whose watermark is before t, in the order of the subscriptions. */
  ghost predicate TellsLagging(subs: seq<Sub>, t: int, chats: seq<int>) {
    exists who :: Selects(subs, Lagging(subs, t), who) && UsersAre(who, chats)
  }

  predicate SomebodyLags(subs: seq<Sub>, t: int) {
    exists i :: 0 <= i < |subs| && subs[i].last < t
  }

  function Concerning(subs: seq<Sub>, shots: seq<RawUpdate>): nat -> bool {
    (k: nat) => k < |shots| && SomebodyLags(subs, shots[k].updatedAt)
  }

  /** us are the shots told, readdressed to those that lag behind them. */
  ghost predicate Readdressed(subs: seq<Sub>, told: seq<RawUpdate>, us: seq<RawUpdate>) {
    |us| == |told| && forall j :: 0 <= j < |us| ==>
      us[j] == told[j].(chats := us[j].chats) && TellsLagging(subs, told[j].updatedAt, us[j].chats)
  }

  /** us is what a crawl enqueues: in the order of the shots, each one that somebody lags behind, once. */
  ghost predicate PlanIs(subs: seq<Sub>, shots: seq<RawUpdate>, us: seq<RawUpdate>) {
    exists told :: Selects(shots, Concerning(subs, shots), told) && Readdressed(subs, told, us)
  }

  lemma LaggingLast(subs: seq<Sub>, t: int, n: nat)
    requires n + 1 == |subs|
    ensures forall i: nat :: i < n ==> (Lagging(subs[..n], t)(i) <==> Lagging(subs, t)(i))
    ensures Lagging(subs, t)(n) <==> subs[n].last < t
  {
  }

  lemma {:induction false} BehindSelects(subs: seq<Sub>, t: int) returns (who: seq<Sub>)
    ensures Selects(subs, Lagging(subs, t), who) && UsersAre(who, Behind(subs, t))
  {
    if subs == [] {
      who := [];
      SelectsNone<Sub>(Lagging(subs, t));
    } else {
      var n := |subs| - 1;
      var front := BehindSelects(subs[..n], t);
      LaggingLast(subs, t, n);
      SelectsLast(subs, Lagging(subs[..n], t), Lagging(subs, t), front);
      who := front + if Lagging(subs, t)(n) then [subs[n]] else [];
    }
  }

  lemma ConcerningLast(subs: seq<Sub>, shots: seq<RawUpdate>, n: nat)
    requires n + 1 == |shots|
    ensures forall i: nat :: i < n ==> (Concerning(subs, shots[..n])(i) <==> Concerning(subs, shots)(i))
    ensures Concerning(subs, shots)(n) <==> SomebodyLags(subs, shots[n].updatedAt)
  {
  }

  lemma BehindEmptyIff(subs: seq<Sub>, t: int)
    ensures Behind(subs, t) != [] <==> SomebodyLags(subs, t)
  {
    if Behind(subs, t) != [] {
      BehindExact(subs, t, Behind(subs, t)[0]);
    }
    if SomebodyLags(subs, t) {
      var i :| 0 <= i < |subs| && subs[i].last < t;
      BehindExact(subs, t, subs[i].user);
    }
  }

  lemma {:induction false} UpdatesSelect(subs: seq<Sub>, shots: seq<RawUpdate>) returns (told: seq<RawUpdate>)
    ensures Selects(shots, Concerning(subs, shots), told) && Readdressed(subs, told, Updates(subs, shots))
  {
    if shots == [] {
      told := [];
      SelectsNone<RawUpdate>(Concerning(subs, shots));
    } else {
      var n := |shots| - 1;
      var front := UpdatesSelect(subs, shots[..n]);
      ConcerningLast(subs, shots, n);
      SelectsLast(shots, Concerning(subs, shots[..n]), Concerning(subs, shots), front);
      BehindEmptyIff(subs, shots[n].updatedAt);
      var who := BehindSelects(subs, shots[n].updatedAt);
      told := front + if Concerning(subs, shots)(n) then [shots[n]] else [];
    }
  }

  /** The plan of a crawl is exactly that. */
  lemma PlanMeans(subs: seq<Sub>, shots: seq<RawUpdate>)
    ensures PlanIs(subs, shots, Updates(subs, shots))
  {
    var told := UpdatesSelect(subs, shots);
  }

  lemma {:induction false} RaiseExact(subs: seq<Sub>, w: map<int, int>, t: int, i: nat)
    requires DistinctUsers(subs) && i < |subs|
    ensures var v := Raise(subs, w, t); var u := subs[i].user;
      if subs[i].last < t && Get(w, u) < t then u in v && v[u] == t else (u in v <==> u in w) && Get(v, u) == Get(w, u)
  {
    var n := |subs| - 1;
    if i < n {
      RaiseExact(subs[..n], w, t, i);
    } else {
      RaiseOthers(subs[..n], w, t, subs[n].user);
    }
  }

  lemma {:induction false} RaiseOthers(subs: seq<Sub>, w: map<int, int>, t: int, user: int)
    requires forall i :: 0 <= i < |subs| ==> subs[i].user != user
    ensures var v := Raise(subs, w, t); (user in v <==> user in w) && Get(v, user) == Get(w, user)
  {
    if subs != [] {
      RaiseOthers(subs[..|subs| - 1], w, t, user);
    }
  }

  /** Some fetched shot is newer than the subscriber's watermark. */
  predicate Newer(s: Sub, shots: seq<RawUpdate>) {
    exists k :: 0 <= k < |shots| && s.last < shots[k].updatedAt
  }

  /** The new watermark of a subscriber is the latest time among the shots enqueued for that subscriber. */
  lemma {:induction false} WatermarkExact(subs: seq<Sub>, shots: seq<RawUpdate>, i: nat)
    requires DistinctUsers(subs) && i < |subs| && 0 <= subs[i].last
    ensures var w := Watermarks(subs, shots); var s := subs[i];
      && (s.user in w <==> Newer(s, shots))
      && (s.user in w ==> s.last < w[s.user])
      && (s.user in w ==> exists k :: 0 <= k < |shots| && shots[k].updatedAt == w[s.user])
      && (forall k :: 0 <= k < |shots| && s.last < shots[k].updatedAt ==> shots[k].updatedAt <= Get(w, s.user))
  {
    if shots != [] {
      var n := |shots| - 1;
      var before, t := Watermarks(subs, shots[..n]), shots[n].updatedAt;
      WatermarkExact(subs, shots[..n], i);
      RaiseExact(subs, before, t, i);
      NewerStep(subs[i], shots);
      if subs[i].user in before {
        var k :| 0 <= k < |shots[..n]| && shots[..n][k].updatedAt == before[subs[i].user];
        assert shots[k].updatedAt == before[subs[i].user];
      }
      forall k | 0 <= k < |shots| && subs[i].last < shots[k].updatedAt
        ensures shots[k].updatedAt <= Get(Watermarks(subs, shots), subs[i].user)
      {
        if k < n {
          assert shots[..n][k] == shots[k];
        }
      }
      assert shots[n].updatedAt == t;
    }
  }

  lemma NewerStep(s: Sub, shots: seq<RawUpdate>)
    requires shots != []
    ensures var n := |shots| - 1; Newer(s, shots) <==> Newer(s, shots[..n]) || s.last < shots[n].updatedAt
  {
    var n := |shots| - 1;
    if Newer(s, shots) {
      var k :| 0 <= k < |shots| && s.last < shots[k].updatedAt;
      assert k < n ==> shots[..n][k] == shots[k];
    }
    if Newer(s, shots[..n]) {
      var k :| 0 <= k < |shots[..n]| && s.last < shots[..n][k].updatedAt;
      assert shots[k] == shots[..n][k];
    }
  }

  /** Only subscribers that were read get a watermark. */
  lemma {:induction false} WatermarkUsers(subs: seq<Sub>, shots: seq<RawUpdate>, user: int)
    requires user in Watermarks(subs, shots)
    ensures exists i :: 0 <= i < |subs| && subs[i].user == user
  {
    if shots != [] && forall i :: 0 <= i < |subs| ==> subs[i].user != user {
      RaiseOthers(subs, Watermarks(subs, shots[..|shots| - 1]), shots[|shots| - 1].updatedAt, user);
      WatermarkUsers(subs, shots[..|shots| - 1], user);
    }
  }

  // ---------- the crawler service ----------

  /** A shot object; its ChatIDs field is set to all subscribers by getResourceShot and overwritten later. */
  class ResourceShot {
    const id: int
    const url: string
    const eventType: string
    const description: string
    const author: string
    const updatedAt: int
    var chats: seq<int>

    constructor (u: RawUpdate)
      ensures Value() == u
    {
      id, url, eventType, description, author := u.id, u.link, u.eventType, u.description, u.author;
      chats, updatedAt := u.chats, u.updatedAt;
    }

    function Value(): RawUpdate
      reads this
    {
      RawUpdate(id, url, eventType, description, author, chats, updatedAt)
    }
  }

  predicate DistinctObjects(shots: seq<ResourceShot>) {
    forall i, j :: 0 <= i < j < |shots| ==> shots[i] != shots[j]
  }

  function Values(shots: seq<ResourceShot>): (us: seq<RawUpdate>)
    reads shots
    ensures |us| == |shots|
  {
    seq(|shots|, i requires 0 <= i < |shots| reads shots => shots[i].Value())
  }

  lemma ValuesAppend(shots: seq<ResourceShot>, s: ResourceShot)
    ensures Values(shots + [s]) == Values(shots) + [s.Value()]
  {
  }

  /** The inner loop over the subscriptions for one shot. */
  method PlanShot(subs: seq<Sub>, t: int, w: map<int, int>) returns (chats: seq<int>, v: map<int, int>)
    ensures chats == Behind(subs, t) && v == Raise(subs, w, t)
  {
    chats, v := [], w;
    for j := 0 to |subs|
      invariant chats == Behind(subs[..j], t) && v == Raise(subs[..j], w, t)
    {
      assert subs[..j + 1][..j] == subs[..j];
      if subs[j].last < t {
        chats := chats + [subs[j].user];
        if Get(v, subs[j].user) < t {
          v := v[subs[j].user := t];
        }
      }
    }
    assert subs[..|subs|] == subs;
  }

  /** The updates planned so far: objects of the first i shots, holding what the plan says. */
  ghost predicate Planned(subs: seq<Sub>, shots: seq<ResourceShot>, vals: seq<RawUpdate>, i: nat, updates: seq<ResourceShot>)
    reads shots, updates
  {
    && |vals| == |shots| && i <= |shots|
    && Values(updates) == Updates(subs, vals[..i])
    && (forall k :: 0 <= k < |updates| ==> exists j :: 0 <= j < i && shots[j] == updates[k])
    && (forall j :: i <= j < |shots| ==> shots[j].Value() == vals[j])
  }

  /** One round of the outer loop. */
  method PlanNext(subs: seq<Sub>, shots: seq<ResourceShot>, ghost vals: seq<RawUpdate>, i: nat,
                  updates: seq<ResourceShot>, w: map<int, int>)
    returns (more: seq<ResourceShot>, v: map<int, int>)
    requires i < |shots| && DistinctObjects(shots) && Planned(subs, shots, vals, i, updates)
    modifies shots[i]
    ensures Planned(subs, shots, vals, i + 1, more)
    ensures v == Raise(subs, w, vals[i].updatedAt)
  {
    var shot := shots[i];
    var chats;
    assert shot.Value() == vals[i];
    chats, v := PlanShot(subs, shot.updatedAt, w);
    more := updates;
    ghost var before := Values(updates);
    assert vals[..i + 1][..i] == vals[..i];
    if chats != [] {
      shot.chats := chats;
      assert Values(updates) == before;
      more := updates + [shot];
      ValuesAppend(updates, shot);
    }
  }

  /** The planning part of processLink. */
  method Plan(subs: seq<Sub>, shots: seq<ResourceShot>) returns (userUpdate: map<int, int>, updates: seq<ResourceShot>)
    requires DistinctObjects(shots)
    modifies shots
    ensures userUpdate == Watermarks(subs, old(Values(shots)))
    ensures Values(updates) == Updates(subs, old(Values(shots)))
  {
    ghost var vals := Values(shots);
    userUpdate, updates := map[], [];
    for i := 0 to |shots|
      invariant Planned(subs, shots, vals, i, updates)
      invariant userUpdate == Watermarks(subs, vals[..i])
    {
      assert vals[..i + 1][..i] == vals[..i];
      updates, userUpdate := PlanNext(subs, shots, vals, i, updates, userUpdate);
    }
    assert vals[..|shots|] == vals;
  }

  const CRAWL_ERROR := "some errors occurred while crawl your link subscription"

  function ErrorShot(path: string, chats: seq<int>): RawUpdate {
    RawUpdate(0, path, "", CRAWL_ERROR, "", chats, 0)
  }

  /** The rows after the watermarks w were written to them. */
  ghost predicate Merged(before: map<int, int>, after: map<int, int>, w: map<int, int>) {
    && (forall u :: u in before <==> u in after)
    && (forall u :: u in after ==> after[u] == if u in w then w[u] else before[u])
  }

  predicate AllFound(rows: map<int, int>, w: map<int, int>) {
    forall u :: u in w ==> u in rows
  }

  /** The subscription rows of one link and the outbox, as the crawl transactions change them. */
  class Store {
    var last: map<int, int>
    var outbox: seq<RawUpdate>

    constructor (last: map<int, int>)
      ensures this.last == last && outbox == []
    {
      this.last, outbox := last, [];
    }

    /** UpdateSubscriptionLastUpdate reports ErrNotFound when no row matches. */
    method UpdateLast(user: int, t: int) returns (found: bool)
      modifies this`last
      ensures found == (user in old(last))
      ensures last == if found then old(last)[user := t] else old(last)
    {
      found := user in last;
      if found {
        last := last[user := t];
      }
    }

    /** Every watermark is tried, in any order. */
    method UpdateAll(userUpdate: map<int, int>) returns (missing: bool)
      modifies this`last
      ensures missing <==> !AllFound(old(last), userUpdate)
      ensures Merged(old(last), last, userUpdate)
    {
      ghost var before := last;
      var users := userUpdate.Keys;
      missing := false;
      while users != {}
        invariant users <= userUpdate.Keys
        invariant missing <==> exists u :: u in userUpdate && u !in users && u !in before
        invariant forall u :: u in before <==> u in last
        invariant forall u :: u in last ==> last[u] == if u in userUpdate && u !in users then userUpdate[u] else before[u]
        decreases |users|
      {
        var u := AnyKey(users);
        var found := UpdateLast(u, userUpdate[u]);
        missing := missing || !found;
        users := users - {u};
      }
    }

    /** processLinkTx in its transaction: inserted tells whether AddBatch and the commit succeed. One
        missing row fails the whole. */
    method ProcessLinkTx(userUpdate: map<int, int>, updates: seq<RawUpdate>, inserted: bool) returns (ok: bool)
      modifies this
      ensures ok <==> inserted && AllFound(old(last), userUpdate)
      ensures ok ==> Merged(old(last), last, userUpdate) && outbox == old(outbox) + updates
      ensures !ok ==> last == old(last) && outbox == old(outbox)
    {
      var snapshot := last;
      var missing := UpdateAll(userUpdate);
      if missing || !inserted {
        last := snapshot;
        return false;
      }
      outbox := outbox + updates;
      return true;
    }

    /** processLink when the crawler answers with shots: subs is what was read before crawling. */
    method ProcessLink(subs: seq<Sub>, shots: seq<ResourceShot>, inserted: bool) returns (ok: bool)
      requires DistinctObjects(shots)
      modifies this, shots
      ensures var vals := old(Values(shots)); var w, us := Watermarks(subs, vals), Updates(subs, vals);
        && (ok <==> us == [] || (inserted && AllFound(old(last), w)))
        && (if ok && us != [] then Merged(old(last), last, w) else last == old(last))
        && outbox == (if ok then old(outbox) + us else old(outbox))
    {
      ghost var vals := Values(shots);
      ok := true;
      if |shots| != 0 {
        var userUpdate, updates := Plan(subs, shots);
        if |updates| != 0 {
          ok := ProcessLinkTx(userUpdate, Values(updates), inserted);
        }
      }
    }

    /** processLink when the crawler fails: one record without id tells every subscriber read before. */
    method ProcessErrorLink(path: string, subs: seq<Sub>, inserted: bool) returns (ok: bool)
      modifies this`outbox
      ensures ok == inserted
      ensures outbox == old(outbox) + if ok then [ErrorShot(path, Users(subs))] else []
      ensures ok ==> ErrorRecord(path, subs, outbox[|old(outbox)|])
    {
      var chats := [];
      for i := 0 to |subs|
        invariant chats == Users(subs[..i])
      {
        chats := chats + [subs[i].user];
      }
      assert subs[..|subs|] == subs;
      ok := inserted;
      if ok {
        outbox := outbox + [ErrorShot(path, chats)];
      }
    }
  }

  /** The record of a failed crawl: no id, the link, the fixed text, and every subscriber read. */
  predicate ErrorRecord(path: string, subs: seq<Sub>, r: RawUpdate) {
    && r.id == 0 && r.link == path && r.eventType == "" && r.description == CRAWL_ERROR && r.author == "" && r.updatedAt == 0
    && UsersAre(subs, r.chats)
  }

  function Users(subs: seq<Sub>): seq<int> {
    seq(|subs|, i requires 0 <= i < |subs| => subs[i].user)
  }

  /** A failed crawl of a link nobody follows any more enqueues an update that no consumer accepts. */
  lemma ErrorShotAcceptedIff(path: string, subs: seq<Sub>)
    ensures Valid(ErrorShot(path, Users(subs))) <==> subs != []
    ensures ErrorRecord(path, subs, ErrorShot(path, Users(subs)))
  {
    assert |Users(subs)| == |subs|;
  }
}
