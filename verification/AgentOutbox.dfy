/** The agent's outbox table and its relay. Rows are fetched as records without their row id, and their
    status is written by update_id, which several records of one window may share. */
module AgentOutbox {
  import opened Records
  import opened Selection

  datatype Row = Row(rec: Processed, created: int, processed: Option<int>, retries: nat)

  function Pending(rows: map<nat, Row>): set<nat> {
    set r | r in rows && rows[r].processed.None?
  }

  /** Answers the pending query may give to a relay that skips the locked rows. */
  ghost predicate Fetches(rows: map<nat, Row>, locked: set<nat>, limit: nat, ids: seq<nat>) {
    && |ids| == (if limit < |Pending(rows) - locked| then limit else |Pending(rows) - locked|)
    && (forall i, j :: 0 <= i < j < |ids| ==> ids[i] != ids[j])
    && (forall i :: 0 <= i < |ids| ==> ids[i] in Pending(rows) - locked)
    && (forall i, r :: 0 <= i < |ids| && r in Pending(rows) - locked && r !in ids ==> rows[ids[i]].created <= rows[r].created)
  }

  function MarkRow(row: Row, uid: int, ok: bool, now: int): Row {
    if row.rec.id != uid then row
    else if ok then row.(processed := Some(now))
    else row.(retries := row.retries + 1)
  }

  /** UpdateStatus: UPDATE ... WHERE update_id = uid. */
  function Mark(rows: map<nat, Row>, uid: int, ok: bool, now: int): map<nat, Row> {
    map r | r in rows :: MarkRow(rows[r], uid, ok, now)
  }

  /** Statuses of the first |oks| published records; recs are the fetched records. */
  function MarkAll(rows: map<nat, Row>, recs: seq<Processed>, oks: seq<bool>, now: int): map<nat, Row>
    requires |oks| <= |recs|
  {
    if oks == [] then rows
    else
      var n := |oks| - 1;
      Mark(MarkAll(rows, recs, oks[..n], now), recs[n].id, oks[n], now)
  }

  /** Some published record carries the update id. */
  ghost predicate Hit(recs: seq<Processed>, oks: seq<bool>, uid: int)
    requires |oks| <= |recs|
  {
    exists k :: 0 <= k < |oks| && oks[k] && recs[k].id == uid
  }

  lemma HitStep(recs: seq<Processed>, oks: seq<bool>, uid: int)
    requires oks != [] && |oks| <= |recs|
    ensures var n := |oks| - 1; Hit(recs, oks, uid) <==> Hit(recs, oks[..n], uid) || (oks[n] && recs[n].id == uid)
  {
    var n := |oks| - 1;
    if Hit(recs, oks, uid) {
      var k :| 0 <= k < |oks| && oks[k] && recs[k].id == uid;
      assert k < n ==> oks[..n][k];
    }
    if Hit(recs, oks[..n], uid) {
      var k :| 0 <= k < |oks[..n]| && oks[..n][k] && recs[k].id == uid;
      assert oks[k];
    }
  }

  /** A relay stamps exactly the rows whose update id was published by some record of the batch. */
  lemma {:induction false} MarkAllExact(rows: map<nat, Row>, recs: seq<Processed>, oks: seq<bool>, now: int, r: nat)
    requires |oks| <= |recs| && r in rows
    ensures var after := MarkAll(rows, recs, oks, now);
      && after.Keys == rows.Keys
      && after[r].rec == rows[r].rec && after[r].created == rows[r].created
      && after[r].processed == if Hit(recs, oks, rows[r].rec.id) then Some(now) else rows[r].processed
  {
    if oks != [] {
      var n := |oks| - 1;
      MarkAllExact(rows, recs, oks[..n], now, r);
      HitStep(recs, oks, rows[r].rec.id);
    }
  }

  /** Rows with the update id of a record whose Publish fails count a retry for each such record. */
  lemma {:induction false} MarkedRetries(rows: map<nat, Row>, recs: seq<Processed>, oks: seq<bool>, now: int, r: nat)
    requires |oks| <= |recs| && r in rows
    ensures r in MarkAll(rows, recs, oks, now)
    ensures MarkAll(rows, recs, oks, now)[r].retries == rows[r].retries + |FailuresOf(recs, oks, rows[r].rec.id)|
  {
    MarkAllExact(rows, recs, oks, now, r);
    if oks != [] {
      var n := |oks| - 1;
      MarkedRetries(rows, recs, oks[..n], now, r);
      MarkAllExact(rows, recs, oks[..n], now, r);
      FailuresLast(recs, oks, rows[r].rec.id);
    }
  }

  function FailuresOf(recs: seq<Processed>, oks: seq<bool>, uid: int): set<int>
    requires |oks| <= |recs|
  {
    set k | 0 <= k < |oks| && !oks[k] && recs[k].id == uid
  }

  lemma FailuresLast(recs: seq<Processed>, oks: seq<bool>, uid: int)
    requires oks != [] && |oks| <= |recs|
    ensures var n := |oks| - 1;
      |FailuresOf(recs, oks, uid)| == |FailuresOf(recs, oks[..n], uid)| + if !oks[n] && recs[n].id == uid then 1 else 0
  {
    var n := |oks| - 1;
    var before, after := FailuresOf(recs, oks[..n], uid), FailuresOf(recs, oks, uid);
    forall k
      ensures k in after <==> k in before || (k == n && !oks[n] && recs[n].id == uid)
    {
      assert 0 <= k < n ==> oks[..n][k] == oks[k];
    }
    OneMore(before, after, n, !oks[n] && recs[n].id == uid);
  }

  lemma OneMore<T>(before: set<T>, after: set<T>, x: T, joins: bool)
    requires x !in before && forall y :: y in after <==> y in before || (y == x && joins)
    ensures |after| == |before| + if joins then 1 else 0
  {
    assert after == if joins then before + {x} else before;
  }

  /** Cleanup deletes rows processed before the cut. */
  function Cleaned(rows: map<nat, Row>, cut: int): map<nat, Row> {
    map r | r in rows && !(rows[r].processed.Some? && rows[r].processed.value < cut) :: rows[r]
  }

  /** Exactly those rows go, no pending one among them. */
  lemma CleanedExact(rows: map<nat, Row>, cut: int)
    ensures Pending(Cleaned(rows, cut)) == Pending(rows)
    ensures forall r :: r in rows ==>
      if rows[r].processed.Some? && rows[r].processed.value < cut then r !in Cleaned(rows, cut)
      else r in Cleaned(rows, cut) && Cleaned(rows, cut)[r] == rows[r]
  {
  }

  function RecsOf(rows: map<nat, Row>, ids: seq<nat>): (recs: seq<Processed>)
    requires forall i :: 0 <= i < |ids| ==> ids[i] in rows
    ensures |recs| == |ids|
  {
    seq(|ids|, i requires 0 <= i < |ids| => rows[ids[i]].rec)
  }

  // ---------- loss ----------

  /** Row r leaves the queue in this relay although its own record was not published. */
  ghost predicate Lost(rows: map<nat, Row>, ids: seq<nat>, oks: seq<bool>, now: int, r: nat)
    requires |oks| == |ids| && forall i :: 0 <= i < |ids| ==> ids[i] in rows
  {
    && r in Pending(rows)
    && r !in Pending(MarkAll(rows, RecsOf(rows, ids), oks, now))
    && !exists k :: 0 <= k < |ids| && ids[k] == r && oks[k]
  }

  /** No fetched row shares its update id with another pending row. */
  predicate NoSharedIds(rows: map<nat, Row>, ids: seq<nat>) {
    forall i, r :: 0 <= i < |ids| && ids[i] in rows && r in Pending(rows) && r != ids[i] ==>
      rows[r].rec.id != rows[ids[i]].rec.id
  }

  lemma LostExact(rows: map<nat, Row>, ids: seq<nat>, oks: seq<bool>, now: int, r: nat)
    requires |oks| == |ids| && forall i :: 0 <= i < |ids| ==> ids[i] in rows
    ensures Lost(rows, ids, oks, now, r) <==>
      && r in Pending(rows)
      && Hit(RecsOf(rows, ids), oks, rows[r].rec.id)
      && !exists k :: 0 <= k < |ids| && ids[k] == r && oks[k]
  {
    if r in rows {
      MarkAllExact(rows, RecsOf(rows, ids), oks, now, r);
    }
  }

  /** A fetched batch can be relayed without any risk of loss, whatever sends fail, exactly when no
      fetched row shares its update id with another pending row. */
  lemma RelayLosesNothingIff(rows: map<nat, Row>, ids: seq<nat>, now: int)
    requires forall i :: 0 <= i < |ids| ==> ids[i] in rows && ids[i] in Pending(rows)
    ensures (forall oks: seq<bool>, r | |oks| == |ids| :: !Lost(rows, ids, oks, now, r)) <==> NoSharedIds(rows, ids)
  {
    if NoSharedIds(rows, ids) {
      forall oks: seq<bool>, r | |oks| == |ids|
        ensures !Lost(rows, ids, oks, now, r)
      {
        LostExact(rows, ids, oks, now, r);
        if r in Pending(rows) && Hit(RecsOf(rows, ids), oks, rows[r].rec.id) {
          var k :| 0 <= k < |oks| && oks[k] && RecsOf(rows, ids)[k].id == rows[r].rec.id;
          assert ids[k] == r;
        }
      }
    } else {
      var i, r :| 0 <= i < |ids| && r in Pending(rows) && r != ids[i] && rows[r].rec.id == rows[ids[i]].rec.id;
      var oks := seq(|ids|, k => k == i);
      LostExact(rows, ids, oks, now, r);
      assert oks[i] && RecsOf(rows, ids)[i].id == rows[r].rec.id;
      assert Lost(rows, ids, oks, now, r);
    }
  }

  /** Two chats with groups that end in the same update: one failed send loses the second group. */
  lemma SharedIdLosesAGroup(a: Processed, b: Processed, now: int)
    requires a.id == b.id
    ensures var rows := map[1 := Row(a, now, None, 0), 2 := Row(b, now, None, 0)];
      Lost(rows, [1, 2], [true, false], now, 2)
  {
    var rows := map[1 := Row(a, now, None, 0), 2 := Row(b, now, None, 0)];
    LostExact(rows, [1, 2], [true, false], now, 2);
    assert [true, false][0] && RecsOf(rows, [1, 2])[0].id == rows[2].rec.id;
  }

  // ---------- drain ----------

  /** Consecutive relays, one at a time, with every publish succeeding and no new rows. */
  ghost predicate DrainRun(tables: seq<map<nat, Row>>, limit: nat) {
    forall k :: 0 <= k < |tables| - 1 ==> DrainStep(tables[k], tables[k + 1], limit)
  }

  ghost predicate DrainStep(before: map<nat, Row>, after: map<nat, Row>, limit: nat) {
    exists ids, now :: Drains(before, after, limit, ids, now)
  }

  ghost predicate Drains(before: map<nat, Row>, after: map<nat, Row>, limit: nat, ids: seq<nat>, now: int) {
    && Fetches(before, {}, limit, ids)
    && after == MarkAll(before, RecsOf(before, ids), AllTrue(|ids|), now)
  }

  predicate Fetched(rows: map<nat, Row>, ids: seq<nat>, uid: int) {
    exists i :: 0 <= i < |ids| && ids[i] in rows && rows[ids[i]].rec.id == uid
  }

  lemma {:induction false} MarkKeepsKeys(rows: map<nat, Row>, recs: seq<Processed>, oks: seq<bool>, now: int)
    requires |oks| <= |recs|
    ensures MarkAll(rows, recs, oks, now).Keys == rows.Keys
  {
    if oks != [] {
      MarkKeepsKeys(rows, recs, oks[..|oks| - 1], now);
    }
  }

  lemma HitAll(rows: map<nat, Row>, ids: seq<nat>, uid: int)
    requires forall i :: 0 <= i < |ids| ==> ids[i] in rows
    ensures Hit(RecsOf(rows, ids), AllTrue(|ids|), uid) <==> Fetched(rows, ids, uid)
  {
    if Fetched(rows, ids, uid) {
      var i :| 0 <= i < |ids| && ids[i] in rows && rows[ids[i]].rec.id == uid;
      assert AllTrue(|ids|)[i] && RecsOf(rows, ids)[i].id == uid;
    }
    if Hit(RecsOf(rows, ids), AllTrue(|ids|), uid) {
      var k :| 0 <= k < |ids| && AllTrue(|ids|)[k] && RecsOf(rows, ids)[k].id == uid;
      assert rows[ids[k]].rec.id == uid;
    }
  }

  /** After a relay without failures exactly the rows whose update id was fetched have left the queue. */
  lemma DrainedRow(before: map<nat, Row>, after: map<nat, Row>, limit: nat, ids: seq<nat>, now: int, r: nat)
    requires Drains(before, after, limit, ids, now)
    ensures r in Pending(after) <==> r in Pending(before) && !Fetched(before, ids, before[r].rec.id)
    ensures r in before ==> r in after && after[r].rec == before[r].rec
  {
    MarkKeepsKeys(before, RecsOf(before, ids), AllTrue(|ids|), now);
    assert r in after <==> r in before;
    if r in before {
      MarkAllExact(before, RecsOf(before, ids), AllTrue(|ids|), now, r);
      HitAll(before, ids, before[r].rec.id);
    }
  }

  /** Update ids tell the pending rows apart. */
  predicate DistinctPending(rows: map<nat, Row>) {
    forall r, q :: r in Pending(rows) && q in Pending(rows) && rows[r].rec.id == rows[q].rec.id ==> r == q
  }

  /** At least the fetched rows are gone, and with distinct update ids no others. */
  lemma DrainStepCount(before: map<nat, Row>, after: map<nat, Row>, limit: nat)
    requires DrainStep(before, after, limit)
    ensures |Pending(after)| <= |Pending(before)| - Min(limit, |Pending(before)|)
    ensures DistinctPending(before) ==>
      DistinctPending(after) && |Pending(after)| == |Pending(before)| - Min(limit, |Pending(before)|)
  {
    var ids, now :| Drains(before, after, limit, ids, now);
    assert Pending(before) - {} == Pending(before);
    var rest := Pending(before) - Elements(ids);
    ElementsCount(ids, Pending(before));
    forall r | r in Pending(after)
      ensures r in rest
    {
      DrainedRow(before, after, limit, ids, now, r);
      ElementsOf(ids, r);
    }
    SubsetCount(Pending(after), rest);
    if DistinctPending(before) {
      forall r | r in rest
        ensures r in Pending(after)
      {
        ElementsOf(ids, r);
        DrainedRow(before, after, limit, ids, now, r);
      }
      SubsetCount(rest, Pending(after));
      forall r | r in Pending(after)
        ensures r in Pending(before) && after[r].rec == before[r].rec
      {
        DrainedRow(before, after, limit, ids, now, r);
      }
    }
  }

  lemma {:induction false} SubsetCount<T>(a: set<T>, b: set<T>)
    requires forall x :: x in a ==> x in b
    ensures |a| <= |b|
  {
    if a != {} {
      var x := AnyOf(a);
      SubsetCount(a - {x}, b - {x});
    }
  }

  /** n pending rows are gone after at most ceil(n / limit) relays; with distinct update ids each relay
      takes exactly limit of them, so that many are needed. */
  lemma {:induction false} Drain(tables: seq<map<nat, Row>>, limit: nat, k: nat)
    requires DrainRun(tables, limit) && k < |tables|
    ensures var n := |Pending(tables[0])|;
      |Pending(tables[k])| <= if n <= k * limit then 0 else n - k * limit
    ensures var n := |Pending(tables[0])|; DistinctPending(tables[0]) ==>
      DistinctPending(tables[k]) && |Pending(tables[k])| == if n <= k * limit then 0 else n - k * limit
  {
    if k > 0 {
      Drain(tables, limit, k - 1);
      DrainStepCount(tables[k - 1], tables[k - 1 + 1], limit);
      assert k * limit == (k - 1) * limit + limit;
    }
  }

  // ---------- the relay as the scheduler runs it ----------

  class Sentinel {
    var rows: map<nat, Row>
    var topic: seq<Processed>

    constructor (rows: map<nat, Row>, topic: seq<Processed>)
      ensures this.rows == rows && this.topic == topic
    {
      this.rows, this.topic := rows, topic;
    }

    method UpdateStatus(uid: int, ok: bool, now: int)
      modifies this`rows
      ensures rows == Mark(old(rows), uid, ok, now)
    {
      var keys := rows.Keys;
      ghost var rows0 := rows;
      while keys != {}
        invariant keys <= rows0.Keys && rows.Keys == rows0.Keys
        invariant forall r :: r in rows0 ==> rows[r] == if r in keys then rows0[r] else MarkRow(rows0[r], uid, ok, now)
        decreases |keys|
      {
        var r := AnyKey(keys);
        if rows[r].rec.id == uid {
          if ok {
            rows := rows[r := rows[r].(processed := Some(now))];
          } else {
            rows := rows[r := rows[r].(retries := rows[r].retries + 1)];
          }
        }
        keys := keys - {r};
      }
    }

    /** relayOutboxTx over the fetched records; publish[i] tells whether the i-th Publish succeeds. The topic
        gains the published records in order, and a row is stamped exactly when one with its id is among them. */
    method RelayOutboxTx(recs: seq<Processed>, publish: seq<bool>, now: int)
      requires |publish| == |recs|
      modifies this
      ensures rows == MarkAll(old(rows), recs, publish, now)
      ensures old(topic) <= topic && Relayed(old(rows), rows, recs, publish, topic[|old(topic)|..], now)
    {
      ghost var rows0, topic0 := rows, topic;
      for i := 0 to |recs|
        invariant rows == MarkAll(rows0, recs, publish[..i], now)
        invariant topic == topic0 + Published(recs, publish[..i])
      {
        assert publish[..i + 1][..i] == publish[..i];
        if publish[i] {
          topic := topic + [recs[i]];
        }
        UpdateStatus(recs[i].id, publish[i], now);
      }
      assert publish[..|recs|] == publish;
      assert topic[|topic0|..] == Published(recs, publish);
      RelayedExact(rows0, recs, publish, now);
    }
  }

  function Published(recs: seq<Processed>, oks: seq<bool>): seq<Processed>
    requires |oks| <= |recs|
  {
    if oks == [] then []
    else
      var n := |oks| - 1;
      Published(recs, oks[..n]) + if oks[n] then [recs[n]] else []
  }

  /** What a relay of recs does: the topic gains the records whose Publish succeeds, in order, each once, and
      exactly the rows with the update id of a gained record are stamped. */
  ghost predicate Relayed(before: map<nat, Row>, after: map<nat, Row>, recs: seq<Processed>, publish: seq<bool>,
                          gained: seq<Processed>, now: int)
  {
    && Selects(recs, Flags(publish), gained)
    && |gained| == |set i: nat | i < |publish| && publish[i]|
    && after.Keys == before.Keys
    && forall r :: r in before ==>
      after[r].processed == if HasId(gained, before[r].rec.id) then Some(now) else before[r].processed
  }

  lemma RelayedExact(rows: map<nat, Row>, recs: seq<Processed>, oks: seq<bool>, now: int)
    requires |oks| == |recs|
    ensures Relayed(rows, MarkAll(rows, recs, oks, now), recs, oks, Published(recs, oks), now)
  {
    PublishedExact(recs, oks);
    assert recs[..|recs|] == recs;
    FlaggedCount(recs, oks, Published(recs, oks));
    FlaggedHas(recs, oks, Published(recs, oks));
    StampedWasGained(rows, recs, oks, now);
  }

  predicate HasId(recs: seq<Processed>, id: int) {
    exists k :: 0 <= k < |recs| && recs[k].id == id
  }

  /** What a relay publishes: the records whose Publish succeeds, in order, each once. */
  lemma {:induction false} PublishedExact(recs: seq<Processed>, oks: seq<bool>)
    requires |oks| <= |recs|
    ensures Selects(recs[..|oks|], Flags(oks), Published(recs, oks))
  {
    if oks == [] {
      SelectsNone<Processed>(Flags(oks));
    } else {
      var n := |oks| - 1;
      PublishedExact(recs, oks[..n]);
      assert recs[..n + 1][..n] == recs[..n];
      SelectsLast(recs[..n + 1], Flags(oks[..n]), Flags(oks), Published(recs, oks[..n]));
    }
  }

  /** A row gets a processing time exactly when a record with its update id is published. */
  lemma StampedWasGained(rows: map<nat, Row>, recs: seq<Processed>, oks: seq<bool>, now: int)
    requires |oks| == |recs|
    requires forall x :: x in Published(recs, oks) <==> exists k :: 0 <= k < |oks| && oks[k] && recs[k] == x
    ensures var after := MarkAll(rows, recs, oks, now); after.Keys == rows.Keys && forall r :: r in rows ==>
      after[r].processed == if HasId(Published(recs, oks), rows[r].rec.id) then Some(now) else rows[r].processed
  {
    var after := MarkAll(rows, recs, oks, now);
    MarkKeepsKeys(rows, recs, oks, now);
    forall r | r in rows
      ensures after[r].processed == if HasId(Published(recs, oks), rows[r].rec.id) then Some(now) else rows[r].processed
    {
      MarkAllExact(rows, recs, oks, now, r);
      HitIsGained(recs, oks, Published(recs, oks), rows[r].rec.id);
    }
  }

  lemma HitIsGained(recs: seq<Processed>, oks: seq<bool>, gained: seq<Processed>, uid: int)
    requires |oks| == |recs|
    requires forall x :: x in gained <==> exists k :: 0 <= k < |oks| && oks[k] && recs[k] == x
    ensures Hit(recs, oks, uid) <==> HasId(gained, uid)
  {
    if Hit(recs, oks, uid) {
      var k :| 0 <= k < |oks| && oks[k] && recs[k].id == uid;
      assert recs[k] in gained;
      var j :| 0 <= j < |gained| && gained[j] == recs[k];
    }
    if HasId(gained, uid) {
      var j :| 0 <= j < |gained| && gained[j].id == uid;
      assert gained[j] in gained;
    }
  }
}
