/** The scrapper's outbox table and its relay: rows are marked one by one, by their own id. */
module ScrapperOutbox {
  import opened Records
  import opened Selection

  /** One row; error text is not kept, created orders the fetch. */
  datatype Row = Row(shot: RawUpdate, created: int, processed: Option<int>, retries: nat)

  function Pending(rows: map<nat, Row>): set<nat> {
    set id | id in rows && rows[id].processed.None?
  }

  /** Answers the pending query may give: the limit oldest pending rows, oldest first. */
  ghost predicate Fetches(rows: map<nat, Row>, limit: nat, ids: seq<nat>) {
    && |ids| == Min(limit, |Pending(rows)|)
    && (forall i, j :: 0 <= i < j < |ids| ==> ids[i] != ids[j])
    && (forall i :: 0 <= i < |ids| ==> ids[i] in Pending(rows))
    && (forall i, j :: 0 <= i < j < |ids| ==> rows[ids[i]].created <= rows[ids[j]].created)
    && (forall i, id :: 0 <= i < |ids| && id in Pending(rows) && id !in ids ==> rows[ids[i]].created <= rows[id].created)
  }

  /** UpdateStatus: success stamps the row, failure counts a retry. */
  function Mark(rows: map<nat, Row>, id: nat, ok: bool, now: int): map<nat, Row> {
    if id !in rows then rows
    else if ok then rows[id := rows[id].(processed := Some(now))]
    else rows[id := rows[id].(retries := rows[id].retries + 1)]
  }

  function MarkAll(rows: map<nat, Row>, ids: seq<nat>, oks: seq<bool>, now: int): map<nat, Row>
    requires |oks| <= |ids|
  {
    if oks == [] then rows
    else
      var n := |oks| - 1;
      Mark(MarkAll(rows, ids, oks[..n], now), ids[n], oks[n], now)
  }

  /** Cleanup deletes rows processed before the cut. */
  function Cleaned(rows: map<nat, Row>, cut: int): map<nat, Row> {
    map id | id in rows && !(rows[id].processed.Some? && rows[id].processed.value < cut) :: rows[id]
  }

  /** Ids whose send succeeded. */
  function Sent(ids: seq<nat>, oks: seq<bool>): set<nat>
    requires |oks| <= |ids|
  {
    set i | 0 <= i < |oks| && oks[i] :: ids[i]
  }

  /** A relay stamps exactly the rows that it sent, and touches nothing else but retry counters. */
  lemma {:induction false} MarkAllExact(rows: map<nat, Row>, ids: seq<nat>, oks: seq<bool>, now: int)
    requires |oks| <= |ids|
    requires forall i :: 0 <= i < |ids| ==> ids[i] in rows
    ensures var after := MarkAll(rows, ids, oks, now);
      && after.Keys == rows.Keys
      && Pending(after) == Pending(rows) - Sent(ids, oks)
      && (forall id :: id in rows ==> after[id].shot == rows[id].shot && after[id].created == rows[id].created)
      && (forall id :: id in rows && id !in ids ==> after[id] == rows[id])
  {
    if oks != [] {
      var n := |oks| - 1;
      MarkAllExact(rows, ids, oks[..n], now);
      SentStep(ids, oks);
      var before := MarkAll(rows, ids, oks[..n], now);
      forall id
        ensures id in Pending(Mark(before, ids[n], oks[n], now)) <==> id in Pending(before) && !(oks[n] && id == ids[n])
      {
      }
    }
  }

  lemma SentStep(ids: seq<nat>, oks: seq<bool>)
    requires |oks| <= |ids| && oks != []
    ensures var n := |oks| - 1; forall id :: id in Sent(ids, oks) <==> id in Sent(ids, oks[..n]) || (oks[n] && id == ids[n])
  {
    var n := |oks| - 1;
    forall id
      ensures id in Sent(ids, oks) <==> id in Sent(ids, oks[..n]) || (oks[n] && id == ids[n])
    {
      if id in Sent(ids, oks) {
        var i :| 0 <= i < |oks| && oks[i] && ids[i] == id;
        assert i < n ==> oks[..n][i];
      }
      if id in Sent(ids, oks[..n]) {
        var i :| 0 <= i < |oks[..n]| && oks[..n][i] && ids[i] == id;
        assert oks[i];
      }
    }
  }

  /** Cleaning removes exactly the rows processed before the cut, and no pending one. */
  lemma CleanedExact(rows: map<nat, Row>, cut: int)
    ensures Pending(Cleaned(rows, cut)) == Pending(rows)
    ensures forall id :: id in rows ==>
      if rows[id].processed.Some? && rows[id].processed.value < cut then id !in Cleaned(rows, cut)
      else id in Cleaned(rows, cut) && Cleaned(rows, cut)[id] == rows[id]
  {
  }

  /** What the relay writes into the i-th fetched row. */
  lemma {:induction false} MarkedRow(rows: map<nat, Row>, ids: seq<nat>, oks: seq<bool>, now: int, i: nat)
    requires i < |oks| <= |ids| && forall j :: 0 <= j < |ids| ==> ids[j] in rows
    requires forall j, k :: 0 <= j < k < |ids| ==> ids[j] != ids[k]
    ensures ids[i] in MarkAll(rows, ids, oks, now) && MarkAll(rows, ids, oks, now)[ids[i]] ==
      if oks[i] then rows[ids[i]].(processed := Some(now)) else rows[ids[i]].(retries := rows[ids[i]].retries + 1)
  {
    var n := |oks| - 1;
    MarkAllExact(rows, ids[..n], oks[..n], now);
    MarkPrefix(rows, ids, oks[..n], n, now);
    if i < n {
      MarkedRow(rows, ids, oks[..n], now, i);
    }
  }

  lemma {:induction false} MarkPrefix(rows: map<nat, Row>, ids: seq<nat>, oks: seq<bool>, n: nat, now: int)
    requires |oks| <= n <= |ids|
    ensures MarkAll(rows, ids[..n], oks, now) == MarkAll(rows, ids, oks, now)
  {
    if oks != [] {
      MarkPrefix(rows, ids, oks[..|oks| - 1], n, now);
    }
  }

  // ---------- the relay as the scheduler runs it ----------

  /** The repository, the topic it relays to, and the transaction around them. */
  class Relay {
    var rows: map<nat, Row>
    var nextId: nat
    var topic: seq<RawUpdate>

    ghost predicate Valid()
      reads this
    {
      forall id :: id in rows ==> id < nextId
    }

    constructor ()
      ensures Valid() && rows == map[] && topic == []
    {
      rows, nextId, topic := map[], 0, [];
    }

    method AddBatch(shots: seq<RawUpdate>, now: int)
      requires Valid()
      modifies this`rows, this`nextId
      ensures Valid() && nextId == old(nextId) + |shots|
      ensures rows == Inserted(old(rows), old(nextId), shots, now)
    {
      ghost var rows0, id0 := rows, nextId;
      for i := 0 to |shots|
        invariant Valid() && nextId == id0 + i
        invariant rows == Inserted(rows0, id0, shots[..i], now)
      {
        assert shots[..i + 1][..i] == shots[..i];
        rows := rows[nextId := Row(shots[i], now, None, 0)];
        nextId := nextId + 1;
      }
      assert shots[..|shots|] == shots;
    }

    method UpdateStatus(id: nat, ok: bool, now: int)
      requires Valid()
      modifies this`rows
      ensures Valid() && rows == Mark(old(rows), id, ok, now)
    {
      if id in rows {
        if ok {
          rows := rows[id := rows[id].(processed := Some(now))];
        } else {
          rows := rows[id := rows[id].(retries := rows[id].retries + 1)];
        }
      }
    }

    /** relayOutboxTx: ids is the fetched batch and send[i] tells whether the i-th send succeeds. */
    method RelayOutboxTx(ids: seq<nat>, send: seq<bool>, now: int)
      requires Valid() && |send| == |ids|
      requires forall i :: 0 <= i < |ids| ==> ids[i] in rows
      modifies this`rows, this`topic
      ensures Valid() && rows == MarkAll(old(rows), ids, send, now)
      ensures topic == old(topic) + Shots(old(rows), ids, send)
    {
      ghost var rows0, topic0 := rows, topic;
      for i := 0 to |ids|
        invariant Valid() && rows == MarkAll(rows0, ids, send[..i], now)
        invariant topic == topic0 + Shots(rows0, ids, send[..i])
      {
        MarkAllExact(rows0, ids, send[..i], now);
        assert send[..i + 1][..i] == send[..i];
        var shot := rows[ids[i]].shot;
        if send[i] {
          topic := topic + [shot];
        }
        UpdateStatus(ids[i], send[i], now);
      }
      assert send[..|ids|] == send;
    }

    /** relayOutbox: the same inside WithTransaction. When a statement or the commit fails, the rows are
        rolled back although the messages of the first attempted sends are already on the topic. */
    method RelayOutbox(ids: seq<nat>, send: seq<bool>, now: int, attempted: nat, commits: bool)
      requires Valid() && |send| == |ids| && attempted <= |ids|
      requires commits ==> attempted == |ids|
      requires forall i :: 0 <= i < |ids| ==> ids[i] in rows
      modifies this`rows, this`topic
      ensures Valid() && rows == if commits then MarkAll(old(rows), ids, send, now) else old(rows)
      ensures topic == old(topic) + Shots(old(rows), ids, send[..attempted])
    {
      var snapshot := rows;
      assert commits ==> ids[..attempted] == ids && send[..attempted] == send;
      ShotsPrefix(rows, ids, send, attempted);
      RelayOutboxTx(ids[..attempted], send[..attempted], now);
      if !commits {
        rows := snapshot;
      }
    }
  }

  function Inserted(rows: map<nat, Row>, nextId: nat, shots: seq<RawUpdate>, now: int): map<nat, Row> {
    if shots == [] then rows
    else
      var n := |shots| - 1;
      Inserted(rows, nextId, shots[..n], now)[nextId + n := Row(shots[n], now, None, 0)]
  }

  function Shots(rows: map<nat, Row>, ids: seq<nat>, oks: seq<bool>): seq<RawUpdate>
    requires |oks| <= |ids| && forall i :: 0 <= i < |ids| ==> ids[i] in rows
  {
    if oks == [] then []
    else
      var n := |oks| - 1;
      Shots(rows, ids, oks[..n]) + if oks[n] then [rows[ids[n]].shot] else []
  }

  lemma {:induction false} ShotsPrefix(rows: map<nat, Row>, ids: seq<nat>, oks: seq<bool>, k: nat)
    requires k <= |oks| <= |ids| && forall i :: 0 <= i < |ids| ==> ids[i] in rows
    ensures Shots(rows, ids[..k], oks[..k]) == Shots(rows, ids, oks[..k])
  {
    if k > 0 {
      assert oks[..k][..k - 1] == oks[..k - 1];
      ShotsPrefix2(rows, ids, oks, k, k - 1);
    }
  }

  lemma {:induction false} ShotsPrefix2(rows: map<nat, Row>, ids: seq<nat>, oks: seq<bool>, k: nat, j: nat)
    requires j <= k <= |oks| <= |ids| && forall i :: 0 <= i < |ids| ==> ids[i] in rows
    ensures Shots(rows, ids[..k], oks[..j]) == Shots(rows, ids, oks[..j])
  {
    if j > 0 {
      assert oks[..j][..j - 1] == oks[..j - 1];
      ShotsPrefix2(rows, ids, oks, k, j - 1);
    }
  }

  /** Everything sent was pending in the fetched batch, and every successful send is on the topic. */
  lemma {:induction false} ShotsExact(rows: map<nat, Row>, ids: seq<nat>, oks: seq<bool>, u: RawUpdate)
    requires |oks| <= |ids| && forall i :: 0 <= i < |ids| ==> ids[i] in rows
    ensures u in Shots(rows, ids, oks) <==> exists i :: 0 <= i < |oks| && oks[i] && rows[ids[i]].shot == u
  {
    if oks != [] {
      var n := |oks| - 1;
      ShotsExact(rows, ids, oks[..n], u);
      if exists i :: 0 <= i < |oks| && oks[i] && rows[ids[i]].shot == u {
        var i :| 0 <= i < |oks| && oks[i] && rows[ids[i]].shot == u;
        assert i < n ==> oks[..n][i];
      }
      if u in Shots(rows, ids, oks[..n]) {
        var i :| 0 <= i < |oks[..n]| && oks[..n][i] && rows[ids[i]].shot == u;
        assert oks[i];
      }
    }
  }

  /** What the topic gains in a relay: the shots of the rows whose send succeeds, in fetch order, each once. */
  lemma {:induction false} ShotsInOrder(rows: map<nat, Row>, ids: seq<nat>, oks: seq<bool>)
    requires |oks| <= |ids| && forall i :: 0 <= i < |ids| ==> ids[i] in rows
    ensures Selects(seq(|oks|, i requires 0 <= i < |oks| => rows[ids[i]].shot), Flags(oks), Shots(rows, ids, oks))
  {
    var shots := seq(|oks|, i requires 0 <= i < |oks| => rows[ids[i]].shot);
    if oks == [] {
      assert shots == [];
      SelectsNone<RawUpdate>(Flags(oks));
    } else {
      var n := |oks| - 1;
      ShotsInOrder(rows, ids, oks[..n]);
      assert shots[..n] == seq(|oks[..n]|, i requires 0 <= i < |oks[..n]| => rows[ids[i]].shot);
      SelectsLast(shots, Flags(oks[..n]), Flags(oks), Shots(rows, ids, oks[..n]));
    }
  }

  // ---------- drain ----------

  /** Consecutive relays with every send succeeding and no new rows. */
  ghost predicate DrainRun(tables: seq<map<nat, Row>>, limit: nat) {
    forall k :: 0 <= k < |tables| - 1 ==> DrainStep(tables[k], tables[k + 1], limit)
  }

  ghost predicate DrainStep(before: map<nat, Row>, after: map<nat, Row>, limit: nat) {
    exists ids, now :: Fetches(before, limit, ids) && after == MarkAll(before, ids, AllTrue(|ids|), now)
  }

  lemma SentAll(ids: seq<nat>)
    ensures Sent(ids, AllTrue(|ids|)) == Elements(ids)
  {
    var oks := AllTrue(|ids|);
    forall id
      ensures id in Sent(ids, oks) <==> id in Elements(ids)
    {
      ElementsOf(ids, id);
      if id in ids {
        var i :| 0 <= i < |ids| && ids[i] == id;
        assert oks[i];
      }
    }
  }

  lemma DrainStepCount(before: map<nat, Row>, after: map<nat, Row>, limit: nat)
    requires DrainStep(before, after, limit)
    ensures |Pending(after)| == |Pending(before)| - Min(limit, |Pending(before)|)
  {
    var ids, now :| Fetches(before, limit, ids) && after == MarkAll(before, ids, AllTrue(|ids|), now);
    SentAll(ids);
    MarkAllExact(before, ids, AllTrue(|ids|), now);
    ElementsCount(ids, Pending(before));
  }

  /** After k relays exactly k * limit of the n pending rows are gone (all of them once k * limit >= n),
      so the queue is empty after ceil(n / limit) relays and not before. */
  lemma {:induction false} Drain(tables: seq<map<nat, Row>>, limit: nat, k: nat)
    requires DrainRun(tables, limit) && k < |tables|
    ensures var n := |Pending(tables[0])|;
      |Pending(tables[k])| == if n <= k * limit then 0 else n - k * limit
  {
    if k > 0 {
      Drain(tables, limit, k - 1);
      DrainStepCount(tables[k - 1], tables[k - 1 + 1], limit);
      assert k * limit == (k - 1) * limit + limit;
    }
  }
}
