/** The bot's inbox table, its insert with an idempotency key, and the delivery relay to Telegram. */
module BotInbox {
  import opened Records
  import opened Selection

  datatype Update = Update(id: int, url: string, description: string, chats: seq<int>)

  datatype Row = Row(key: string, upd: Update, created: int, pending: bool)

  predicate UniqueKeys(rows: map<nat, Row>) {
    forall r, q :: r in rows && q in rows && rows[r].key == rows[q].key ==> r == q
  }

  predicate KeyTaken(rows: map<nat, Row>, key: string) {
    exists r :: r in rows && rows[r].key == key
  }

  function Pending(rows: map<nat, Row>): set<nat> {
    set r | r in rows && rows[r].pending
  }

  /** MarkProcessed: UPDATE ... WHERE shot_id = id, for every id of the batch. */
  function Mark(rows: map<nat, Row>, ids: set<int>): map<nat, Row> {
    map r | r in rows :: if rows[r].upd.id in ids then rows[r].(pending := false) else rows[r]
  }

  function Cleaned(rows: map<nat, Row>, cut: int): map<nat, Row> {
    map r | r in rows && (rows[r].pending || rows[r].created >= cut) :: rows[r]
  }

  lemma MarkAndCleanKeepKeysUnique(rows: map<nat, Row>, ids: set<int>, cut: int)
    requires UniqueKeys(rows)
    ensures UniqueKeys(Mark(rows, ids)) && UniqueKeys(Cleaned(rows, cut))
    ensures Pending(Cleaned(rows, cut)) == Pending(rows)
    ensures forall r :: r in rows ==> if !rows[r].pending && rows[r].created < cut then r !in Cleaned(rows, cut)
                                      else r in Cleaned(rows, cut) && Cleaned(rows, cut)[r] == rows[r]
  {
  }

  // ---------- sendTelegram ----------

  datatype Message = Message(chat: int, text: string)

  /** Number of chats that a delivery reaches: it stops at the first failing send. */
  function Reach(n: nat, sends: nat -> bool): (k: nat)
    ensures k <= n
  {
    if n == 0 then 0
    else
      var k := Reach(n - 1, sends);
      if k == n - 1 && sends(n - 1) then n else k
  }

  /** The j-th chat is reached exactly when its send and every send before it succeed. */
  lemma {:induction false} ReachExact(n: nat, sends: nat -> bool, j: nat)
    requires j < n
    ensures j < Reach(n, sends) <==> forall i :: 0 <= i <= j ==> sends(i)
  {
    if j < n - 1 {
      ReachExact(n - 1, sends, j);
    } else if n > 1 {
      ReachExact(n - 1, sends, n - 2);
    }
  }

  function MessagesFor(u: Update, k: nat): seq<Message>
    requires k <= |u.chats|
  {
    seq(k, j requires 0 <= j < k => Message(u.chats[j], u.description))
  }

  function SendsOf(sends: (nat, nat) -> bool, i: nat): nat -> bool {
    (j: nat) => sends(i, j)
  }

  function AllMessages(us: seq<Update>, sends: (nat, nat) -> bool): seq<Message> {
    if us == [] then []
    else
      var n := |us| - 1;
      AllMessages(us[..n], sends) + MessagesFor(us[n], Reach(|us[n].chats|, SendsOf(sends, n)))
  }

  /** ms are the messages of one update: its text to its chats in order, up to the first failing send. */
  predicate SentFor(u: Update, sends: nat -> bool, ms: seq<Message>) {
    && |ms| <= |u.chats|
    && (forall j :: 0 <= j < |ms| ==> ms[j].chat == u.chats[j] && ms[j].text == u.description && sends(j))
    && (|ms| < |u.chats| ==> !sends(|ms|))
  }

  predicate AllSentFor(us: seq<Update>, sends: (nat, nat) -> bool, lists: seq<seq<Message>>) {
    |lists| == |us| && forall i :: 0 <= i < |us| ==> SentFor(us[i], SendsOf(sends, i), lists[i])
  }

  /** sent is made of the messages of every update, one update after another. */
  ghost predicate Delivered(us: seq<Update>, sends: (nat, nat) -> bool, sent: seq<Message>) {
    exists lists :: AllSentFor(us, sends, lists) && Joins(sent, lists)
  }

  lemma MessagesExact(u: Update, sends: nat -> bool)
    ensures SentFor(u, sends, MessagesFor(u, Reach(|u.chats|, sends)))
  {
    var n := |u.chats|;
    var k := Reach(n, sends);
    forall j | 0 <= j < k
      ensures sends(j)
    {
      ReachExact(n, sends, j);
    }
    if k < n {
      ReachExact(n, sends, k);
    }
  }

  lemma AllSentLast(us: seq<Update>, sends: (nat, nat) -> bool, lists: seq<seq<Message>>, more: seq<Message>)
    requires us != [] && AllSentFor(us[..|us| - 1], sends, lists)
    requires SentFor(us[|us| - 1], SendsOf(sends, |us| - 1), more)
    ensures AllSentFor(us, sends, lists + [more])
  {
  }

  lemma {:induction false} AllMessagesExact(us: seq<Update>, sends: (nat, nat) -> bool) returns (lists: seq<seq<Message>>)
    ensures AllSentFor(us, sends, lists) && Joins(AllMessages(us, sends), lists)
  {
    if us == [] {
      lists := [];
      JoinsNone<Message>();
    } else {
      var n := |us| - 1;
      var front := AllMessagesExact(us[..n], sends);
      var more := MessagesFor(us[n], Reach(|us[n].chats|, SendsOf(sends, n)));
      MessagesExact(us[n], SendsOf(sends, n));
      AllSentLast(us, sends, front, more);
      JoinsLast(AllMessages(us[..n], sends), front, more);
      lists := front + [more];
    }
  }

  lemma DeliveredExact(us: seq<Update>, sends: (nat, nat) -> bool)
    ensures Delivered(us, sends, AllMessages(us, sends))
  {
    var lists := AllMessagesExact(us, sends);
  }

  /** sends(i, j) tells whether the send of update i to its j-th chat succeeds. Every update comes back
      as received, whatever its sends did. */
  method SendTelegram(us: seq<Update>, sends: (nat, nat) -> bool) returns (success: seq<Update>, sent: seq<Message>)
    ensures success == us
    ensures sent == AllMessages(us, sends) && Delivered(us, sends, sent)
  {
    success, sent := [], [];
    for i := 0 to |us|
      invariant success == us[..i]
      invariant sent == AllMessages(us[..i], sends)
    {
      assert us[..i + 1][..i] == us[..i];
      var u := us[i];
      var more := SendUpdate(u, SendsOf(sends, i));
      sent := sent + more;
      success := success + [u];
    }
    assert us[..|us|] == us;
    DeliveredExact(us, sends);
  }

  method SendUpdate(u: Update, sends: nat -> bool) returns (sent: seq<Message>)
    ensures sent == MessagesFor(u, Reach(|u.chats|, sends))
  {
    sent := [];
    var j := 0;
    while j < |u.chats|
      invariant j <= |u.chats| && Reach(j, sends) == j
      invariant sent == MessagesFor(u, j)
    {
      if !sends(j) {
        ReachStops(j, |u.chats|, sends);
        return;
      }
      sent := sent + [Message(u.chats[j], u.description)];
      j := j + 1;
    }
  }

  lemma {:induction false} ReachStops(j: nat, n: nat, sends: nat -> bool)
    requires j < n && Reach(j, sends) == j && !sends(j)
    ensures Reach(n, sends) == j
  {
    if j < n - 1 {
      ReachStops(j, n - 1, sends);
    }
  }

  /** An update marked as received reached all its chats exactly when none of its sends failed. */
  lemma ReceivedByAllIff(u: Update, sends: nat -> bool)
    ensures MessagesFor(u, Reach(|u.chats|, sends)) == MessagesFor(u, |u.chats|) <==>
      forall j :: 0 <= j < |u.chats| ==> sends(j)
    ensures SentFor(u, sends, MessagesFor(u, Reach(|u.chats|, sends)))
  {
    MessagesExact(u, sends);
    var n := |u.chats|;
    if n > 0 {
      ReachExact(n, sends, n - 1);
    }
    assert |MessagesFor(u, Reach(n, sends))| == Reach(n, sends) && |MessagesFor(u, n)| == n;
  }

  // ---------- the relay ----------

  function Ids(us: seq<Update>): set<int> {
    set i | 0 <= i < |us| :: us[i].id
  }

  class Inbox {
    var rows: map<nat, Row>
    var nextId: nat
    var sent: seq<Message>

    ghost predicate Valid()
      reads this
    {
      UniqueKeys(rows) && forall r :: r in rows ==> r < nextId
    }

    constructor ()
      ensures Valid() && rows == map[] && sent == []
    {
      rows, nextId, sent := map[], 0, [];
    }

    /** AddRecord when the database answers: the unique key refuses a second row. */
    method AddRecord(key: string, upd: Update, now: int) returns (duplicate: bool)
      requires Valid()
      modifies this`rows, this`nextId
      ensures Valid() && duplicate == KeyTaken(old(rows), key) && KeyTaken(rows, key)
      ensures rows == if duplicate then old(rows) else old(rows)[old(nextId) := Row(key, upd, now, true)]
    {
      duplicate := exists r | r in rows :: rows[r].key == key;
      if !duplicate {
        rows := rows[nextId := Row(key, upd, now, true)];
        nextId := nextId + 1;
        assert rows[nextId - 1].key == key;
      }
    }

    method MarkProcessed(us: seq<Update>)
      requires Valid()
      modifies this`rows
      ensures Valid() && rows == Mark(old(rows), Ids(us))
    {
      ghost var rows0 := rows;
      assert Ids(us[..0]) == {} && rows == Mark(rows, {});
      for i := 0 to |us|
        invariant rows == Mark(rows0, Ids(us[..i]))
      {
        var id := us[i].id;
        forall x
          ensures x in Ids(us[..i + 1]) <==> x in Ids(us[..i]) || x == id
        {
          if x in Ids(us[..i]) {
            var k :| 0 <= k < |us[..i]| && us[..i][k].id == x;
            assert us[..i + 1][k].id == x;
          }
          assert us[..i + 1][i].id == id;
        }
        rows := map r | r in rows :: if rows[r].upd.id == id then rows[r].(pending := false) else rows[r];
      }
      assert us[..|us|] == us;
      MarkAndCleanKeepKeysUnique(rows0, Ids(us), 0);
    }

    /** relayInboxTx over the fetched updates. */
    method RelayInboxTx(us: seq<Update>, sends: (nat, nat) -> bool)
      requires Valid()
      modifies this`rows, this`sent
      ensures Valid() && rows == Mark(old(rows), Ids(us))
      ensures sent == old(sent) + AllMessages(us, sends) && Delivered(us, sends, sent[|old(sent)|..])
    {
      var received, more := SendTelegram(us, sends);
      sent := sent + more;
      MarkProcessed(received);
    }
  }

  /** The relay of a fetched batch leaves every unfetched pending row pending exactly when none of them
      shares its shot id with a fetched one; otherwise such a row is dropped without any send. */
  lemma RelayDropsNothingIff(rows: map<nat, Row>, fetched: set<nat>)
    requires fetched <= Pending(rows)
    ensures Pending(Mark(rows, set r | r in fetched :: rows[r].upd.id)) == Pending(rows) - fetched <==>
      forall r, q :: r in fetched && q in Pending(rows) && rows[q].upd.id == rows[r].upd.id ==> q in fetched
  {
    var ids := set r | r in fetched :: rows[r].upd.id;
    var after := Mark(rows, ids);
    if forall r, q :: r in fetched && q in Pending(rows) && rows[q].upd.id == rows[r].upd.id ==> q in fetched {
      forall q
        ensures q in Pending(after) <==> q in Pending(rows) - fetched
      {
        if q in rows && rows[q].upd.id in ids {
          var r :| r in fetched && rows[r].upd.id == rows[q].upd.id;
        }
      }
    } else {
      var r, q :| r in fetched && q in Pending(rows) && rows[q].upd.id == rows[r].upd.id && q !in fetched;
      assert rows[q].upd.id in ids;
      assert q !in Pending(after) && q in Pending(rows) - fetched;
    }
  }
}
