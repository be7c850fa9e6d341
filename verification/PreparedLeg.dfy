/** Second leg of the pipeline as a step machine: the agent outbox and its relays, the prepared topic with
    the bot consumer's committed offset, the bot inbox, and the relays that deliver to Telegram. */
module PreparedLeg {
  import opened Records
  import AgentOutbox
  import BotInbox
  import Machines

  /** A message of the prepared topic: its idempotency-key header and, unless the bytes are rejected by
      decodeMessage, its update. A missing header reads as the empty key. */
  datatype Message = Message(key: string, body: Option<BotInbox.Update>)

  predicate Acceptable(m: Message) {
    m.body.Some? && m.body.value.chats != []
  }

  /** What Publish writes of a record: everything but the priority, which the bot does not read. */
  function ToUpdate(rec: Processed): BotInbox.Update {
    BotInbox.Update(rec.id, rec.link, rec.description, rec.chats)
  }

  /** What a published message must say: the id, the link, the text and every chat of the record, so the bot
      accepts it exactly when the record has a chat. */
  predicate Says(m: Message, rec: Processed) {
    && m.body.Some?
    && m.body.value.id == rec.id && m.body.value.url == rec.link && m.body.value.description == rec.description
    && m.body.value.chats == rec.chats
    && (Acceptable(m) <==> rec.chats != [])
  }

  /** An open relay transaction: the rows it locks, the records it read, the outcomes so far. */
  datatype RelayTx = RelayTx(ids: seq<nat>, recs: seq<Processed>, oks: seq<bool>)

  /** added: every record a committed window wrote. */
  datatype Outbox = Outbox(rows: map<nat, AgentOutbox.Row>, next: nat, relays: map<nat, RelayTx>, added: set<Processed>)

  datatype Consumer = Stopped | Fetching | Handled

  datatype Reader = Reader(committed: nat, consumer: Consumer, dlq: seq<Message>, silenced: set<nat>)

  /** What became of a row that left the queue: relayed to the first reached chats, or dropped because a
      relayed row had the same shot id. */
  datatype Fate = Fate(row: BotInbox.Row, relayed: bool, reached: nat)

  datatype Bot = Bot(rows: map<nat, BotInbox.Row>, next: nat, relays: map<nat, set<nat>>, fates: map<nat, Fate>)

  datatype State = State(outbox: Outbox, topic: seq<Message>, reader: Reader, bot: Bot)

  const INIT := State(Outbox(map[], 0, map[], {}), [], Reader(0, Stopped, [], {}), Bot(map[], 0, map[], map[]))

  /** Outcome of AddRecord. Swallowed is an error that is not a PgError: AddRecord returns nil. */
  datatype Insert = Inserted | Duplicate | DbError(dlqOk: bool) | Swallowed(stored: bool)

  datatype Action =
    | AddBatch(recs: seq<Processed>, now: int)
    | RelayBegin(tx: nat, limit: nat, ids: seq<nat>)
    | RelaySend(tx: nat, copies: nat, ok: bool, key: string)   // a writer that retries may repeat the message
    | RelayCommit(tx: nat, now: int)
    | RelayAbort(tx: nat)
    | OutboxClean(cut: int)
    | Foreign(m: Message)
    | Restart
    | Stop
    | Reject(dlqOk: bool)
    | Add(outcome: Insert, now: int)
    | CommitOffset
    | BotBegin(tx: nat, fetched: set<nat>)
    | BotCommit(tx: nat, reach: map<nat, nat>)
    | BotAbort(tx: nat)
    | BotClean(cut: int)

  // ---------- the agent outbox ----------

  function LockedRows(relays: map<nat, RelayTx>): set<nat> {
    set tx, i | tx in relays && 0 <= i < |relays[tx].ids| :: relays[tx].ids[i]
  }

  predicate FreshKey(topic: seq<Message>, key: string) {
    forall i :: 0 <= i < |topic| ==> topic[i].key != key
  }

  ghost predicate CanOutbox(o: Outbox, topic: seq<Message>, a: Action) {
    match a
    case RelayBegin(tx, limit, ids) => tx !in o.relays && AgentOutbox.Fetches(o.rows, LockedRows(o.relays), limit, ids)
    case RelaySend(tx, copies, ok, key) =>
      tx in o.relays && |o.relays[tx].oks| < |o.relays[tx].recs| && (ok ==> copies > 0) && FreshKey(topic, key)
    case RelayCommit(tx, now) => tx in o.relays && |o.relays[tx].oks| == |o.relays[tx].recs|
    case RelayAbort(tx) => tx in o.relays
    case _ => true
  }

  function Inserted(rows: map<nat, AgentOutbox.Row>, next: nat, recs: seq<Processed>, now: int): map<nat, AgentOutbox.Row> {
    if recs == [] then rows
    else
      var n := |recs| - 1;
      Inserted(rows, next, recs[..n], now)[next + n := AgentOutbox.Row(recs[n], now, None, 0)]
  }

  /** Statuses take effect when the relay's transaction commits; the model does not make a status update
      wait for rows that another relay locks, which only adds runs. */
  ghost function DoOutbox(o: Outbox, topic: seq<Message>, a: Action): Outbox
    requires CanOutbox(o, topic, a)
  {
    match a
    case AddBatch(recs, now) =>
      o.(rows := Inserted(o.rows, o.next, recs, now), next := o.next + |recs|, added := o.added + set r | r in recs)
    case RelayBegin(tx, limit, ids) => o.(relays := o.relays[tx := RelayTx(ids, AgentOutbox.RecsOf(o.rows, ids), [])])
    case RelaySend(tx, copies, ok, key) =>
      o.(relays := o.relays[tx := o.relays[tx].(oks := o.relays[tx].oks + [ok])])
    case RelayCommit(tx, now) =>
      o.(rows := AgentOutbox.MarkAll(o.rows, o.relays[tx].recs, o.relays[tx].oks, now), relays := WithoutKey(o.relays, tx))
    case RelayAbort(tx) => o.(relays := WithoutKey(o.relays, tx))
    case OutboxClean(cut) => o.(rows := AgentOutbox.Cleaned(o.rows, cut))
    case _ => o
  }

  ghost function DoTopic(o: Outbox, topic: seq<Message>, a: Action): (t: seq<Message>)
    requires CanOutbox(o, topic, a)
    ensures topic <= t
  {
    match a
    case RelaySend(tx, copies, ok, key) =>
      topic + Repeat(Message(key, Some(ToUpdate(o.relays[tx].recs[|o.relays[tx].oks|]))), copies)
    case Foreign(m) => topic + [m]
    case _ => topic
  }

  // ---------- the bot consumer ----------

  predicate Next(topic: seq<Message>, r: Reader) {
    r.committed < |topic|
  }

  predicate NextAcceptable(topic: seq<Message>, r: Reader) {
    Next(topic, r) && Acceptable(topic[r.committed])
  }

  predicate Stores(o: Insert) {
    o.Inserted? || (o.Swallowed? && o.stored)
  }

  predicate CanRead(topic: seq<Message>, r: Reader, rows: map<nat, BotInbox.Row>, a: Action) {
    match a
    case Restart => r.consumer.Stopped?
    case Reject(dlqOk) => r.consumer.Fetching? && Next(topic, r) && !NextAcceptable(topic, r)
    case Add(outcome, now) =>
      && r.consumer.Fetching? && NextAcceptable(topic, r)
      && (Stores(outcome) ==> !BotInbox.KeyTaken(rows, topic[r.committed].key))
      && (outcome.Duplicate? ==> BotInbox.KeyTaken(rows, topic[r.committed].key))
    case CommitOffset => r.consumer.Handled?
    case _ => true
  }

  /** sendDLQ: its error ends the loop, its success lets the loop commit. */
  function DeadLetter(r: Reader, m: Message, dlqOk: bool): Reader {
    if dlqOk then r.(consumer := Handled, dlq := r.dlq + [m]) else r.(consumer := Stopped)
  }

  function DoRead(topic: seq<Message>, r: Reader, rows: map<nat, BotInbox.Row>, a: Action): Reader
    requires CanRead(topic, r, rows, a)
  {
    match a
    case Restart => r.(consumer := Fetching)
    case Stop => r.(consumer := Stopped)
    case Reject(dlqOk) => DeadLetter(r, topic[r.committed], dlqOk)
    case Add(outcome, now) =>
      (match outcome
       case DbError(dlqOk) => DeadLetter(r, topic[r.committed], dlqOk)
       case Swallowed(stored) => r.(consumer := Handled, silenced := r.silenced + {r.committed})
       case _ => r.(consumer := Handled))
    case CommitOffset => r.(consumer := Fetching, committed := r.committed + 1)
    case _ => r
  }

  // ---------- the bot inbox ----------

  function BotLocked(relays: map<nat, set<nat>>): set<nat> {
    set tx, r | tx in relays && r in relays[tx] :: r
  }

  function ShotIds(rows: map<nat, BotInbox.Row>, fetched: set<nat>): set<int> {
    set r | r in fetched && r in rows :: rows[r].upd.id
  }

  /** reach[r] is the number of chats of row r that sendTelegram reached (BotInbox.Reach). */
  predicate CanBot(b: Bot, a: Action) {
    match a
    case BotBegin(tx, fetched) => tx !in b.relays && fetched <= BotInbox.Pending(b.rows) - BotLocked(b.relays)
    case BotCommit(tx, reach) =>
      tx in b.relays && forall r :: r in b.relays[tx] && r in b.rows ==> r in reach && reach[r] <= |b.rows[r].upd.chats|
    case BotAbort(tx) => tx in b.relays
    case _ => true
  }

  function FatesOf(rows: map<nat, BotInbox.Row>, fetched: set<nat>, reach: map<nat, nat>): map<nat, Fate>
    requires forall r :: r in fetched && r in rows ==> r in reach
  {
    map r | r in rows && rows[r].pending && rows[r].upd.id in ShotIds(rows, fetched) ::
      if r in fetched then Fate(rows[r], true, reach[r]) else Fate(rows[r], false, 0)
  }

  function DoBot(b: Bot, topic: seq<Message>, r: Reader, a: Action): Bot
    requires CanBot(b, a) && CanRead(topic, r, b.rows, a)
  {
    match a
    case Add(outcome, now) =>
      if Stores(outcome) then
        b.(rows := b.rows[b.next := BotInbox.Row(topic[r.committed].key, topic[r.committed].body.value, now, true)], next := b.next + 1)
      else b
    case BotBegin(tx, fetched) => b.(relays := b.relays[tx := fetched])
    case BotCommit(tx, reach) =>
      b.(rows := BotInbox.Mark(b.rows, ShotIds(b.rows, b.relays[tx])), relays := WithoutKey(b.relays, tx),
         fates := b.fates + FatesOf(b.rows, b.relays[tx], reach))
    case BotAbort(tx) => b.(relays := WithoutKey(b.relays, tx))
    case BotClean(cut) => b.(rows := BotInbox.Cleaned(b.rows, cut))
    case _ => b
  }

  ghost predicate Enabled(s: State, a: Action) {
    CanOutbox(s.outbox, s.topic, a) && CanRead(s.topic, s.reader, s.bot.rows, a) && CanBot(s.bot, a)
  }

  ghost function Apply(s: State, a: Action): State
    requires Enabled(s, a)
  {
    State(DoOutbox(s.outbox, s.topic, a), DoTopic(s.outbox, s.topic, a),
          DoRead(s.topic, s.reader, s.bot.rows, a), DoBot(s.bot, s.topic, s.reader, a))
  }

  // ---------- outbox invariants ----------

  ghost predicate OnTopic(topic: seq<Message>, rec: Processed) {
    exists i :: 0 <= i < |topic| && Says(topic[i], rec)
  }

  ghost predicate Queued(o: Outbox, rec: Processed) {
    exists r :: r in o.rows && o.rows[r].processed.None? && o.rows[r].rec == rec
  }

  /** Some record with this update id was published. */
  ghost predicate IdPublished(o: Outbox, topic: seq<Message>, id: int) {
    exists rec :: rec in o.added && rec.id == id && OnTopic(topic, rec)
  }

  ghost predicate RelayFits(o: Outbox, topic: seq<Message>, t: RelayTx) {
    && |t.oks| <= |t.recs|
    && (forall i :: 0 <= i < |t.recs| ==> t.recs[i] in o.added)
    && (forall i :: 0 <= i < |t.oks| && t.oks[i] ==> OnTopic(topic, t.recs[i]))
  }

  ghost predicate Relaying(o: Outbox, topic: seq<Message>) {
    && (forall r :: r in o.rows ==> r < o.next && o.rows[r].rec in o.added)
    && (forall tx :: tx in o.relays ==> RelayFits(o, topic, o.relays[tx]))
  }

  /** A row is stamped only after some record with its update id was published. */
  ghost predicate Stamped(o: Outbox, topic: seq<Message>) {
    forall r :: r in o.rows && o.rows[r].processed.Some? ==> IdPublished(o, topic, o.rows[r].rec.id)
  }

  /** A row leaves the queue only after a row with its update id was published. */
  ghost predicate Conserved(o: Outbox, topic: seq<Message>) {
    forall rec :: rec in o.added ==> Queued(o, rec) || IdPublished(o, topic, rec.id)
  }

  // ---------- bot invariants ----------

  /** The key has a row in the inbox, or had one whose fate is known. */
  ghost predicate Recorded(b: Bot, key: string) {
    BotInbox.KeyTaken(b.rows, key) || exists r :: r in b.fates && b.fates[r].row.key == key
  }

  ghost predicate Intake(b: Bot) {
    && BotInbox.UniqueKeys(b.rows)
    && (forall r :: r in b.rows ==> r < b.next)
    && (forall r :: r in b.fates ==> r < b.next && (r in b.rows ==> !b.rows[r].pending))
    && (forall r :: r in b.rows && !b.rows[r].pending ==> r in b.fates && b.fates[r].row == b.rows[r].(pending := true))
  }

  ghost predicate Passed(topic: seq<Message>, r: Reader, b: Bot, i: nat) {
    i < |topic| && (Recorded(b, topic[i].key) || topic[i] in r.dlq || i in r.silenced)
  }

  ghost predicate Cursor(topic: seq<Message>, r: Reader, b: Bot) {
    && r.committed <= |topic|
    && (forall i :: 0 <= i < r.committed ==> Passed(topic, r, b, i))
    && (r.consumer.Handled? ==> Passed(topic, r, b, r.committed))
  }

  /** Every row and every fate stems from a message with that key and update. */
  ghost predicate FromTopic(topic: seq<Message>, row: BotInbox.Row) {
    exists i :: 0 <= i < |topic| && topic[i] == Message(row.key, Some(row.upd)) && Acceptable(topic[i])
  }

  ghost predicate Genuine(topic: seq<Message>, b: Bot) {
    && (forall r :: r in b.rows ==> FromTopic(topic, b.rows[r]))
    && (forall r :: r in b.fates ==> FromTopic(topic, b.fates[r].row))
  }

  ghost predicate Inv(s: State) {
    && Relaying(s.outbox, s.topic)
    && Stamped(s.outbox, s.topic)
    && Conserved(s.outbox, s.topic)
    && Intake(s.bot)
    && Cursor(s.topic, s.reader, s.bot)
    && Genuine(s.topic, s.bot)
  }

  // ---------- one step of the outbox ----------

  lemma {:induction false} InsertedExact(rows: map<nat, AgentOutbox.Row>, next: nat, recs: seq<Processed>, now: int)
    requires forall r :: r in rows ==> r < next
    ensures var after := Inserted(rows, next, recs, now);
      && (forall r :: r in after <==> r in rows || next <= r < next + |recs|)
      && (forall r :: r in rows ==> after[r] == rows[r])
      && (forall i :: 0 <= i < |recs| ==> after[next + i] == AgentOutbox.Row(recs[i], now, None, 0))
      && (forall r :: r in after && r !in rows ==> after[r].processed.None?)
  {
    if recs != [] {
      InsertedExact(rows, next, recs[..|recs| - 1], now);
    }
  }

  lemma OnTopicStays(t0: seq<Message>, t1: seq<Message>, rec: Processed)
    requires t0 <= t1 && OnTopic(t0, rec)
    ensures OnTopic(t1, rec)
  {
    var i :| 0 <= i < |t0| && Says(t0[i], rec);
    assert t1[i] == t0[i];
  }

  lemma FitsStays(o: Outbox, p: Outbox, t0: seq<Message>, t1: seq<Message>, t: RelayTx)
    requires RelayFits(o, t0, t) && t0 <= t1 && o.added <= p.added
    ensures RelayFits(p, t1, t)
  {
    forall i | 0 <= i < |t.oks| && t.oks[i]
      ensures OnTopic(t1, t.recs[i])
    {
      OnTopicStays(t0, t1, t.recs[i]);
    }
  }

  lemma RowsStep(o: Outbox, topic: seq<Message>, a: Action)
    requires Relaying(o, topic) && CanOutbox(o, topic, a)
    ensures var p := DoOutbox(o, topic, a); forall r :: r in p.rows ==> r < p.next && p.rows[r].rec in p.added
  {
    var p := DoOutbox(o, topic, a);
    match a
    case AddBatch(recs, now) =>
      InsertedExact(o.rows, o.next, recs, now);
      forall r | r in p.rows && r !in o.rows
        ensures p.rows[r].rec in p.added
      {
        assert p.rows[o.next + (r - o.next)] == AgentOutbox.Row(recs[r - o.next], now, None, 0);
      }
    case RelayCommit(tx, now) => MarkedRows(o, tx, now);
    case _ =>
  }

  /** A commit changes statuses only; the keys and records stay. */
  lemma MarkedRows(o: Outbox, tx: nat, now: int)
    requires tx in o.relays && |o.relays[tx].oks| <= |o.relays[tx].recs|
    ensures var after := AgentOutbox.MarkAll(o.rows, o.relays[tx].recs, o.relays[tx].oks, now);
      && after.Keys == o.rows.Keys
      && forall r :: r in o.rows ==> after[r].rec == o.rows[r].rec
  {
    var recs, oks := o.relays[tx].recs, o.relays[tx].oks;
    AgentOutbox.MarkKeepsKeys(o.rows, recs, oks, now);
    forall r | r in o.rows
      ensures AgentOutbox.MarkAll(o.rows, recs, oks, now)[r].rec == o.rows[r].rec
    {
      AgentOutbox.MarkAllExact(o.rows, recs, oks, now, r);
    }
  }

  lemma SentFits(o: Outbox, topic: seq<Message>, tx: nat, copies: nat, ok: bool, key: string)
    requires Relaying(o, topic) && CanOutbox(o, topic, RelaySend(tx, copies, ok, key))
    ensures var a := RelaySend(tx, copies, ok, key); var p := DoOutbox(o, topic, a);
      RelayFits(p, DoTopic(o, topic, a), p.relays[tx])
  {
    var a := RelaySend(tx, copies, ok, key);
    var t := o.relays[tx];
    FitsStays(o, o, topic, DoTopic(o, topic, a), t);
    if ok {
      assert Says(DoTopic(o, topic, a)[|topic|], t.recs[|t.oks|]);
    }
  }

  lemma RelayingStep(o: Outbox, topic: seq<Message>, a: Action)
    requires Relaying(o, topic) && CanOutbox(o, topic, a)
    ensures Relaying(DoOutbox(o, topic, a), DoTopic(o, topic, a))
  {
    var p, t1 := DoOutbox(o, topic, a), DoTopic(o, topic, a);
    RowsStep(o, topic, a);
    forall tx | tx in p.relays
      ensures RelayFits(p, t1, p.relays[tx])
    {
      if a.RelaySend? && a.tx == tx {
        SentFits(o, topic, tx, a.copies, a.ok, a.key);
      } else if tx in o.relays {
        FitsStays(o, p, topic, t1, o.relays[tx]);
      }
    }
  }

  /** A queued record stays queued, unless a relay commits that published its update id. */
  lemma QueuedStays(o: Outbox, topic: seq<Message>, a: Action, rec: Processed)
    requires Relaying(o, topic) && CanOutbox(o, topic, a) && Queued(o, rec)
    ensures Queued(DoOutbox(o, topic, a), rec) || IdPublished(o, topic, rec.id)
  {
    var r :| r in o.rows && o.rows[r].processed.None? && o.rows[r].rec == rec;
    var p := DoOutbox(o, topic, a);
    match a
    case AddBatch(recs, now) => InsertedExact(o.rows, o.next, recs, now);
    case RelayCommit(tx, now) =>
      var recs, oks := o.relays[tx].recs, o.relays[tx].oks;
      AgentOutbox.MarkAllExact(o.rows, recs, oks, now, r);
      if AgentOutbox.Hit(recs, oks, rec.id) {
        var k :| 0 <= k < |oks| && oks[k] && recs[k].id == rec.id;
        assert RelayFits(o, topic, o.relays[tx]);
      } else {
        assert p.rows[r].processed.None?;
      }
    case OutboxClean(cut) => assert r in p.rows;
    case _ =>
  }

  lemma PublishedStays(o: Outbox, topic: seq<Message>, a: Action, id: int)
    requires CanOutbox(o, topic, a) && IdPublished(o, topic, id)
    ensures IdPublished(DoOutbox(o, topic, a), DoTopic(o, topic, a), id)
  {
    var rec :| rec in o.added && rec.id == id && OnTopic(topic, rec);
    OnTopicStays(topic, DoTopic(o, topic, a), rec);
    assert rec in DoOutbox(o, topic, a).added;
  }

  lemma StampedStep(o: Outbox, topic: seq<Message>, a: Action)
    requires Relaying(o, topic) && Stamped(o, topic) && CanOutbox(o, topic, a)
    ensures Stamped(DoOutbox(o, topic, a), DoTopic(o, topic, a))
  {
    var p := DoOutbox(o, topic, a);
    forall r | r in p.rows && p.rows[r].processed.Some?
      ensures IdPublished(p, DoTopic(o, topic, a), p.rows[r].rec.id)
    {
      StampedRow(o, topic, a, r);
      PublishedStays(o, topic, a, p.rows[r].rec.id);
    }
  }

  lemma StampedRow(o: Outbox, topic: seq<Message>, a: Action, r: nat)
    requires Relaying(o, topic) && Stamped(o, topic) && CanOutbox(o, topic, a)
    requires r in DoOutbox(o, topic, a).rows && DoOutbox(o, topic, a).rows[r].processed.Some?
    ensures IdPublished(o, topic, DoOutbox(o, topic, a).rows[r].rec.id)
  {
    match a
    case AddBatch(recs, now) =>
      InsertedExact(o.rows, o.next, recs, now);
    case RelayCommit(tx, now) =>
      var recs, oks := o.relays[tx].recs, o.relays[tx].oks;
      AgentOutbox.MarkKeepsKeys(o.rows, recs, oks, now);
      assert r in o.rows;
      AgentOutbox.MarkAllExact(o.rows, recs, oks, now, r);
      if AgentOutbox.Hit(recs, oks, o.rows[r].rec.id) {
        var k :| 0 <= k < |oks| && oks[k] && recs[k].id == o.rows[r].rec.id;
        assert RelayFits(o, topic, o.relays[tx]);
      }
    case _ =>
  }

  lemma ConservedStep(o: Outbox, topic: seq<Message>, a: Action)
    requires Relaying(o, topic) && Conserved(o, topic) && CanOutbox(o, topic, a)
    ensures Conserved(DoOutbox(o, topic, a), DoTopic(o, topic, a))
  {
    var p, t1 := DoOutbox(o, topic, a), DoTopic(o, topic, a);
    forall rec | rec in p.added
      ensures Queued(p, rec) || IdPublished(p, t1, rec.id)
    {
      if rec in o.added {
        if Queued(o, rec) {
          QueuedStays(o, topic, a, rec);
        }
        if IdPublished(o, topic, rec.id) {
          PublishedStays(o, topic, a, rec.id);
        }
      } else {
        InsertedExact(o.rows, o.next, a.recs, a.now);
        var i :| 0 <= i < |a.recs| && a.recs[i] == rec;
        assert p.rows[o.next + i].rec == rec;
      }
    }
  }

  // ---------- one step of the bot ----------

  lemma IntakeStep(topic: seq<Message>, r: Reader, b: Bot, a: Action)
    requires Intake(b) && CanRead(topic, r, b.rows, a) && CanBot(b, a)
    ensures Intake(DoBot(b, topic, r, a))
  {
  }

  lemma RecordedStays(topic: seq<Message>, r: Reader, b: Bot, a: Action, key: string)
    requires Intake(b) && CanRead(topic, r, b.rows, a) && CanBot(b, a) && Recorded(b, key)
    ensures Recorded(DoBot(b, topic, r, a), key)
  {
    var c := DoBot(b, topic, r, a);
    if BotInbox.KeyTaken(b.rows, key) {
      var q :| q in b.rows && b.rows[q].key == key;
      if q in c.rows {
        assert c.rows[q].key == key;
      } else {
        assert q in c.fates && c.fates[q].row.key == key;
      }
    } else {
      var q :| q in b.fates && b.fates[q].row.key == key;
      assert q in c.fates && c.fates[q] == b.fates[q];
    }
  }

  lemma PassedStays(s: State, a: Action, i: nat)
    requires Inv(s) && Enabled(s, a) && Passed(s.topic, s.reader, s.bot, i)
    ensures var t := Apply(s, a); Passed(t.topic, t.reader, t.bot, i)
  {
    if Recorded(s.bot, s.topic[i].key) {
      RecordedStays(s.topic, s.reader, s.bot, a, s.topic[i].key);
    }
  }

  lemma HandledStep(s: State, a: Action)
    requires Inv(s) && Enabled(s, a) && Apply(s, a).reader.consumer.Handled?
    ensures var t := Apply(s, a); Passed(t.topic, t.reader, t.bot, t.reader.committed)
  {
    match a
    case Add(outcome, now) =>
      if outcome.Inserted? {
        assert Apply(s, a).bot.rows[s.bot.next].key == s.topic[s.reader.committed].key;
      }
    case Reject(dlqOk) =>
    case _ =>
      PassedStays(s, a, s.reader.committed);
  }

  lemma CursorStep(s: State, a: Action)
    requires Inv(s) && Enabled(s, a)
    ensures var t := Apply(s, a); Cursor(t.topic, t.reader, t.bot)
  {
    var t := Apply(s, a);
    forall i | 0 <= i < t.reader.committed
      ensures Passed(t.topic, t.reader, t.bot, i)
    {
      PassedStays(s, a, i);
    }
    if t.reader.consumer.Handled? {
      HandledStep(s, a);
    }
  }

  lemma FromTopicStays(t0: seq<Message>, t1: seq<Message>, row: BotInbox.Row)
    requires t0 <= t1 && FromTopic(t0, row)
    ensures FromTopic(t1, row)
  {
    var i :| 0 <= i < |t0| && t0[i] == Message(row.key, Some(row.upd)) && Acceptable(t0[i]);
    assert t1[i] == t0[i];
  }

  lemma GenuineKept(t0: seq<Message>, t1: seq<Message>, b: Bot)
    requires Genuine(t0, b) && t0 <= t1
    ensures Genuine(t1, b)
  {
    forall row | FromTopic(t0, row)
      ensures FromTopic(t1, row)
    {
      FromTopicStays(t0, t1, row);
    }
  }

  lemma FromTopicEither(topic: seq<Message>, row: BotInbox.Row, pending: bool)
    requires FromTopic(topic, row)
    ensures FromTopic(topic, row.(pending := pending))
  {
    var i :| 0 <= i < |topic| && topic[i] == Message(row.key, Some(row.upd)) && Acceptable(topic[i]);
  }

  /** A commit changes the pending flags and keeps what was read in the fates. */
  lemma GenuineCommit(topic: seq<Message>, r: Reader, b: Bot, tx: nat, reach: map<nat, nat>)
    requires Genuine(topic, b) && CanRead(topic, r, b.rows, BotCommit(tx, reach)) && CanBot(b, BotCommit(tx, reach))
    ensures Genuine(topic, DoBot(b, topic, r, BotCommit(tx, reach)))
  {
    var c := DoBot(b, topic, r, BotCommit(tx, reach));
    forall q | q in c.rows
      ensures FromTopic(topic, c.rows[q])
    {
      FromTopicEither(topic, b.rows[q], c.rows[q].pending);
    }
  }

  lemma GenuineBot(topic: seq<Message>, r: Reader, b: Bot, a: Action)
    requires Genuine(topic, b) && CanRead(topic, r, b.rows, a) && CanBot(b, a)
    ensures Genuine(topic, DoBot(b, topic, r, a))
  {
    if a.BotCommit? {
      GenuineCommit(topic, r, b, a.tx, a.reach);
    }
  }

  lemma GenuineStep(s: State, a: Action)
    requires Inv(s) && Enabled(s, a)
    ensures Genuine(Apply(s, a).topic, Apply(s, a).bot)
  {
    GenuineBot(s.topic, s.reader, s.bot, a);
    GenuineKept(s.topic, Apply(s, a).topic, Apply(s, a).bot);
  }

  lemma InvStep(s: State, a: Action)
    requires Inv(s) && Enabled(s, a)
    ensures Inv(Apply(s, a))
  {
    RelayingStep(s.outbox, s.topic, a);
    StampedStep(s.outbox, s.topic, a);
    ConservedStep(s.outbox, s.topic, a);
    IntakeStep(s.topic, s.reader, s.bot, a);
    CursorStep(s, a);
    GenuineStep(s, a);
  }

  // ---------- runs ----------

  ghost predicate Steps(s: State, a: Action, t: State) {
    Enabled(s, a) && t == Apply(s, a)
  }

  /** trace[k] is the state before acts[k]. */
  ghost predicate Path(trace: seq<State>, acts: seq<Action>) {
    Machines.Path(Steps, trace, acts)
  }

  ghost predicate Run(trace: seq<State>, acts: seq<Action>) {
    Path(trace, acts) && trace[0] == INIT
  }

  lemma InvRun(trace: seq<State>, acts: seq<Action>, k: nat)
    requires Run(trace, acts) && k < |trace|
    ensures Inv(trace[k])
  {
    forall s, a, t | Inv(s) && Steps(s, a, t)
      ensures Inv(t)
    {
      InvStep(s, a);
    }
    Machines.Always(Steps, Inv, trace, acts, k);
  }

  predicate DistinctIds(recs: set<Processed>) {
    forall a, b :: a in recs && b in recs && a.id == b.id ==> a == b
  }

  /** Relay safety: a record written by a window is queued, or some record with its update id was
      published; when ids tell records apart, it was published itself. */
  lemma OutboxConservation(trace: seq<State>, acts: seq<Action>, k: nat, rec: Processed)
    requires Run(trace, acts) && k < |trace| && rec in trace[k].outbox.added
    ensures Queued(trace[k].outbox, rec) || IdPublished(trace[k].outbox, trace[k].topic, rec.id)
    ensures DistinctIds(trace[k].outbox.added) ==> Queued(trace[k].outbox, rec) || OnTopic(trace[k].topic, rec)
  {
    InvRun(trace, acts, k);
  }

  /** Relay safety over every run: a row carries a processing time only if a record with its update id was
      published. */
  lemma StampedWasPublished(trace: seq<State>, acts: seq<Action>, k: nat, r: nat)
    requires Run(trace, acts) && k < |trace| && r in trace[k].outbox.rows && trace[k].outbox.rows[r].processed.Some?
    ensures IdPublished(trace[k].outbox, trace[k].topic, trace[k].outbox.rows[r].rec.id)
  {
    InvRun(trace, acts, k);
  }

  /** Bot intake: every committed offset is recorded under its key, dead-lettered, or was passed over a
      swallowed insert error; and no two inbox rows share a key. */
  lemma BotIntake(trace: seq<State>, acts: seq<Action>, k: nat)
    requires Run(trace, acts) && k < |trace|
    ensures var s := trace[k];
      && (forall i :: 0 <= i < s.reader.committed ==>
           i < |s.topic| && (Recorded(s.bot, s.topic[i].key) || s.topic[i] in s.reader.dlq || i in s.reader.silenced))
      && BotInbox.UniqueKeys(s.bot.rows)
  {
    InvRun(trace, acts, k);
    var s := trace[k];
    forall i | 0 <= i < s.reader.committed
      ensures i < |s.topic| && (Recorded(s.bot, s.topic[i].key) || s.topic[i] in s.reader.dlq || i in s.reader.silenced)
    {
      assert Passed(s.topic, s.reader, s.bot, i);
    }
  }

  // ---------- what the keys are worth ----------

  /** Nobody else writes to the prepared topic. */
  ghost predicate OwnSteps(s: State, a: Action, t: State) {
    Steps(s, a, t) && !a.Foreign?
  }

  ghost predicate OwnRun(trace: seq<State>, acts: seq<Action>) {
    Machines.Path(OwnSteps, trace, acts) && trace[0] == INIT
  }

  predicate KeysTell(topic: seq<Message>) {
    forall i, j :: 0 <= i < |topic| && 0 <= j < |topic| && topic[i].key == topic[j].key ==> topic[i] == topic[j]
  }

  ghost predicate InvAndKeys(s: State) {
    Inv(s) && KeysTell(s.topic)
  }

  lemma OwnInvRun(trace: seq<State>, acts: seq<Action>, k: nat)
    requires OwnRun(trace, acts) && k < |trace|
    ensures Inv(trace[k]) && KeysTell(trace[k].topic)
  {
    forall s, a, t | InvAndKeys(s) && OwnSteps(s, a, t)
      ensures InvAndKeys(t)
    {
      InvStep(s, a);
      KeysStep(s, a);
    }
    Machines.Always(OwnSteps, InvAndKeys, trace, acts, k);
  }

  lemma KeysStep(s: State, a: Action)
    requires KeysTell(s.topic) && Enabled(s, a) && !a.Foreign?
    ensures KeysTell(Apply(s, a).topic)
  {
  }

  /** Row r, in the table or relayed out of it, is the bot's record of message m. */
  predicate Holds(b: Bot, r: nat, m: Message) {
    && m.body.Some?
    && ((r in b.rows && b.rows[r].key == m.key && b.rows[r].upd == m.body.value)
        || (r in b.fates && b.fates[r].row.key == m.key && b.fates[r].row.upd == m.body.value))
  }

  lemma HeldMessage(topic: seq<Message>, b: Bot, i: nat) returns (r: nat)
    requires Genuine(topic, b) && KeysTell(topic) && i < |topic| && Recorded(b, topic[i].key)
    ensures Holds(b, r, topic[i])
  {
    var key := topic[i].key;
    var row;
    if BotInbox.KeyTaken(b.rows, key) {
      r :| r in b.rows && b.rows[r].key == key;
      row := b.rows[r];
    } else {
      r :| r in b.fates && b.fates[r].row.key == key;
      row := b.fates[r].row;
    }
    var j :| 0 <= j < |topic| && topic[j] == Message(row.key, Some(row.upd)) && Acceptable(topic[j]);
    assert topic[i] == topic[j];
  }

  /** Without foreign messages a committed record is held by the bot word for word, unless it was
      dead-lettered or silently passed. */
  lemma CommittedIsHeld(trace: seq<State>, acts: seq<Action>, k: nat, i: nat)
    requires OwnRun(trace, acts) && k < |trace| && i < trace[k].reader.committed
    ensures i < |trace[k].topic|
    ensures || (exists r :: Holds(trace[k].bot, r, trace[k].topic[i]))
            || trace[k].topic[i] in trace[k].reader.dlq
            || i in trace[k].reader.silenced
  {
    var s := trace[k];
    OwnInvRun(trace, acts, k);
    assert Passed(s.topic, s.reader, s.bot, i);
    if Recorded(s.bot, s.topic[i].key) {
      var r := HeldMessage(s.topic, s.bot, i);
    }
  }

  /** Offset i was written by step m. */
  ghost predicate WrittenBy(trace: seq<State>, m: nat, i: nat) {
    m + 1 < |trace| && |trace[m].topic| <= i < |trace[m + 1].topic|
  }

  lemma {:induction false} TopicGrows(trace: seq<State>, acts: seq<Action>, m: nat, n: nat)
    requires OwnRun(trace, acts) && m <= n < |trace|
    ensures trace[m].topic <= trace[n].topic
  {
    if m < n {
      TopicGrows(trace, acts, m, n - 1);
      assert OwnSteps(trace[n - 1], acts[n - 1], trace[n - 1 + 1]);
    }
  }

  /** The key of an offset is that of the Publish call that wrote it. */
  lemma KeyOfWriter(trace: seq<State>, acts: seq<Action>, k: nat, m: nat, i: nat)
    requires OwnRun(trace, acts) && m < k < |trace| && WrittenBy(trace, m, i)
    ensures acts[m].RelaySend? && i < |trace[k].topic| && trace[k].topic[i].key == acts[m].key
  {
    assert OwnSteps(trace[m], acts[m], trace[m + 1]);
    TopicGrows(trace, acts, m + 1, k);
    assert trace[k].topic[i] == trace[m + 1].topic[i];
  }

  lemma DifferentWriters(trace: seq<State>, acts: seq<Action>, k: nat, m: nat, n: nat, i: nat, j: nat)
    requires OwnRun(trace, acts) && m < n < k < |trace| && WrittenBy(trace, m, i) && WrittenBy(trace, n, j)
    ensures i < |trace[k].topic| && j < |trace[k].topic| && trace[k].topic[i].key != trace[k].topic[j].key
  {
    KeyOfWriter(trace, acts, k, m, i);
    KeyOfWriter(trace, acts, k, n, j);
    assert OwnSteps(trace[n], acts[n], trace[n + 1]);
    TopicGrows(trace, acts, m + 1, n);
    TopicGrows(trace, acts, n, k);
    assert trace[n].topic[i] == trace[k].topic[i];
  }

  /** The key is drawn anew for every Publish, so it recognises a redelivered or repeated message but not a
      record that a relay published twice: offsets of different Publish calls are held by different rows. */
  lemma RepublishedIsNotMerged(trace: seq<State>, acts: seq<Action>, k: nat, m: nat, n: nat, i: nat, j: nat, r: nat, q: nat)
    requires OwnRun(trace, acts) && m < k < |trace| && n < k && WrittenBy(trace, m, i) && WrittenBy(trace, n, j)
    requires i < |trace[k].topic| && Holds(trace[k].bot, r, trace[k].topic[i])
    requires j < |trace[k].topic| && Holds(trace[k].bot, q, trace[k].topic[j])
    ensures m != n ==> r != q
  {
    OwnInvRun(trace, acts, k);
    if m != n {
      DifferentWriters(trace, acts, k, if m < n then m else n, if m < n then n else m, if m < n then i else j, if m < n then j else i);
      if r in trace[k].bot.rows && r in trace[k].bot.fates {
        FateKey(trace[k], r);
      }
    }
  }

  /** The row and the fate of one row id agree. */
  lemma FateKey(s: State, r: nat)
    requires Inv(s) && r in s.bot.rows && r in s.bot.fates
    ensures s.bot.fates[r].row == s.bot.rows[r].(pending := true)
  {
  }

  /** Two rows in the table hold messages of one Publish call exactly when they are one row. */
  lemma PublishIsTheUnit(trace: seq<State>, acts: seq<Action>, k: nat, m: nat, n: nat, i: nat, j: nat, r: nat, q: nat)
    requires OwnRun(trace, acts) && m < k < |trace| && n < k && WrittenBy(trace, m, i) && WrittenBy(trace, n, j)
    requires i < |trace[k].topic| && Holds(trace[k].bot, r, trace[k].topic[i]) && r in trace[k].bot.rows
    requires j < |trace[k].topic| && Holds(trace[k].bot, q, trace[k].topic[j]) && q in trace[k].bot.rows
    ensures r == q <==> m == n
  {
    RepublishedIsNotMerged(trace, acts, k, m, n, i, j, r, q);
    OwnInvRun(trace, acts, k);
    if m == n {
      KeyOfWriter(trace, acts, k, m, i);
      KeyOfWriter(trace, acts, k, m, j);
      if r in trace[k].bot.fates {
        FateKey(trace[k], r);
      }
      if q in trace[k].bot.fates {
        FateKey(trace[k], q);
      }
    }
  }

  // ---------- deliveries ----------

  /** A row dropped unsent shares its shot id with a row relayed by the same commit. */
  lemma DroppedSharesShotId(b: Bot, topic: seq<Message>, rd: Reader, tx: nat, reach: map<nat, nat>, r: nat)
    requires Intake(b) && CanRead(topic, rd, b.rows, BotCommit(tx, reach)) && CanBot(b, BotCommit(tx, reach))
    requires r in b.rows && b.rows[r].pending
    ensures var c := DoBot(b, topic, rd, BotCommit(tx, reach));
      c.rows[r].pending <==> forall q :: q in b.relays[tx] && q in b.rows ==> b.rows[q].upd.id != b.rows[r].upd.id
    ensures var c := DoBot(b, topic, rd, BotCommit(tx, reach));
      !c.rows[r].pending ==> c.fates[r] == if r in b.relays[tx] then Fate(b.rows[r], true, reach[r]) else Fate(b.rows[r], false, 0)
  {
    assert r in b.relays[tx] ==> b.rows[r].upd.id in ShotIds(b.rows, b.relays[tx]);
  }

  // ---------- the relay loop is a run of the machine ----------

  /** The messages say the records, one by one. */
  predicate Echo(msgs: seq<Message>, recs: seq<Processed>) {
    |msgs| == |recs| && forall k :: 0 <= k < |msgs| ==> Says(msgs[k], recs[k])
  }

  predicate FreshKeys(topic: seq<Message>, keys: seq<string>) {
    && (forall i, j :: 0 <= i < j < |keys| ==> keys[i] != keys[j])
    && forall i :: 0 <= i < |keys| ==> FreshKey(topic, keys[i])
  }

  /** t is s after the relay tx sent its first n records; msgs is what the topic gained. */
  ghost predicate Sent(s: State, t: State, tx: nat, publish: seq<bool>, keys: seq<string>, n: nat, msgs: seq<Message>)
    requires tx in s.outbox.relays && n <= |publish| == |s.outbox.relays[tx].recs|
  {
    var r := s.outbox.relays[tx];
    && t == s.(outbox := s.outbox.(relays := s.outbox.relays[tx := RelayTx(r.ids, r.recs, publish[..n])]), topic := s.topic + msgs)
    && Echo(msgs, AgentOutbox.Published(r.recs, publish[..n]))
    && forall m :: m in msgs ==> exists i :: 0 <= i < n && i < |keys| && m.key == keys[i]
  }

  function SendOf(tx: nat, publish: seq<bool>, keys: seq<string>, n: nat): Action
    requires n < |publish| == |keys|
  {
    RelaySend(tx, if publish[n] then 1 else 0, publish[n], keys[n])
  }

  lemma SendStep(s: State, t: State, tx: nat, publish: seq<bool>, keys: seq<string>, n: nat, msgs: seq<Message>)
    returns (more: seq<Message>)
    requires tx in s.outbox.relays && n < |publish| == |keys| == |s.outbox.relays[tx].recs| && FreshKeys(s.topic, keys)
    requires Sent(s, t, tx, publish, keys, n, msgs)
    ensures Enabled(t, SendOf(tx, publish, keys, n))
    ensures Sent(s, Apply(t, SendOf(tx, publish, keys, n)), tx, publish, keys, n + 1, more)
  {
    var r := s.outbox.relays[tx];
    var a := SendOf(tx, publish, keys, n);
    assert FreshKey(t.topic, keys[n]);
    var one := if publish[n] then [Message(keys[n], Some(ToUpdate(r.recs[n])))] else [];
    assert Repeat(Message(keys[n], Some(ToUpdate(r.recs[n]))), a.copies) == one;
    more := msgs + one;
    Assoc(s.topic, msgs, one);
    assert publish[..n + 1] == publish[..n] + [publish[n]] && publish[..n + 1][..n] == publish[..n];
    var u := Apply(t, a);
    assert u.outbox.relays == s.outbox.relays[tx := RelayTx(r.ids, r.recs, publish[..n + 1])];
    forall m | m in more
      ensures exists i :: 0 <= i < n + 1 && i < |keys| && m.key == keys[i]
    {
      if m in msgs {
        var i :| 0 <= i < n && i < |keys| && m.key == keys[i];
      }
    }
  }

  lemma {:induction false} SendsRun(s: State, tx: nat, publish: seq<bool>, keys: seq<string>, n: nat)
    returns (trace: seq<State>, acts: seq<Action>, msgs: seq<Message>)
    requires tx in s.outbox.relays && s.outbox.relays[tx].oks == []
    requires n <= |publish| == |keys| == |s.outbox.relays[tx].recs| && FreshKeys(s.topic, keys)
    ensures Path(trace, acts) && trace[0] == s && Sent(s, trace[|acts|], tx, publish, keys, n, msgs)
  {
    if n == 0 {
      trace, acts, msgs := [s], [], [];
      assert publish[..0] == [] && s.topic + msgs == s.topic;
      assert s.outbox.relays[tx := s.outbox.relays[tx]] == s.outbox.relays;
    } else {
      var t0, a0, m0 := SendsRun(s, tx, publish, keys, n - 1);
      var t, a := t0[|a0|], SendOf(tx, publish, keys, n - 1);
      msgs := SendStep(s, t, tx, publish, keys, n - 1, m0);
      Machines.PathOne(Steps, t, a, Apply(t, a));
      Machines.PathConcat(Steps, t0, a0, [t, Apply(t, a)], [a]);
      trace, acts := t0 + [t, Apply(t, a)][1..], a0 + [a];
    }
  }

  /** Whatever Publish answers, the relay of a fetched batch as the scheduler runs it is a run of the machine:
      it leaves the rows of RelayOutboxTx, and the topic gains a message for every record published, in
      order, saying that record. */
  lemma RelayIsARun(s: State, tx: nat, publish: seq<bool>, keys: seq<string>, now: int)
    returns (trace: seq<State>, acts: seq<Action>, msgs: seq<Message>, gained: seq<Processed>)
    requires tx in s.outbox.relays && s.outbox.relays[tx].oks == []
    requires |publish| == |keys| == |s.outbox.relays[tx].recs| && FreshKeys(s.topic, keys)
    ensures Path(trace, acts) && trace[0] == s && trace[|acts|].topic == s.topic + msgs && Echo(msgs, gained)
    ensures AgentOutbox.Relayed(s.outbox.rows, trace[|acts|].outbox.rows, s.outbox.relays[tx].recs, publish, gained, now)
  {
    var r := s.outbox.relays[tx];
    var t0, a0;
    t0, a0, msgs := SendsRun(s, tx, publish, keys, |publish|);
    assert publish[..|publish|] == publish;
    gained := AgentOutbox.Published(r.recs, publish);
    var t, a := t0[|a0|], RelayCommit(tx, now);
    Machines.PathOne(Steps, t, a, Apply(t, a));
    Machines.PathConcat(Steps, t0, a0, [t, Apply(t, a)], [a]);
    trace, acts := t0 + [t, Apply(t, a)][1..], a0 + [a];
    AgentOutbox.RelayedExact(s.outbox.rows, r.recs, publish, now);
  }
}
