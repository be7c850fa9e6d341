/** First leg of the pipeline as a step machine: crawl transactions, scrapper outbox and its relay, the
    raw topic with the agent consumer's committed offset, the agent inbox, and the window transactions
    that empty it. Any step may be the last one before a crash. */
module RawLeg {
  import opened Records
  import ScrapperOutbox
  import AgentInbox
  import Machines

  /** What the agent consumer can find on the topic; Garbage stands for bytes decodeMessage rejects. */
  datatype Message = Upd(u: RawUpdate) | Garbage

  predicate Acceptable(m: Message) {
    m.Upd? && Valid(m.u)
  }

  /** The open relay transaction: fetched rows and the outcomes of the sends made so far. */
  datatype RelayTx = RelayTx(ids: seq<nat>, oks: seq<bool>)

  datatype Queue = Queue(rows: map<nat, ScrapperOutbox.Row>, next: nat, relay: Option<RelayTx>)

  /** The consumer loop at the committed offset: stopped, about to fetch, or about to commit. */
  datatype Consumer = Stopped | Fetching | Handled

  /** silenced: offsets passed over a swallowed insert error. */
  datatype Reader = Reader(committed: nat, consumer: Consumer, dlq: seq<Message>, silenced: set<nat>)

  /** emitted: updates of committed crawl transactions. */
  datatype State = State(queue: Queue, raw: seq<Message>, reader: Reader, agent: AgentInbox.Table, emitted: set<RawUpdate>)

  const INIT := State(Queue(map[], 0, None), [], Reader(0, Stopped, [], {}), AgentInbox.EMPTY, {})

  /** Outcome of AddRecord. Swallowed is an error that is not a PgError: AddRecord returns nil; the row
      may or may not have reached the table. */
  datatype Insert = Inserted | Duplicate | DbError(dlqOk: bool) | Swallowed(stored: bool)

  datatype Action =
    | Crawl(shots: seq<RawUpdate>, now: int)
    | RelayBegin(limit: nat, ids: seq<nat>)
    | RelaySend(copies: nat, ok: bool)   // a writer that retries may repeat the message
    | RelayCommit(now: int)
    | RelayAbort
    | OutboxClean(cut: int)
    | Foreign(m: Message)
    | Restart
    | Stop
    | Reject(dlqOk: bool)
    | Add(outcome: Insert, now: int)
    | CommitOffset
    | Agent(step: AgentInbox.Step)

  // ---------- the outbox ----------

  ghost predicate CanQueue(q: Queue, a: Action) {
    match a
    case RelayBegin(limit, ids) => q.relay.None? && ScrapperOutbox.Fetches(q.rows, limit, ids)
    case RelaySend(copies, ok) =>
      && q.relay.Some? && |q.relay.value.oks| < |q.relay.value.ids|
      && q.relay.value.ids[|q.relay.value.oks|] in q.rows && (ok ==> copies > 0)
    case RelayCommit(now) => q.relay.Some? && |q.relay.value.oks| == |q.relay.value.ids|
    case RelayAbort => q.relay.Some?
    case _ => true
  }

  ghost function DoQueue(q: Queue, a: Action): Queue
    requires CanQueue(q, a)
  {
    match a
    case Crawl(shots, now) => q.(rows := ScrapperOutbox.Inserted(q.rows, q.next, shots, now), next := q.next + |shots|)
    case RelayBegin(limit, ids) => q.(relay := Some(RelayTx(ids, [])))
    case RelaySend(copies, ok) => q.(relay := Some(q.relay.value.(oks := q.relay.value.oks + [ok])))
    case RelayCommit(now) =>
      q.(rows := ScrapperOutbox.MarkAll(q.rows, q.relay.value.ids, q.relay.value.oks, now), relay := None)
    case RelayAbort => q.(relay := None)
    case OutboxClean(cut) => q.(rows := ScrapperOutbox.Cleaned(q.rows, cut))
    case _ => q
  }

  /** A send puts the row's shot on the topic; it may do so and still report an error. */
  ghost function DoTopic(s: State, a: Action): (raw: seq<Message>)
    requires CanQueue(s.queue, a)
    ensures s.raw <= raw
  {
    match a
    case RelaySend(copies, ok) =>
      var t := s.queue.relay.value;
      s.raw + Repeat(Upd(s.queue.rows[t.ids[|t.oks|]].shot), copies)
    case Foreign(m) => s.raw + [m]
    case _ => s.raw
  }

  // ---------- the consumer and the agent ----------

  /** The message at the committed offset. */
  predicate Next(s: State) {
    s.reader.committed < |s.raw|
  }

  predicate NextAcceptable(s: State) {
    Next(s) && Acceptable(s.raw[s.reader.committed])
  }

  ghost predicate CanRead(s: State, a: Action) {
    match a
    case Restart => s.reader.consumer.Stopped?
    case Reject(dlqOk) => s.reader.consumer.Fetching? && Next(s) && !NextAcceptable(s)
    case Add(outcome, now) =>
      && s.reader.consumer.Fetching? && NextAcceptable(s)
      && var taken := AgentInbox.HasId(s.agent.rows, s.raw[s.reader.committed].u.id);
         (Stores(outcome) ==> !taken) && (outcome.Duplicate? ==> taken)
    case CommitOffset => s.reader.consumer.Handled?
    case Agent(step) => !step.Insert? && AgentInbox.Can(s.agent, step)
    case _ => true
  }

  predicate Stores(o: Insert) {
    o.Inserted? || (o.Swallowed? && o.stored)
  }

  /** A failed message goes to the DLQ, if that write succeeds, and the loop returns without committing. */
  function Fail(r: Reader, m: Message, dlqOk: bool): Reader {
    r.(consumer := Stopped, dlq := if dlqOk then r.dlq + [m] else r.dlq)
  }

  ghost function DoRead(s: State, a: Action): Reader
    requires CanRead(s, a)
  {
    match a
    case Restart => s.reader.(consumer := Fetching)
    case Stop => s.reader.(consumer := Stopped)
    case Reject(dlqOk) => Fail(s.reader, s.raw[s.reader.committed], dlqOk)
    case Add(outcome, now) =>
      (match outcome
       case DbError(dlqOk) => Fail(s.reader, s.raw[s.reader.committed], dlqOk)
       case Swallowed(stored) => s.reader.(consumer := Handled, silenced := s.reader.silenced + {s.reader.committed})
       case _ => s.reader.(consumer := Handled))
    case CommitOffset => s.reader.(consumer := Fetching, committed := s.reader.committed + 1)
    case _ => s.reader
  }

  /** What the action does to the agent's inbox, if anything. */
  ghost function InboxStep(s: State, a: Action): Option<AgentInbox.Step>
    requires CanRead(s, a)
  {
    match a
    case Add(outcome, now) => if Stores(outcome) then Some(AgentInbox.Insert(s.raw[s.reader.committed].u, now)) else None
    case Agent(step) => Some(step)
    case _ => None
  }

  ghost predicate Enabled(s: State, a: Action) {
    CanQueue(s.queue, a) && CanRead(s, a)
  }

  ghost function Apply(s: State, a: Action): State
    requires Enabled(s, a)
  {
    var step := InboxStep(s, a);
    State(DoQueue(s.queue, a), DoTopic(s, a), DoRead(s, a),
          if step.Some? then AgentInbox.Do(s.agent, step.value) else s.agent,
          if a.Crawl? then s.emitted + (set u | u in a.shots) else s.emitted)
  }

  // ---------- invariants ----------

  ghost predicate Queued(q: Queue, u: RawUpdate) {
    exists r :: r in q.rows && q.rows[r].processed.None? && q.rows[r].shot == u
  }

  /** The open relay holds rows that are still pending; whatever it counts as sent is on the topic. */
  ghost predicate Relaying(q: Queue, raw: seq<Message>) {
    && (forall r :: r in q.rows ==> r < q.next)
    && (q.relay.Some? ==> RelayFits(q, raw, q.relay.value))
  }

  ghost predicate RelayFits(q: Queue, raw: seq<Message>, t: RelayTx) {
    && |t.oks| <= |t.ids|
    && (forall i :: 0 <= i < |t.ids| ==> t.ids[i] in q.rows && q.rows[t.ids[i]].processed.None?)
    && (forall i :: 0 <= i < |t.oks| && t.oks[i] ==> Upd(q.rows[t.ids[i]].shot) in raw)
  }

  /** Only a row whose own shot was sent is stamped. */
  ghost predicate Stamped(q: Queue, raw: seq<Message>) {
    forall r :: r in q.rows && q.rows[r].processed.Some? ==> Upd(q.rows[r].shot) in raw
  }

  /** Nothing a crawl committed ever leaves both the queue and the topic. */
  ghost predicate Conserved(q: Queue, raw: seq<Message>, emitted: set<RawUpdate>) {
    forall u :: u in emitted ==> Queued(q, u) || Upd(u) in raw
  }

  /** Offset i carries an acceptable update that is represented, unless its insert error was swallowed. */
  ghost predicate Passed(raw: seq<Message>, agent: AgentInbox.Table, silenced: set<nat>, i: nat) {
    i < |raw| && Acceptable(raw[i]) && (AgentInbox.Represented(agent, raw[i].u.id) || i in silenced)
  }

  ghost predicate Cursor(s: State) {
    && s.reader.committed <= |s.raw|
    && (forall i :: i in s.reader.silenced ==> i <= s.reader.committed)
    && (forall i :: 0 <= i < s.reader.committed ==> Passed(s.raw, s.agent, s.reader.silenced, i))
    && (s.reader.consumer.Handled? ==> Passed(s.raw, s.agent, s.reader.silenced, s.reader.committed))
  }

  /** The message is among those up to offset n. */
  ghost predicate UpTo(raw: seq<Message>, n: nat, u: RawUpdate) {
    exists i :: 0 <= i <= n && i < |raw| && raw[i] == Upd(u)
  }

  /** The agent holds only valid updates that the consumer has fetched. */
  ghost predicate Genuine(raw: seq<Message>, committed: nat, agent: AgentInbox.Table) {
    && (forall r :: r in agent.rows ==> Valid(agent.rows[r].u) && UpTo(raw, committed, agent.rows[r].u))
    && (forall k, r :: 0 <= k < |agent.history| && r in agent.history[k].rows ==>
         Valid(agent.history[k].rows[r]) && UpTo(raw, committed, agent.history[k].rows[r]))
  }

  ghost predicate Inv(s: State) {
    && Relaying(s.queue, s.raw)
    && Stamped(s.queue, s.raw)
    && Conserved(s.queue, s.raw, s.emitted)
    && AgentInbox.Inv(s.agent)
    && Cursor(s)
    && Genuine(s.raw, s.reader.committed, s.agent)
  }

  // ---------- one step ----------

  lemma {:induction false} InsertedExact(rows: map<nat, ScrapperOutbox.Row>, nextId: nat, shots: seq<RawUpdate>, now: int)
    requires forall r :: r in rows ==> r < nextId
    ensures var after := ScrapperOutbox.Inserted(rows, nextId, shots, now);
      && (forall r :: r in after <==> r in rows || nextId <= r < nextId + |shots|)
      && (forall r :: r in rows ==> after[r] == rows[r])
      && (forall i :: 0 <= i < |shots| ==> after[nextId + i] == ScrapperOutbox.Row(shots[i], now, None, 0))
  {
    if shots != [] {
      InsertedExact(rows, nextId, shots[..|shots| - 1], now);
    }
  }

  lemma RelayingStep(s: State, a: Action)
    requires Relaying(s.queue, s.raw) && CanQueue(s.queue, a)
    ensures Relaying(DoQueue(s.queue, a), DoTopic(s, a))
  {
    var q := s.queue;
    match a
    case Crawl(shots, now) => InsertedExact(q.rows, q.next, shots, now);
    case RelayCommit(now) => ScrapperOutbox.MarkAllExact(q.rows, q.relay.value.ids, q.relay.value.oks, now);
    case _ =>
  }

  lemma StampedStep(s: State, a: Action)
    requires Relaying(s.queue, s.raw) && Stamped(s.queue, s.raw) && CanQueue(s.queue, a)
    ensures Stamped(DoQueue(s.queue, a), DoTopic(s, a))
  {
    var q, p := s.queue, DoQueue(s.queue, a);
    match a
    case Crawl(shots, now) =>
      InsertedExact(q.rows, q.next, shots, now);
      forall r | r in p.rows && r !in q.rows
        ensures p.rows[r].processed.None?
      {
        assert p.rows[q.next + (r - q.next)] == ScrapperOutbox.Row(shots[r - q.next], now, None, 0);
      }
    case RelayCommit(now) =>
      var ids, oks := q.relay.value.ids, q.relay.value.oks;
      ScrapperOutbox.MarkAllExact(q.rows, ids, oks, now);
      forall r | r in p.rows && p.rows[r].processed.Some? && q.rows[r].processed.None?
        ensures Upd(p.rows[r].shot) in s.raw
      {
        assert r in ScrapperOutbox.Pending(q.rows) && r !in ScrapperOutbox.Pending(p.rows);
        var i :| 0 <= i < |oks| && oks[i] && ids[i] == r;
      }
    case _ =>
  }

  /** A queued update stays queued, unless a relay that sent it commits. */
  lemma QueuedStays(s: State, a: Action, u: RawUpdate)
    requires Relaying(s.queue, s.raw) && CanQueue(s.queue, a) && Queued(s.queue, u)
    ensures Queued(DoQueue(s.queue, a), u) || (a.RelayCommit? && Upd(u) in s.raw)
  {
    var q := s.queue;
    var r :| r in q.rows && q.rows[r].processed.None? && q.rows[r].shot == u;
    match a
    case Crawl(shots, now) => InsertedExact(q.rows, q.next, shots, now);
    case RelayCommit(now) =>
      var ids, oks := q.relay.value.ids, q.relay.value.oks;
      ScrapperOutbox.MarkAllExact(q.rows, ids, oks, now);
      assert r in ScrapperOutbox.Pending(q.rows);
      if r !in ScrapperOutbox.Sent(ids, oks) {
        assert r in ScrapperOutbox.Pending(DoQueue(q, a).rows);
      }
    case OutboxClean(cut) => assert r in DoQueue(q, a).rows;
    case _ =>
  }

  lemma ConservedStep(s: State, a: Action, emitted: set<RawUpdate>)
    requires Relaying(s.queue, s.raw) && CanQueue(s.queue, a) && Conserved(s.queue, s.raw, emitted)
    ensures Conserved(DoQueue(s.queue, a), DoTopic(s, a), if a.Crawl? then emitted + (set u | u in a.shots) else emitted)
  {
    var q := DoQueue(s.queue, a);
    forall u | u in emitted
      ensures Queued(q, u) || Upd(u) in DoTopic(s, a)
    {
      if Queued(s.queue, u) {
        QueuedStays(s, a, u);
      }
    }
    if a.Crawl? {
      InsertedExact(s.queue.rows, s.queue.next, a.shots, a.now);
      forall u | u in a.shots
        ensures Queued(q, u)
      {
        var i :| 0 <= i < |a.shots| && a.shots[i] == u;
        assert q.rows[s.queue.next + i].shot == u;
      }
    }
  }

  lemma PassedStays(s: State, a: Action, i: nat)
    requires Inv(s) && Enabled(s, a) && Passed(s.raw, s.agent, s.reader.silenced, i)
    ensures var t := Apply(s, a); Passed(t.raw, t.agent, t.reader.silenced, i)
  {
    if AgentInbox.Represented(s.agent, s.raw[i].u.id) && InboxStep(s, a).Some? {
      AgentInbox.RepresentedStays(s.agent, InboxStep(s, a).value, s.raw[i].u.id);
    }
  }

  /** An id with an inbox row, pending or processed, is represented. */
  lemma TakenIsRepresented(t: AgentInbox.Table, id: int)
    requires AgentInbox.Inv(t) && AgentInbox.HasId(t.rows, id)
    ensures AgentInbox.Represented(t, id)
  {
    var r :| r in t.rows && t.rows[r].u.id == id;
  }

  lemma AddedIsRepresented(t: AgentInbox.Table, u: RawUpdate, now: int)
    ensures AgentInbox.Represented(AgentInbox.Add(t, u, now), u.id)
  {
    assert AgentInbox.Add(t, u, now).rows[t.next].u == u;
  }

  lemma HandledStep(s: State, a: Action)
    requires Inv(s) && Enabled(s, a) && Apply(s, a).reader.consumer.Handled?
    ensures var t := Apply(s, a); Passed(t.raw, t.agent, t.reader.silenced, t.reader.committed)
  {
    match a
    case Add(outcome, now) =>
      var u := s.raw[s.reader.committed].u;
      if outcome.Inserted? {
        AddedIsRepresented(s.agent, u, now);
      } else if outcome.Duplicate? {
        TakenIsRepresented(s.agent, u.id);
      }
    case _ =>
      PassedStays(s, a, s.reader.committed);
  }

  lemma CursorStep(s: State, a: Action)
    requires Inv(s) && Enabled(s, a)
    ensures Cursor(Apply(s, a))
  {
    var t := Apply(s, a);
    forall i | 0 <= i < t.reader.committed
      ensures Passed(t.raw, t.agent, t.reader.silenced, i)
    {
      PassedStays(s, a, i);
    }
    if t.reader.consumer.Handled? {
      HandledStep(s, a);
    }
  }

  lemma UpToStays(s: State, a: Action, u: RawUpdate)
    requires Enabled(s, a) && UpTo(s.raw, s.reader.committed, u)
    ensures UpTo(Apply(s, a).raw, Apply(s, a).reader.committed, u)
  {
    var i :| 0 <= i <= s.reader.committed && i < |s.raw| && s.raw[i] == Upd(u);
    assert Apply(s, a).raw[i] == s.raw[i];
  }

  lemma GenuineStep(s: State, a: Action)
    requires Inv(s) && Enabled(s, a)
    ensures Genuine(Apply(s, a).raw, Apply(s, a).reader.committed, Apply(s, a).agent)
  {
    var t := Apply(s, a);
    forall u | UpTo(s.raw, s.reader.committed, u)
      ensures UpTo(t.raw, t.reader.committed, u)
    {
      UpToStays(s, a, u);
    }
    if InboxStep(s, a).Some? {
      GenuineInbox(t.raw, t.reader.committed, s.agent, InboxStep(s, a).value);
    }
  }

  lemma GenuineInbox(raw: seq<Message>, n: nat, agent: AgentInbox.Table, step: AgentInbox.Step)
    requires Genuine(raw, n, agent) && AgentInbox.Can(agent, step)
    requires step.Insert? ==> Valid(step.u) && UpTo(raw, n, step.u)
    ensures Genuine(raw, n, AgentInbox.Do(agent, step))
  {
    var t := AgentInbox.Do(agent, step);
    forall k, r | 0 <= k < |t.history| && r in t.history[k].rows
      ensures Valid(t.history[k].rows[r]) && UpTo(raw, n, t.history[k].rows[r])
    {
      if k < |agent.history| {
        assert t.history[k] == agent.history[k];
      } else {
        assert t.history[k] == step.b;
      }
    }
  }

  lemma InvStep(s: State, a: Action)
    requires Inv(s) && Enabled(s, a)
    ensures Inv(Apply(s, a))
  {
    RelayingStep(s, a);
    StampedStep(s, a);
    ConservedStep(s, a, s.emitted);
    CursorStep(s, a);
    GenuineStep(s, a);
    if InboxStep(s, a).Some? {
      AgentInbox.InvStep(s.agent, InboxStep(s, a).value);
    }
  }

  // ---------- runs ----------

  ghost predicate Steps(s: State, a: Action, t: State) {
    Enabled(s, a) && t == Apply(s, a)
  }

  /** trace[k] is the state before acts[k]. */
  ghost predicate Path(trace: seq<State>, acts: seq<Action>) {
    Machines.Path(Steps, trace, acts)
  }

  ghost predicate Run(trace: seq<State>, acts: seq<Action>) {
    Path(trace, acts) && trace[0] == INIT
  }

  lemma InvRun(trace: seq<State>, acts: seq<Action>, k: nat)
    requires Run(trace, acts) && k < |trace|
    ensures Inv(trace[k])
  {
    forall s, a, t | Inv(s) && Steps(s, a, t)
      ensures Inv(t)
    {
      InvStep(s, a);
    }
    Machines.Always(Steps, Inv, trace, acts, k);
  }

  // ---------- what every run guarantees ----------

  /** The update is on the topic at or past the committed offset. */
  ghost predicate Uncommitted(s: State, u: RawUpdate) {
    exists i :: s.reader.committed <= i < |s.raw| && s.raw[i] == Upd(u)
  }

  ghost predicate SilentlyPassed(s: State, u: RawUpdate) {
    exists i :: i in s.reader.silenced && i < |s.raw| && s.raw[i] == Upd(u)
  }

  ghost predicate Safe(s: State, u: RawUpdate) {
    Queued(s.queue, u) || Uncommitted(s, u) || AgentInbox.Represented(s.agent, u.id)
  }

  /** Conservation: after any run of crawls, relays, failures, crashes, redeliveries, windows and cleanups,
      a valid update of a committed crawl is still queued, on the topic and not committed, or in the
      agent's hands, unless the consumer passed it over a swallowed insert error. */
  lemma Conservation(trace: seq<State>, acts: seq<Action>, k: nat, u: RawUpdate)
    requires Run(trace, acts) && k < |trace| && u in trace[k].emitted
    ensures Safe(trace[k], u) || SilentlyPassed(trace[k], u)
  {
    InvRun(trace, acts, k);
    ConservedAt(trace[k], u);
  }

  lemma ConservedAt(s: State, u: RawUpdate)
    requires Inv(s) && u in s.emitted
    ensures Safe(s, u) || SilentlyPassed(s, u)
  {
    if !Queued(s.queue, u) {
      var i :| 0 <= i < |s.raw| && s.raw[i] == Upd(u);
      if i < s.reader.committed {
        assert Passed(s.raw, s.agent, s.reader.silenced, i);
      }
    }
  }

  /** Relay safety over every run: a row carries a processing time only if its own shot is on the topic. */
  lemma StampedWasSent(trace: seq<State>, acts: seq<Action>, k: nat, r: nat)
    requires Run(trace, acts) && k < |trace| && r in trace[k].queue.rows && trace[k].queue.rows[r].processed.Some?
    ensures Upd(trace[k].queue.rows[r].shot) in trace[k].raw
  {
    InvRun(trace, acts, k);
  }

  /** Being in the agent's hands means a pending inbox row, or a window that was handled in the very
      transaction that marked the row. */
  lemma RepresentedMeans(trace: seq<State>, acts: seq<Action>, k: nat, id: int)
    requires Run(trace, acts) && k < |trace| && AgentInbox.Represented(trace[k].agent, id)
    ensures AgentInbox.Waiting(trace[k].agent, id) || exists w ::
      0 <= w < |trace[k].agent.history| && AgentInbox.HandledWindow(trace[k].agent.history[w]) && AgentInbox.InBatch(trace[k].agent.history[w], id)
  {
    InvRun(trace, acts, k);
    if AgentInbox.InHistory(trace[k].agent, id) {
      var w :| 0 <= w < |trace[k].agent.history| && AgentInbox.InBatch(trace[k].agent.history[w], id);
    }
  }

  /** A swallowed insert error loses the update exactly when the row did not reach the table, the id is
      not represented otherwise, and no other copy waits in the queue or further along the topic. */
  lemma SwallowedLossExact(s: State, stored: bool, now: int)
    requires Inv(s) && Enabled(s, Add(Swallowed(stored), now))
    ensures var u := s.raw[s.reader.committed].u; var t := Apply(Apply(s, Add(Swallowed(stored), now)), CommitOffset);
      Safe(t, u) <==>
        || stored || AgentInbox.Represented(s.agent, u.id) || Queued(s.queue, u)
        || exists i :: s.reader.committed < i < |s.raw| && s.raw[i] == Upd(u)
  {
    var u := s.raw[s.reader.committed].u;
    if stored {
      AddedIsRepresented(s.agent, u, now);
    }
  }

  /** A reported insert error never loses anything: the offset stays where it is. */
  lemma ReportedErrorIsSafe(s: State, dlqOk: bool, now: int, u: RawUpdate)
    requires Enabled(s, Add(DbError(dlqOk), now))
    ensures var t := Apply(s, Add(DbError(dlqOk), now)); Safe(t, u) == Safe(s, u) && t.reader.committed == s.reader.committed
  {
  }

  /** Duplicates are recognised by id alone: after an answered insert the very update fetched is in the
      inbox exactly when no different update with its id was there. */
  lemma VersionKeptIff(s: State, outcome: Insert, now: int)
    requires Inv(s) && Enabled(s, Add(outcome, now)) && (outcome.Inserted? || outcome.Duplicate?)
    ensures var u := s.raw[s.reader.committed].u; var rows := Apply(s, Add(outcome, now)).agent.rows;
      (exists r :: r in rows && rows[r].u == u) <==>
      (forall r :: r in s.agent.rows && s.agent.rows[r].u.id == u.id ==> s.agent.rows[r].u == u)
  {
    var u := s.raw[s.reader.committed].u;
    var rows := Apply(s, Add(outcome, now)).agent.rows;
    if outcome.Inserted? {
      assert rows[s.agent.next].u == u;
    } else {
      var q :| q in s.agent.rows && s.agent.rows[q].u.id == u.id;
      assert rows == s.agent.rows;
      assert forall r :: r in rows && rows[r].u.id == u.id ==> r == q;
    }
  }

  /** A message the consumer cannot accept is never passed: the loop writes it to the DLQ, stops, and finds
      it again. Nothing behind it ever reaches the agent. */
  lemma PoisonBlocks(trace: seq<State>, acts: seq<Action>, k: nat, i: nat, id: int)
    requires Run(trace, acts) && k < |trace|
    requires i < |trace[k].raw| && !Acceptable(trace[k].raw[i])
    ensures trace[k].reader.committed <= i
    ensures AgentInbox.Represented(trace[k].agent, id) ==>
      exists j :: 0 <= j < i && trace[k].raw[j].Upd? && trace[k].raw[j].u.id == id
  {
    InvRun(trace, acts, k);
    PoisonAt(trace[k], i, id);
  }

  lemma PoisonAt(s: State, i: nat, id: int)
    requires Inv(s) && i < |s.raw| && !Acceptable(s.raw[i])
    ensures s.reader.committed <= i
    ensures AgentInbox.Represented(s.agent, id) ==> exists j :: 0 <= j < i && s.raw[j].Upd? && s.raw[j].u.id == id
  {
    forall j | 0 <= j < s.reader.committed
      ensures Acceptable(s.raw[j])
    {
      assert Passed(s.raw, s.agent, s.reader.silenced, j);
    }
    if AgentInbox.Represented(s.agent, id) {
      var u := HeldUpdate(s, id);
      var j :| 0 <= j <= s.reader.committed && j < |s.raw| && s.raw[j] == Upd(u);
      assert j != i;
    }
  }

  lemma HeldUpdate(s: State, id: int) returns (u: RawUpdate)
    requires Inv(s) && AgentInbox.Represented(s.agent, id)
    ensures Valid(u) && u.id == id && UpTo(s.raw, s.reader.committed, u)
  {
    if AgentInbox.Waiting(s.agent, id) {
      var r :| r in s.agent.rows && s.agent.rows[r].pending && s.agent.rows[r].u.id == id;
      u := s.agent.rows[r].u;
    } else {
      var w :| 0 <= w < |s.agent.history| && AgentInbox.InBatch(s.agent.history[w], id);
      var r :| r in s.agent.history[w].rows && s.agent.history[w].rows[r].id == id;
      u := s.agent.history[w].rows[r];
    }
  }

  /** Overlapping window relays: they hold disjoint rows, and each row is in one committed window at most. */
  lemma WindowsDisjoint(trace: seq<State>, acts: seq<Action>, k: nat)
    requires Run(trace, acts) && k < |trace|
    ensures var t := trace[k].agent;
      && (forall x, y :: x in t.windows && y in t.windows && x != y ==> t.windows[x] !! t.windows[y])
      && (forall x, y :: 0 <= x < y < |t.history| ==> t.history[x].rows.Keys !! t.history[y].rows.Keys)
      && (forall x, y :: x in t.windows && 0 <= y < |t.history| ==> t.windows[x] !! t.history[y].rows.Keys)
  {
    InvRun(trace, acts, k);
    var t := trace[k].agent;
    forall x, y | x in t.windows && 0 <= y < |t.history|
      ensures t.windows[x] !! t.history[y].rows.Keys
    {
      assert AgentInbox.SpentBatch(t, t.history[y]);
    }
  }

  // ---------- an update id in two windows ----------

  /** In every run, cleanups included: a second window takes an update id only after the row of the first
      has left the table. */
  lemma SecondWindowMeansCleaned(trace: seq<State>, acts: seq<Action>, k: nat, x: nat, y: nat, r: nat)
    requires Run(trace, acts) && k < |trace| && x < y < |trace[k].agent.history|
    requires r in trace[k].agent.history[x].rows
    requires AgentInbox.InBatch(trace[k].agent.history[y], trace[k].agent.history[x].rows[r].id)
    ensures r !in trace[k].agent.rows
  {
    InvRun(trace, acts, k);
    var t := trace[k].agent;
    assert AgentInbox.GoneFor(t, t.history[x], t.history[y]);
  }

  /** And then it may: the update at the committed offset is inserted exactly when no row with its id is
      left, whether or not a window took the id before. */
  lemma InsertedIff(s: State, now: int)
    requires s.reader.consumer.Fetching? && NextAcceptable(s)
    ensures Enabled(s, Add(Inserted, now)) <==> !AgentInbox.HasId(s.agent.rows, s.raw[s.reader.committed].u.id)
    ensures Enabled(s, Add(Inserted, now)) ==>
      Apply(s, Add(Inserted, now)).agent == AgentInbox.Add(s.agent, s.raw[s.reader.committed].u, now)
  {
  }

  /** The row of such a redelivered update can join another window. */
  lemma RedeliveryRejoins(s: State, now: int, tx: nat) returns (b: AgentInbox.Batch)
    requires Inv(s) && Enabled(s, Add(Inserted, now)) && tx !in s.agent.windows
    requires AgentInbox.InHistory(s.agent, s.raw[s.reader.committed].u.id)
    ensures AgentInbox.JoinsAnother(Apply(s, Add(Inserted, now)).agent, tx, s.agent.next, b)
  {
    InsertedIff(s, now);
    b := AgentInbox.CleanedIdRejoins(s.agent, s.raw[s.reader.committed].u, now, tx);
  }

  /** Every row of a committed window is still in the table. */
  ghost predicate AllKept(t: AgentInbox.Table) {
    forall k, r :: 0 <= k < |t.history| && r in t.history[k].rows ==> r in t.rows
  }

  lemma AllKeptStep(t: AgentInbox.Table, step: AgentInbox.Step)
    requires AgentInbox.Inv(t) && AllKept(t) && AgentInbox.Can(t, step) && !step.Cleanup?
    ensures AllKept(AgentInbox.Do(t, step))
  {
    var n := AgentInbox.Do(t, step);
    if step.WindowCommit? {
      AgentInbox.CommitMarks(t, step.tx, step.b);
    }
    forall k, r | 0 <= k < |n.history| && r in n.history[k].rows
      ensures r in n.rows
    {
      assert k < |t.history| ==> n.history[k] == t.history[k];
    }
  }

  ghost predicate StepsWithoutCleanup(s: State, a: Action, t: State) {
    Steps(s, a, t) && (a.Agent? ==> !a.step.Cleanup?)
  }

  ghost predicate InvAndKept(s: State) {
    Inv(s) && AllKept(s.agent)
  }

  lemma KeptStep(s: State, a: Action, t: State)
    requires InvAndKept(s) && StepsWithoutCleanup(s, a, t)
    ensures InvAndKept(t)
  {
    InvStep(s, a);
    if InboxStep(s, a).Some? {
      AllKeptStep(s.agent, InboxStep(s, a).value);
    }
  }

  lemma AllKeptRun(trace: seq<State>, acts: seq<Action>, k: nat)
    requires Machines.Path(StepsWithoutCleanup, trace, acts) && trace[0] == INIT && k < |trace|
    ensures InvAndKept(trace[k])
  {
    assert InvAndKept(INIT);
    forall s, a, t | InvAndKept(s) && StepsWithoutCleanup(s, a, t)
      ensures InvAndKept(t)
    {
      KeptStep(s, a, t);
    }
    Machines.Always(StepsWithoutCleanup, InvAndKept, trace, acts, k);
  }

  /** So without cleanup no update id joins two windows, however often it is redelivered. */
  lemma IdInOneWindow(trace: seq<State>, acts: seq<Action>, k: nat, x: nat, y: nat, id: int)
    requires Machines.Path(StepsWithoutCleanup, trace, acts) && trace[0] == INIT && k < |trace|
    requires x < y < |trace[k].agent.history|
    requires AgentInbox.InBatch(trace[k].agent.history[x], id)
    ensures !AgentInbox.InBatch(trace[k].agent.history[y], id)
  {
    AllKeptRun(trace, acts, k);
    var t := trace[k].agent;
    var r :| r in t.history[x].rows && t.history[x].rows[r].id == id;
    assert AgentInbox.GoneFor(t, t.history[x], t.history[y]);
  }

  // ---------- nobody else writes to the topic ----------

  /** Every queued row and every message is a crawl's update. */
  ghost predicate Crawled(s: State) {
    && (forall r :: r in s.queue.rows ==> s.queue.rows[r].shot in s.emitted)
    && (forall i :: 0 <= i < |s.raw| ==> s.raw[i].Upd? && s.raw[i].u in s.emitted)
  }

  lemma CrawledQueueStep(s: State, a: Action)
    requires Relaying(s.queue, s.raw) && Crawled(s) && Enabled(s, a)
    ensures var p, t := DoQueue(s.queue, a), Apply(s, a); forall r :: r in p.rows ==> p.rows[r].shot in t.emitted
  {
    var q, p := s.queue, DoQueue(s.queue, a);
    match a
    case Crawl(shots, now) =>
      InsertedExact(q.rows, q.next, shots, now);
      forall r | r in p.rows && r !in q.rows
        ensures p.rows[r].shot in shots
      {
        assert p.rows[q.next + (r - q.next)].shot == shots[r - q.next];
      }
    case RelayCommit(now) => ScrapperOutbox.MarkAllExact(q.rows, q.relay.value.ids, q.relay.value.oks, now);
    case _ =>
  }

  lemma CrawledStep(s: State, a: Action)
    requires Inv(s) && Crawled(s) && Enabled(s, a) && !a.Foreign?
    ensures Crawled(Apply(s, a))
  {
    CrawledQueueStep(s, a);
  }

  predicate DistinctEmitted(emitted: set<RawUpdate>) {
    forall a, b :: a in emitted && b in emitted && a.id == b.id ==> a == b
  }

  /** Then an id that the agent holds stands for the very update that was emitted under it. */
  lemma HeldIsEmitted(s: State, held: RawUpdate, u: RawUpdate)
    requires Inv(s) && Crawled(s) && DistinctEmitted(s.emitted) && u in s.emitted && held.id == u.id
    requires UpTo(s.raw, s.reader.committed, held)
    ensures held == u
  {
    var i :| 0 <= i <= s.reader.committed && i < |s.raw| && s.raw[i] == Upd(held);
    assert s.raw[i].u in s.emitted;
  }
}
