/** Both legs together: the window transaction takes rows from the agent inbox and puts records into the
    agent outbox in one commit, so an update can be followed from the crawl to the bot. */
module Pipeline {
  import opened Records
  import Frame
  import Window
  import AgentInbox
  import Crawl
  import Machines
  import RawLeg
  import PreparedLeg

  datatype State = State(raw: RawLeg.State, prep: PreparedLeg.State)

  const INIT := State(RawLeg.INIT, PreparedLeg.INIT)

  datatype Action =
    | Raw(a: RawLeg.Action)
    | Prep(p: PreparedLeg.Action)
    | Window(tx: nat, b: AgentInbox.Batch, now: int)

  /** PrepareUpdate copies the id and the chats, whatever the filter and the summariser say. */
  ghost predicate Faithful(prepare: RawUpdate -> Option<Processed>) {
    forall u :: prepare(u).Some? ==> prepare(u).value.id == u.id && prepare(u).value.chats == u.chats
  }

  predicate IsWindow(a: RawLeg.Action) {
    a.Agent? && a.step.WindowCommit?
  }

  function Take(tx: nat, b: AgentInbox.Batch): RawLeg.Action {
    RawLeg.Agent(AgentInbox.WindowCommit(tx, b))
  }

  ghost predicate Enabled(s: State, a: Action) {
    match a
    case Raw(x) => !IsWindow(x) && RawLeg.Enabled(s.raw, x)
    case Prep(y) => !y.AddBatch? && PreparedLeg.Enabled(s.prep, y)
    case Window(tx, b, now) => Faithful(b.prepare) && RawLeg.Enabled(s.raw, Take(tx, b))
  }

  ghost function Apply(s: State, a: Action): State
    requires Enabled(s, a)
  {
    match a
    case Raw(x) => s.(raw := RawLeg.Apply(s.raw, x))
    case Prep(y) => s.(prep := PreparedLeg.Apply(s.prep, y))
    case Window(tx, b, now) =>
      State(RawLeg.Apply(s.raw, Take(tx, b)), PreparedLeg.Apply(s.prep, PreparedLeg.AddBatch(b.records, now)))
  }

  ghost predicate Steps(s: State, a: Action, t: State) {
    Enabled(s, a) && t == Apply(s, a)
  }

  /** trace[k] is the state before acts[k]. */
  ghost predicate Run(trace: seq<State>, acts: seq<Action>) {
    Machines.Path(Steps, trace, acts) && trace[0] == INIT
  }

  // ---------- the legs fit together ----------

  ghost predicate BatchFiled(b: AgentInbox.Batch, added: set<Processed>) {
    Faithful(b.prepare) && forall j :: 0 <= j < |b.records| ==> b.records[j] in added
  }

  /** The records of every committed window are in the agent outbox's books. */
  ghost predicate Filed(history: seq<AgentInbox.Batch>, added: set<Processed>) {
    forall k :: 0 <= k < |history| ==> BatchFiled(history[k], added)
  }

  ghost predicate Inv(s: State) {
    RawLeg.Inv(s.raw) && PreparedLeg.Inv(s.prep) && Filed(s.raw.agent.history, s.prep.outbox.added)
  }

  lemma FiledGrows(history: seq<AgentInbox.Batch>, added: set<Processed>, more: set<Processed>)
    requires Filed(history, added) && added <= more
    ensures Filed(history, more)
  {
    forall k | 0 <= k < |history|
      ensures BatchFiled(history[k], more)
    {
      assert BatchFiled(history[k], added);
    }
  }

  lemma HistoryKept(s: RawLeg.State, a: RawLeg.Action)
    requires RawLeg.Enabled(s, a)
    ensures RawLeg.Apply(s, a).agent.history == s.agent.history + if IsWindow(a) then [a.step.b] else []
  {
  }

  lemma AddedGrows(s: PreparedLeg.State, a: PreparedLeg.Action)
    requires PreparedLeg.Enabled(s, a)
    ensures PreparedLeg.Apply(s, a).outbox.added == s.outbox.added + if a.AddBatch? then set r | r in a.recs else {}
  {
  }

  lemma InvStep(s: State, a: Action)
    requires Inv(s) && Enabled(s, a)
    ensures Inv(Apply(s, a))
  {
    match a
    case Raw(x) =>
      RawLeg.InvStep(s.raw, x);
      HistoryKept(s.raw, x);
    case Prep(y) =>
      PreparedLeg.InvStep(s.prep, y);
      AddedGrows(s.prep, y);
    case Window(tx, b, now) => WindowStep(s, tx, b, now);
  }

  lemma WindowStep(s: State, tx: nat, b: AgentInbox.Batch, now: int)
    requires Inv(s) && Enabled(s, Window(tx, b, now))
    ensures Inv(Apply(s, Window(tx, b, now)))
  {
    RawLeg.InvStep(s.raw, Take(tx, b));
    PreparedLeg.InvStep(s.prep, PreparedLeg.AddBatch(b.records, now));
    WindowFiles(s, tx, b, now);
  }

  lemma WindowFiles(s: State, tx: nat, b: AgentInbox.Batch, now: int)
    requires Filed(s.raw.agent.history, s.prep.outbox.added) && Enabled(s, Window(tx, b, now))
    ensures Filed(RawLeg.Apply(s.raw, Take(tx, b)).agent.history,
                  PreparedLeg.Apply(s.prep, PreparedLeg.AddBatch(b.records, now)).outbox.added)
  {
    var added := PreparedLeg.Apply(s.prep, PreparedLeg.AddBatch(b.records, now)).outbox.added;
    HistoryKept(s.raw, Take(tx, b));
    AddedGrows(s.prep, PreparedLeg.AddBatch(b.records, now));
    FiledGrows(s.raw.agent.history, s.prep.outbox.added, added);
    assert BatchFiled(b, added);
  }

  lemma InvKept(s: State, a: Action, t: State)
    requires Inv(s) && Steps(s, a, t)
    ensures Inv(t)
  {
    InvStep(s, a);
  }

  lemma InvStart()
    ensures Inv(INIT)
  {
  }

  lemma InvRun(trace: seq<State>, acts: seq<Action>, k: nat)
    requires Run(trace, acts) && k < |trace|
    ensures Inv(trace[k])
  {
    InvStart();
    forall s, a, t | Inv(s) && Steps(s, a, t)
      ensures Inv(t)
    {
      InvKept(s, a, t);
    }
    Machines.Always(Steps, Inv, trace, acts, k);
  }

  // ---------- a committed window ----------

  predicate DistinctRaw(us: seq<RawUpdate>) {
    forall i, j :: 0 <= i < j < |us| ==> us[i].id != us[j].id
  }

  lemma {:induction false} SurvivorSource(us: seq<RawUpdate>, prepare: RawUpdate -> Option<Processed>, p: Processed)
    ensures p in Window.Survivors(us, prepare) <==> exists i :: 0 <= i < |us| && prepare(us[i]) == Some(p)
  {
    if us != [] {
      var n := |us| - 1;
      SurvivorSource(us[..n], prepare, p);
      if exists i :: 0 <= i < |us| && prepare(us[i]) == Some(p) {
        var i :| 0 <= i < |us| && prepare(us[i]) == Some(p);
        assert i < n ==> us[..n][i] == us[i];
      }
      if p in Window.Survivors(us[..n], prepare) {
        var i :| 0 <= i < |us[..n]| && prepare(us[..n][i]) == Some(p);
        assert us[i] == us[..n][i];
      }
    }
  }

  lemma {:induction false} SurvivorOnce(us: seq<RawUpdate>, prepare: RawUpdate -> Option<Processed>, p: Processed)
    requires DistinctRaw(us) && Faithful(prepare)
    ensures Window.Survivors(us, prepare)[p] <= 1
  {
    if us != [] {
      var n := |us| - 1;
      SurvivorOnce(us[..n], prepare, p);
      SurvivorSource(us[..n], prepare, p);
    }
  }

  lemma TwiceInMultiset<T>(xs: seq<T>, i: nat, j: nat)
    requires i < j < |xs| && xs[i] == xs[j]
    ensures multiset(xs)[xs[i]] >= 2
  {
    assert xs == xs[..i] + [xs[i]] + xs[i + 1..j] + [xs[j]] + xs[j + 1..];
  }

  /** A faithful filter keeps the ids of a window distinct. */
  lemma SurvivorsDistinct(us: seq<RawUpdate>, prepare: RawUpdate -> Option<Processed>, ps: seq<Processed>)
    requires DistinctRaw(us) && Faithful(prepare) && multiset(ps) == Window.Survivors(us, prepare)
    ensures Window.DistinctIds(ps)
  {
    forall i, j | 0 <= i < j < |ps|
      ensures ps[i].id != ps[j].id
    {
      assert ps[i] in multiset(ps) && ps[j] in multiset(ps);
      SurvivorSource(us, prepare, ps[i]);
      SurvivorSource(us, prepare, ps[j]);
      SurvivorOnce(us, prepare, ps[i]);
      if ps[i] == ps[j] {
        TwiceInMultiset(ps, i, j);
      }
    }
  }

  /** The one record of the batch that lists chat c. */
  ghost predicate OnlyRecord(b: AgentInbox.Batch, j: nat, c: int) {
    && j < |b.records| && multiset(b.records[j].chats)[c] == 1
    && forall x :: 0 <= x < |b.records| && c in b.records[x].chats ==> x == j
  }

  /** A window with one row per id hands every surviving update to each of its chats in exactly one record. */
  lemma BatchConserves(b: AgentInbox.Batch, r: nat, c: int) returns (i: nat, j: nat)
    requires AgentInbox.HandledWindow(b) && AgentInbox.DistinctRows(b.rows) && Faithful(b.prepare)
    requires r in b.rows && b.prepare(b.rows[r]).Some? && c in b.rows[r].chats
    ensures OnlyRecord(b, j, c)
    ensures i < |b.ps| && b.ps[i] == b.prepare(b.rows[r]).value && Window.Carries(b.ps, b.records[j], i, c)
  {
    var us := AgentInbox.Read(b);
    var p := b.prepare(b.rows[r]).value;
    SurvivorsDistinct(us, b.prepare, b.ps);
    var n :| 0 <= n < |b.order| && b.order[n] == r;
    assert us[n] == b.rows[r];
    SurvivorSource(us, b.prepare, p);
    assert p in multiset(b.ps);
    i :| 0 <= i < |b.ps| && b.ps[i] == p;
    j := Window.WindowConservation(b.ps, b.records, i, c);
  }

  // ---------- end to end ----------

  /** A published message: not committed yet, held by the bot, dead-lettered, or silently passed. */
  ghost predicate MessageTracked(s: PreparedLeg.State, i: nat) {
    i < |s.topic| &&
    (i >= s.reader.committed || PreparedLeg.Recorded(s.bot, s.topic[i].key) || s.topic[i] in s.reader.dlq || i in s.reader.silenced)
  }

  /** The record is queued, or a tracked message carries its id, link, text and chats. */
  ghost predicate RecordTracked(s: PreparedLeg.State, rec: Processed) {
    PreparedLeg.Queued(s.outbox, rec) || exists i: nat :: MessageTracked(s, i) && PreparedLeg.Says(s.topic[i], rec)
  }

  /** The same for one chat: the message is addressed to it and the bot accepts the message. */
  ghost predicate RecordTrackedFor(s: PreparedLeg.State, rec: Processed, c: int) {
    PreparedLeg.Queued(s.outbox, rec) || exists i: nat ::
      MessageTracked(s, i) && PreparedLeg.Says(s.topic[i], rec) && c in s.topic[i].body.value.chats && PreparedLeg.Acceptable(s.topic[i])
  }

  /** The fields that Publish writes are read back by the bot as the message of the machine. */
  lemma PublishedIsRead(rec: Processed, key: string)
    ensures Frame.ReadUpdate(Frame.ProcessedFields(rec)) == Some(PreparedLeg.ToUpdate(rec))
    ensures PreparedLeg.Says(PreparedLeg.Message(key, Frame.ReadUpdate(Frame.ProcessedFields(rec))), rec)
  {
    Frame.ProcessedRoundTrip(rec);
  }

  lemma TrackedForChat(s: PreparedLeg.State, rec: Processed, c: int)
    requires RecordTracked(s, rec) && c in rec.chats
    ensures RecordTrackedFor(s, rec, c)
  {
    if !PreparedLeg.Queued(s.outbox, rec) {
      var i: nat :| MessageTracked(s, i) && PreparedLeg.Says(s.topic[i], rec);
    }
  }

  /** Some record with the update id of rec got as far as the prepared topic. */
  ghost predicate SiblingTracked(s: PreparedLeg.State, rec: Processed) {
    exists other :: other in s.outbox.added && other.id == rec.id && RecordTracked(s, other)
  }

  lemma PublishedIsTracked(s: PreparedLeg.State, rec: Processed)
    requires PreparedLeg.Inv(s) && PreparedLeg.OnTopic(s.topic, rec)
    ensures RecordTracked(s, rec)
  {
    var i :| 0 <= i < |s.topic| && PreparedLeg.Says(s.topic[i], rec);
    if i < s.reader.committed {
      assert PreparedLeg.Passed(s.topic, s.reader, s.bot, i);
    }
    assert MessageTracked(s, i);
  }

  lemma FiledIsTracked(s: PreparedLeg.State, rec: Processed)
    requires PreparedLeg.Inv(s) && rec in s.outbox.added
    ensures SiblingTracked(s, rec)
    ensures PreparedLeg.DistinctIds(s.outbox.added) ==> RecordTracked(s, rec)
  {
    if PreparedLeg.Queued(s.outbox, rec) {
      assert RecordTracked(s, rec);
    } else {
      var other :| other in s.outbox.added && other.id == rec.id && PreparedLeg.OnTopic(s.topic, other);
      PublishedIsTracked(s, other);
    }
  }

  /** Row r of the window: dropped by the filter, or each of its chats has exactly one record, tracked. */
  ghost predicate RowTracked(s: PreparedLeg.State, b: AgentInbox.Batch, r: nat) {
    r in b.rows && (b.prepare(b.rows[r]).None? || forall c :: c in b.rows[r].chats ==> ChatTracked(s, b, r, c))
  }

  /** Record j of the batch says what the filter made of row r, to chat c. */
  ghost predicate RecordSays(b: AgentInbox.Batch, r: nat, j: nat, c: int) {
    && r in b.rows && j < |b.records| && b.prepare(b.rows[r]).Some?
    && exists i: nat :: i < |b.ps| && b.ps[i] == b.prepare(b.rows[r]).value && Window.Carries(b.ps, b.records[j], i, c)
  }

  ghost predicate ChatTracked(s: PreparedLeg.State, b: AgentInbox.Batch, r: nat, c: int) {
    exists j: nat {:trigger OnlyRecord(b, j, c)} :: OnlyRecord(b, j, c) && RecordSays(b, r, j, c) && SiblingTracked(s, b.records[j])
      && (PreparedLeg.DistinctIds(s.outbox.added) ==> RecordTrackedFor(s, b.records[j], c))
  }

  ghost predicate BatchTracked(s: PreparedLeg.State, b: AgentInbox.Batch, id: int) {
    exists r :: r in b.rows && b.rows[r].id == id && RowTracked(s, b, r)
  }

  ghost predicate Windowed(s: PreparedLeg.State, history: seq<AgentInbox.Batch>, id: int) {
    exists w :: 0 <= w < |history| && BatchTracked(s, history[w], id)
  }

  lemma RowIsTracked(s: PreparedLeg.State, b: AgentInbox.Batch, r: nat)
    requires PreparedLeg.Inv(s) && BatchFiled(b, s.outbox.added)
    requires AgentInbox.HandledWindow(b) && AgentInbox.DistinctRows(b.rows) && r in b.rows
    ensures RowTracked(s, b, r)
  {
    if b.prepare(b.rows[r]).Some? {
      forall c | c in b.rows[r].chats
        ensures ChatTracked(s, b, r, c)
      {
        var i, j := BatchConserves(b, r, c);
        FiledIsTracked(s, b.records[j]);
        if PreparedLeg.DistinctIds(s.outbox.added) {
          assert c in multiset(b.records[j].chats);
          TrackedForChat(s, b.records[j], c);
        }
      }
    }
  }

  lemma HistoryIsTracked(s: PreparedLeg.State, t: AgentInbox.Table, id: int)
    requires PreparedLeg.Inv(s) && AgentInbox.Windows(t) && Filed(t.history, s.outbox.added) && AgentInbox.InHistory(t, id)
    ensures Windowed(s, t.history, id)
  {
    var w :| 0 <= w < |t.history| && AgentInbox.InBatch(t.history[w], id);
    var b := t.history[w];
    var r :| r in b.rows && b.rows[r].id == id;
    assert BatchFiled(b, s.outbox.added);
    RowIsTracked(s, b, r);
    assert BatchTracked(s, b, id);
  }

  lemma TrackedAt(s: State, u: RawUpdate)
    requires Inv(s) && u in s.raw.emitted
    ensures || RawLeg.Queued(s.raw.queue, u)
            || RawLeg.Uncommitted(s.raw, u)
            || AgentInbox.Waiting(s.raw.agent, u.id)
            || RawLeg.SilentlyPassed(s.raw, u)
            || Windowed(s.prep, s.raw.agent.history, u.id)
  {
    RawLeg.ConservedAt(s.raw, u);
    if AgentInbox.InHistory(s.raw.agent, u.id) {
      HistoryIsTracked(s.prep, s.raw.agent, u.id);
    }
  }

  /** End to end, over every run: an update of a committed crawl is in the scrapper's queue, on the raw
      topic uncommitted, waiting in the agent inbox, silently passed by the consumer, or in a committed
      window. There the filter dropped it, or every chat has exactly one record, which says the update and is
      queued, or is what an accounted-for message of the prepared topic says to that chat, or shares its
      update id with such a record (and is itself accounted for as soon as update ids tell the written
      records apart). */
  lemma EndToEnd(trace: seq<State>, acts: seq<Action>, k: nat, u: RawUpdate)
    requires Run(trace, acts) && k < |trace| && u in trace[k].raw.emitted
    ensures var s := trace[k];
      || RawLeg.Queued(s.raw.queue, u)
      || RawLeg.Uncommitted(s.raw, u)
      || AgentInbox.Waiting(s.raw.agent, u.id)
      || RawLeg.SilentlyPassed(s.raw, u)
      || Windowed(s.prep, s.raw.agent.history, u.id)
  {
    InvRun(trace, acts, k);
    TrackedAt(trace[k], u);
  }

  // ---------- the very update ----------

  /** Only the scrapper writes to the raw topic. */
  ghost predicate OwnSteps(s: State, a: Action, t: State) {
    Steps(s, a, t) && (a.Raw? ==> !a.a.Foreign?)
  }

  ghost predicate OwnInv(s: State) {
    Inv(s) && RawLeg.Crawled(s.raw)
  }

  lemma OwnInvStep(s: State, a: Action)
    requires OwnInv(s) && Enabled(s, a) && (a.Raw? ==> !a.a.Foreign?)
    ensures OwnInv(Apply(s, a))
  {
    InvStep(s, a);
    match a
    case Raw(x) => RawLeg.CrawledStep(s.raw, x);
    case Prep(y) =>
    case Window(tx, b, now) => RawLeg.CrawledStep(s.raw, Take(tx, b));
  }

  lemma OwnInvKept(s: State, a: Action, t: State)
    requires OwnInv(s) && OwnSteps(s, a, t)
    ensures OwnInv(t)
  {
    OwnInvStep(s, a);
  }

  lemma OwnInvStart()
    ensures OwnInv(INIT)
  {
  }

  lemma OwnInvRun(trace: seq<State>, acts: seq<Action>, k: nat)
    requires Machines.Path(OwnSteps, trace, acts) && trace[0] == INIT && k < |trace|
    ensures OwnInv(trace[k])
  {
    OwnInvStart();
    forall s, a, t | OwnInv(s) && OwnSteps(s, a, t)
      ensures OwnInv(t)
    {
      OwnInvKept(s, a, t);
    }
    Machines.Always(OwnSteps, OwnInv, trace, acts, k);
  }

  ghost predicate WaitsItself(t: AgentInbox.Table, u: RawUpdate) {
    exists r :: r in t.rows && t.rows[r].pending && t.rows[r].u == u
  }

  ghost predicate BatchTracksItself(s: PreparedLeg.State, b: AgentInbox.Batch, u: RawUpdate) {
    exists r :: r in b.rows && b.rows[r] == u && RowTracked(s, b, r)
  }

  ghost predicate WindowedItself(s: PreparedLeg.State, history: seq<AgentInbox.Batch>, u: RawUpdate) {
    exists w :: 0 <= w < |history| && BatchTracksItself(s, history[w], u)
  }

  lemma WaitsExactly(s: RawLeg.State, u: RawUpdate)
    requires RawLeg.Inv(s) && RawLeg.Crawled(s) && RawLeg.DistinctEmitted(s.emitted) && u in s.emitted
    requires AgentInbox.Waiting(s.agent, u.id)
    ensures WaitsItself(s.agent, u)
  {
    var r :| r in s.agent.rows && s.agent.rows[r].pending && s.agent.rows[r].u.id == u.id;
    RawLeg.HeldIsEmitted(s, s.agent.rows[r].u, u);
  }

  lemma WindowedExactly(s: RawLeg.State, p: PreparedLeg.State, u: RawUpdate)
    requires RawLeg.Inv(s) && RawLeg.Crawled(s) && RawLeg.DistinctEmitted(s.emitted) && u in s.emitted
    requires Windowed(p, s.agent.history, u.id)
    ensures WindowedItself(p, s.agent.history, u)
  {
    var w :| 0 <= w < |s.agent.history| && BatchTracked(p, s.agent.history[w], u.id);
    var b := s.agent.history[w];
    var r := TrackedRow(p, b, u.id);
    RawLeg.HeldIsEmitted(s, b.rows[r], u);
    assert BatchTracksItself(p, b, u);
  }

  lemma TrackedRow(p: PreparedLeg.State, b: AgentInbox.Batch, id: int) returns (r: nat)
    requires BatchTracked(p, b, id)
    ensures r in b.rows && b.rows[r].id == id && RowTracked(p, b, r)
  {
    r :| r in b.rows && b.rows[r].id == id && RowTracked(p, b, r);
  }

  /** End to end for the update itself: when update ids tell the emitted updates apart and nobody else writes
      to the raw topic, the row that waits or was windowed carries the very update. */
  lemma EndToEndExact(trace: seq<State>, acts: seq<Action>, k: nat, u: RawUpdate)
    requires Machines.Path(OwnSteps, trace, acts) && trace[0] == INIT && k < |trace|
    requires u in trace[k].raw.emitted && RawLeg.DistinctEmitted(trace[k].raw.emitted)
    ensures var s := trace[k];
      || RawLeg.Queued(s.raw.queue, u)
      || RawLeg.Uncommitted(s.raw, u)
      || WaitsItself(s.raw.agent, u)
      || RawLeg.SilentlyPassed(s.raw, u)
      || WindowedItself(s.prep, s.raw.agent.history, u)
  {
    var s := trace[k];
    OwnInvRun(trace, acts, k);
    TrackedAt(s, u);
    if AgentInbox.Waiting(s.raw.agent, u.id) {
      WaitsExactly(s.raw, u);
    } else if Windowed(s.prep, s.raw.agent.history, u.id) {
      WindowedExactly(s.raw, s.prep, u);
    }
  }

  /** A failed crawl of a link nobody follows enqueues a record that no consumer accepts. Once it is on the
      raw topic the agent's offset never passes it, and nothing behind it is ever represented. */
  lemma UnfollowedFailureBlocks(trace: seq<State>, acts: seq<Action>, k: nat, i: nat, path: string, id: int)
    requires Run(trace, acts) && k < |trace| && i < |trace[k].raw.raw|
    requires trace[k].raw.raw[i] == RawLeg.Upd(Crawl.ErrorShot(path, Crawl.Users([])))
    ensures trace[k].raw.reader.committed <= i
    ensures AgentInbox.Represented(trace[k].raw.agent, id) ==>
      exists j :: 0 <= j < i && trace[k].raw.raw[j].Upd? && trace[k].raw.raw[j].u.id == id
  {
    InvRun(trace, acts, k);
    Crawl.ErrorShotAcceptedIff(path, []);
    RawLeg.PoisonAt(trace[k].raw, i, id);
  }
}
