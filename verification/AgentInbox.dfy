/** The agent's inbox table with the row locks of the window transactions that empty it. Several relays may
    be open at once; each holds the rows it fetched until it commits or rolls back. */
module AgentInbox {
  import opened Records
  import Window

  datatype Row = Row(u: RawUpdate, created: int, pending: bool)

  /** A committed window: the inbox rows it took, in the order they were read, the filter's verdicts,
      and the records written to the agent outbox in the same transaction. */
  datatype Batch = Batch(rows: map<nat, RawUpdate>, order: seq<nat>, prepare: RawUpdate -> Option<Processed>,
                         ps: seq<Processed>, records: seq<Processed>)

  /** windows maps an open transaction to the rows it locks; history lists the committed windows. */
  datatype Table = Table(rows: map<nat, Row>, next: nat, windows: map<nat, set<nat>>, history: seq<Batch>)

  const EMPTY := Table(map[], 0, map[], [])

  ghost predicate Enumerates(order: seq<nat>, rows: map<nat, RawUpdate>) {
    && (forall r :: r in rows <==> r in order)
    && (forall i, j :: 0 <= i < j < |order| ==> order[i] != order[j])
  }

  ghost function Read(b: Batch): (us: seq<RawUpdate>)
    requires Enumerates(b.order, b.rows)
    ensures |us| == |b.order|
  {
    seq(|b.order|, i requires 0 <= i < |b.order| => b.rows[b.order[i]])
  }

  /** The contract of HandleUpdatesWindow when every update was handed to the pool. */
  ghost predicate HandledWindow(b: Batch) {
    && Enumerates(b.order, b.rows)
    && multiset(b.ps) == Window.Survivors(Read(b), b.prepare)
    && Window.Delivers(b.ps, b.records)
  }

  // ---------- the repository ----------

  predicate HasId(rows: map<nat, Row>, id: int) {
    exists r :: r in rows && rows[r].u.id == id
  }

  function Locked(windows: map<nat, set<nat>>): set<nat> {
    set tx, r | tx in windows && r in windows[tx] :: r
  }

  /** Pending rows no open window transaction holds. */
  function Free(t: Table): set<nat> {
    set r | r in t.rows && t.rows[r].pending && r !in Locked(t.windows)
  }

  predicate Oldest(t: Table, o: nat)
    requires o in t.rows
  {
    forall q :: q in Free(t) ==> t.rows[o].created <= t.rows[q].created
  }

  /** FetchPending: the free pending rows created within gap of the oldest free pending row. */
  function WindowRows(t: Table, gap: int): set<nat> {
    set r | r in Free(t) && exists o :: o in Free(t) && Oldest(t, o) && t.rows[r].created <= t.rows[o].created + gap
  }

  function Add(t: Table, u: RawUpdate, now: int): Table {
    t.(rows := t.rows[t.next := Row(u, now, true)], next := t.next + 1)
  }

  function Begin(t: Table, tx: nat, fetched: set<nat>): Table {
    t.(windows := t.windows[tx := fetched])
  }

  function WindowUpdates(t: Table, tx: nat): map<nat, RawUpdate>
    requires tx in t.windows
  {
    map r | r in t.windows[tx] && r in t.rows :: t.rows[r].u
  }

  /** MarkProcessed: UPDATE ... WHERE update_id = id, for every id of the window. */
  function Mark(rows: map<nat, Row>, ids: set<int>): map<nat, Row> {
    map r | r in rows :: if rows[r].u.id in ids then rows[r].(pending := false) else rows[r]
  }

  function IdsOf(rows: map<nat, RawUpdate>): set<int> {
    set r | r in rows :: rows[r].id
  }

  function Commit(t: Table, tx: nat, b: Batch): Table {
    t.(windows := WithoutKey(t.windows, tx), rows := Mark(t.rows, IdsOf(b.rows)), history := t.history + [b])
  }

  function Abort(t: Table, tx: nat): Table {
    t.(windows := WithoutKey(t.windows, tx))
  }

  function Cleaned(rows: map<nat, Row>, cut: int): map<nat, Row> {
    map r | r in rows && (rows[r].pending || rows[r].created >= cut) :: rows[r]
  }

  function Clean(t: Table, cut: int): Table {
    t.(rows := Cleaned(t.rows, cut))
  }

  // ---------- steps ----------

  datatype Step =
    | Insert(u: RawUpdate, now: int)
    | WindowBegin(tx: nat, fetched: set<nat>)
    | WindowCommit(tx: nat, b: Batch)
    | WindowAbort(tx: nat)
    | Cleanup(cut: int)

  /** The fetch is two statements, and rows may come and go in between: a window may begin with any free
      pending rows. WindowExact says what it takes when nothing interferes. */
  ghost predicate Can(t: Table, s: Step) {
    match s
    case Insert(u, now) => !HasId(t.rows, u.id)
    case WindowBegin(tx, fetched) => tx !in t.windows && fetched <= Free(t)
    case WindowCommit(tx, b) => tx in t.windows && b.rows == WindowUpdates(t, tx) && HandledWindow(b)
    case WindowAbort(tx) => tx in t.windows
    case Cleanup(cut) => true
  }

  function Do(t: Table, s: Step): Table {
    match s
    case Insert(u, now) => Add(t, u, now)
    case WindowBegin(tx, fetched) => Begin(t, tx, fetched)
    case WindowCommit(tx, b) => Commit(t, tx, b)
    case WindowAbort(tx) => Abort(t, tx)
    case Cleanup(cut) => Clean(t, cut)
  }

  // ---------- invariants ----------

  predicate DistinctRows(rows: map<nat, RawUpdate>) {
    forall r, q :: r in rows && q in rows && rows[r].id == rows[q].id ==> r == q
  }

  /** One row per update id. */
  predicate UniqueIds(rows: map<nat, Row>) {
    forall r, q :: r in rows && q in rows && rows[r].u.id == rows[q].u.id ==> r == q
  }

  /** And that under row ids already handed out. */
  predicate UniqueRows(t: Table) {
    (forall r :: r in t.rows ==> r < t.next) && UniqueIds(t.rows)
  }

  /** Open windows hold disjoint sets of pending rows. */
  predicate Locks(t: Table) {
    && (forall tx, r :: tx in t.windows && r in t.windows[tx] ==> r in t.rows && t.rows[r].pending)
    && (forall tx, ty, r :: tx in t.windows && ty in t.windows && r in t.windows[tx] && r in t.windows[ty] ==> tx == ty)
  }

  ghost predicate InBatch(b: Batch, id: int) {
    exists r :: r in b.rows && b.rows[r].id == id
  }

  ghost predicate InHistory(t: Table, id: int) {
    exists k :: 0 <= k < |t.history| && InBatch(t.history[k], id)
  }

  ghost predicate Awaits(rows: map<nat, Row>, id: int) {
    exists r :: r in rows && rows[r].pending && rows[r].u.id == id
  }

  ghost predicate Waiting(t: Table, id: int) {
    Awaits(t.rows, id)
  }

  /** The update id is in the agent's hands: pending in its inbox, or part of a committed window. */
  ghost predicate Represented(t: Table, id: int) {
    Waiting(t, id) || InHistory(t, id)
  }

  /** Rows of committed windows never wait again. */
  predicate Spent(t: Table) {
    forall k :: 0 <= k < |t.history| ==> SpentBatch(t, t.history[k])
  }

  predicate SpentBatch(t: Table, b: Batch) {
    forall r :: r in b.rows ==> r < t.next && (r in t.rows ==> !t.rows[r].pending)
  }

  /** An inbox row is in at most one committed window. */
  predicate Once(t: Table) {
    forall k, j :: 0 <= k < j < |t.history| ==> t.history[k].rows.Keys !! t.history[j].rows.Keys
  }

  /** A row of a committed window that is still in the table carries the update the window took. */
  predicate Same(t: Table) {
    forall k :: 0 <= k < |t.history| ==> SameBatch(t, t.history[k])
  }

  predicate SameBatch(t: Table, b: Batch) {
    forall r :: r in b.rows && r in t.rows ==> t.rows[r].u == b.rows[r]
  }

  /** If a later window took the same update id, the earlier row has left the table. */
  ghost predicate Gone(t: Table) {
    forall k, j :: 0 <= k < j < |t.history| ==> GoneFor(t, t.history[k], t.history[j])
  }

  ghost predicate GoneFor(t: Table, earlier: Batch, later: Batch) {
    forall r :: r in earlier.rows && InBatch(later, earlier.rows[r].id) ==> r !in t.rows
  }

  /** A processed row belongs to a committed window. */
  ghost predicate Accounted(t: Table) {
    forall r :: r in t.rows && !t.rows[r].pending ==> InHistory(t, t.rows[r].u.id)
  }

  /** Every committed window was handled as a whole and holds one row per update id. */
  ghost predicate Windows(t: Table) {
    forall k :: 0 <= k < |t.history| ==> HandledWindow(t.history[k]) && DistinctRows(t.history[k].rows)
  }

  ghost predicate Inv(t: Table) {
    UniqueRows(t) && Locks(t) && Spent(t) && Once(t) && Same(t) && Gone(t) && Accounted(t) && Windows(t)
  }

  // ---------- what each operation keeps ----------

  /** Marking by update id marks exactly the rows of the window, because ids are unique. */
  lemma MarkExact(t: Table, tx: nat, r: nat)
    requires UniqueRows(t) && Locks(t) && tx in t.windows && r in t.rows
    ensures Mark(t.rows, IdsOf(WindowUpdates(t, tx)))[r] ==
      if r in t.windows[tx] then t.rows[r].(pending := false) else t.rows[r]
  {
    var w := WindowUpdates(t, tx);
    assert forall q :: q in w && w[q].id == t.rows[r].u.id ==> q == r;
    assert r in w ==> w[r].id in IdsOf(w);
  }

  lemma InHistoryStays(t: Table, s: Step, id: int)
    requires InHistory(t, id)
    ensures InHistory(Do(t, s), id)
  {
    var k :| 0 <= k < |t.history| && InBatch(t.history[k], id);
    assert Do(t, s).history[k] == t.history[k];
  }

  lemma InHistoryNow(t: Table, tx: nat, b: Batch, r: nat)
    requires r in b.rows
    ensures InHistory(Commit(t, tx, b), b.rows[r].id)
  {
    assert Commit(t, tx, b).history[|t.history|] == b && InBatch(b, b.rows[r].id);
  }

  /** No step takes an update id out of the agent's hands. */
  lemma RepresentedStays(t: Table, s: Step, id: int)
    requires Inv(t) && Can(t, s) && Represented(t, id)
    ensures Represented(Do(t, s), id)
  {
    if InHistory(t, id) {
      InHistoryStays(t, s, id);
    } else {
      var r :| r in t.rows && t.rows[r].pending && t.rows[r].u.id == id;
      if s.WindowCommit? {
        MarkExact(t, s.tx, r);
        if r in t.windows[s.tx] {
          InHistoryNow(t, s.tx, s.b, r);
        }
      }
      assert r in Do(t, s).rows;
    }
  }

  lemma {:induction false} OldestOf(t: Table, s: set<nat>) returns (o: nat)
    requires s != {} && forall r :: r in s ==> r in t.rows
    ensures o in s && forall q :: q in s ==> t.rows[o].created <= t.rows[q].created
    decreases |s|
  {
    var x := AnyOf(s);
    var rest := s - {x};
    o := x;
    if rest != {} {
      var p := OldestOf(t, rest);
      o := if t.rows[p].created < t.rows[x].created then p else x;
      assert t.rows[o].created <= t.rows[x].created && t.rows[o].created <= t.rows[p].created;
    }
    forall q | q in s
      ensures t.rows[o].created <= t.rows[q].created
    {
      assert q == x || q in rest;
    }
  }

  /** Row r is pending and no open window holds it. */
  predicate IsFree(t: Table, r: nat)
    requires r in t.rows
  {
    t.rows[r].pending && forall tx :: tx in t.windows ==> r !in t.windows[tx]
  }

  /** A window takes exactly the free pending rows within gap of the oldest one, so never nothing while
      some row is free. */
  lemma WindowExact(t: Table, gap: nat) returns (o: nat)
    requires Free(t) != {}
    ensures o in WindowRows(t, gap) && forall r :: r in t.rows && IsFree(t, r) ==> t.rows[o].created <= t.rows[r].created
    ensures forall r :: r in WindowRows(t, gap) <==>
      r in t.rows && IsFree(t, r) && t.rows[r].created <= t.rows[o].created + gap
  {
    o := OldestOf(t, Free(t));
    forall r
      ensures r in WindowRows(t, gap) <==> r in Free(t) && t.rows[r].created <= t.rows[o].created + gap
    {
      if r in WindowRows(t, gap) {
        var p :| p in Free(t) && Oldest(t, p) && t.rows[r].created <= t.rows[p].created + gap;
        assert t.rows[p].created <= t.rows[o].created;
      }
    }
  }

  lemma UniqueRowsStep(t: Table, s: Step)
    requires UniqueRows(t) && Can(t, s)
    ensures UniqueRows(Do(t, s))
  {
  }

  lemma LocksStep(t: Table, s: Step)
    requires UniqueRows(t) && Locks(t) && Can(t, s)
    ensures Locks(Do(t, s))
  {
    var n := Do(t, s);
    match s
    case WindowBegin(tx, fetched) =>
      assert forall r :: r in fetched ==> r in Free(t);
    case WindowCommit(tx, b) =>
      forall ty, r | ty in n.windows && r in n.windows[ty]
        ensures r in n.rows && n.rows[r].pending
      {
        MarkExact(t, tx, r);
      }
    case _ =>
  }

  lemma CommitMarks(t: Table, tx: nat, b: Batch)
    requires UniqueRows(t) && Locks(t) && Can(t, WindowCommit(tx, b))
    ensures forall r :: r in t.rows ==>
      Commit(t, tx, b).rows[r] == if r in t.windows[tx] then t.rows[r].(pending := false) else t.rows[r]
    ensures b.rows.Keys == t.windows[tx]
  {
    forall r | r in t.rows
      ensures Commit(t, tx, b).rows[r] == if r in t.windows[tx] then t.rows[r].(pending := false) else t.rows[r]
    {
      MarkExact(t, tx, r);
    }
  }

  /** The window being committed takes no row of an earlier one, for its rows are still pending. */
  lemma SpentStep(t: Table, s: Step)
    requires Inv(t) && Can(t, s)
    ensures Spent(Do(t, s)) && Once(Do(t, s))
  {
    var n := Do(t, s);
    if s.WindowCommit? {
      CommitMarks(t, s.tx, s.b);
      forall k | 0 <= k < |t.history|
        ensures SpentBatch(n, t.history[k]) && t.history[k].rows.Keys !! s.b.rows.Keys
      {
        assert SpentBatch(t, t.history[k]);
      }
      assert SpentBatch(n, s.b);
    } else {
      forall k | 0 <= k < |t.history|
        ensures SpentBatch(n, t.history[k])
      {
        assert SpentBatch(t, t.history[k]);
      }
    }
  }

  lemma SameStays(t: Table, s: Step, b: Batch)
    requires UniqueRows(t) && Spent(t) && SameBatch(t, b) && SpentBatch(t, b) && Can(t, s)
    ensures SameBatch(Do(t, s), b)
  {
  }

  lemma SameStep(t: Table, s: Step)
    requires Inv(t) && Can(t, s)
    ensures Same(Do(t, s))
  {
    forall k | 0 <= k < |t.history|
      ensures SameBatch(Do(t, s), t.history[k])
    {
      assert SameBatch(t, t.history[k]) && SpentBatch(t, t.history[k]);
      SameStays(t, s, t.history[k]);
    }
    if s.WindowCommit? {
      SameNow(t, s.tx, s.b);
    }
  }

  lemma SameNow(t: Table, tx: nat, b: Batch)
    requires UniqueRows(t) && Locks(t) && Can(t, WindowCommit(tx, b))
    ensures SameBatch(Commit(t, tx, b), b)
  {
    CommitMarks(t, tx, b);
  }

  lemma GoneStays(t: Table, s: Step, earlier: Batch, later: Batch)
    requires SpentBatch(t, earlier) && GoneFor(t, earlier, later) && Can(t, s)
    ensures GoneFor(Do(t, s), earlier, later)
  {
  }

  /** A window being committed takes pending rows; the row of an earlier window with such an id would be
      a second row with that id. */
  lemma GoneNow(t: Table, tx: nat, b: Batch, earlier: Batch)
    requires Inv(t) && Can(t, WindowCommit(tx, b)) && SpentBatch(t, earlier) && SameBatch(t, earlier)
    ensures GoneFor(Commit(t, tx, b), earlier, b)
  {
    forall r | r in earlier.rows && InBatch(b, earlier.rows[r].id)
      ensures r !in t.rows
    {
      var q :| q in b.rows && b.rows[q].id == earlier.rows[r].id;
      assert q in t.windows[tx] && t.rows[q].pending && t.rows[q].u == b.rows[q];
    }
  }

  lemma GoneStep(t: Table, s: Step)
    requires Inv(t) && Can(t, s)
    ensures Gone(Do(t, s))
  {
    var n := Do(t, s);
    forall k, j | 0 <= k < j < |n.history|
      ensures GoneFor(n, n.history[k], n.history[j])
    {
      assert SpentBatch(t, t.history[k]) && SameBatch(t, t.history[k]);
      if j < |t.history| {
        GoneStays(t, s, t.history[k], t.history[j]);
      } else {
        GoneNow(t, s.tx, s.b, t.history[k]);
      }
    }
  }

  lemma NewRowIsFree(t: Table, u: RawUpdate, now: int, tx: nat)
    requires UniqueRows(t) && Locks(t) && tx !in t.windows
    ensures Can(Add(t, u, now), WindowBegin(tx, {t.next}))
  {
    forall x, r | x in t.windows && r in t.windows[x]
      ensures r != t.next
    {
      assert r in t.rows;
    }
    assert t.next in Free(Add(t, u, now));
  }

  /** A window over one row whose update the filter drops. */
  lemma DroppedWindow(r: nat, u: RawUpdate) returns (b: Batch)
    ensures HandledWindow(b) && b.rows == map[r := u]
  {
    b := Batch(map[r := u], [r], _ => None, [], []);
    assert Enumerates(b.order, b.rows);
    assert Read(b) == [u] && [u][1..] == [];
  }

  lemma OneRowWindow(t: Table, tx: nat, r: nat) returns (b: Batch)
    requires tx in t.windows && t.windows[tx] == {r} && r in t.rows
    ensures Can(t, WindowCommit(tx, b)) && InBatch(b, t.rows[r].u.id)
  {
    b := DroppedWindow(r, t.rows[r].u);
    assert WindowUpdates(t, tx) == map[r := t.rows[r].u];
    assert b.rows[r].id == t.rows[r].u.id;
  }

  /** A window over row r can begin and commit, and then two committed windows hold the row's id. */
  ghost predicate JoinsAnother(t: Table, tx: nat, r: nat, b: Batch) {
    && r in t.rows && InHistory(t, t.rows[r].u.id) && InBatch(b, t.rows[r].u.id)
    && Can(t, WindowBegin(tx, {r})) && Can(Begin(t, tx, {r}), WindowCommit(tx, b))
  }

  /** Once no row with the id is left, a redelivered update is inserted again and can join another window. */
  lemma CleanedIdRejoins(t: Table, u: RawUpdate, now: int, tx: nat) returns (b: Batch)
    requires UniqueRows(t) && Locks(t) && !HasId(t.rows, u.id) && InHistory(t, u.id) && tx !in t.windows
    ensures Can(t, Insert(u, now)) && JoinsAnother(Add(t, u, now), tx, t.next, b)
  {
    var n := Add(t, u, now);
    NewRowIsFree(t, u, now, tx);
    InHistoryStays(t, Insert(u, now), u.id);
    b := OneRowWindow(Begin(n, tx, {t.next}), tx, t.next);
  }

  lemma AccountedStep(t: Table, s: Step)
    requires Inv(t) && Can(t, s)
    ensures Accounted(Do(t, s))
  {
    var n := Do(t, s);
    if s.WindowCommit? {
      CommitMarks(t, s.tx, s.b);
    }
    forall r | r in n.rows && !n.rows[r].pending
      ensures InHistory(n, n.rows[r].u.id)
    {
      if t.rows[r].pending {
        InHistoryNow(t, s.tx, s.b, r);
      } else {
        InHistoryStays(t, s, t.rows[r].u.id);
      }
    }
  }

  /** In every reachable state: one row per id, disjoint locks, each row in at most one committed window. */
  lemma InvStep(t: Table, s: Step)
    requires Inv(t) && Can(t, s)
    ensures Inv(Do(t, s))
  {
    UniqueRowsStep(t, s);
    LocksStep(t, s);
    SpentStep(t, s);
    SameStep(t, s);
    GoneStep(t, s);
    AccountedStep(t, s);
    WindowsStep(t, s);
  }

  lemma WindowsStep(t: Table, s: Step)
    requires Inv(t) && Can(t, s)
    ensures Windows(Do(t, s))
  {
    if s.WindowCommit? {
      CommitMarks(t, s.tx, s.b);
      assert DistinctRows(s.b.rows);
    }
  }

  // ---------- the relay as the scheduler runs it ----------

  function IdSet(us: seq<RawUpdate>): set<int> {
    set i | 0 <= i < |us| :: us[i].id
  }

  lemma IdSetStep(us: seq<RawUpdate>, i: nat)
    requires i < |us|
    ensures forall x :: x in IdSet(us[..i + 1]) <==> x in IdSet(us[..i]) || x == us[i].id
  {
    forall x
      ensures x in IdSet(us[..i + 1]) <==> x in IdSet(us[..i]) || x == us[i].id
    {
      if x in IdSet(us[..i]) {
        var k :| 0 <= k < |us[..i]| && us[..i][k].id == x;
        assert us[..i + 1][k].id == x;
      }
      assert us[..i + 1][i].id == us[i].id;
    }
  }

  lemma ReadIds(b: Batch)
    requires Enumerates(b.order, b.rows)
    ensures IdSet(Read(b)) == IdsOf(b.rows)
  {
    forall x
      ensures x in IdSet(Read(b)) <==> x in IdsOf(b.rows)
    {
      if x in IdSet(Read(b)) {
        var i :| 0 <= i < |Read(b)| && Read(b)[i].id == x;
        assert b.order[i] in b.rows;
      }
      if x in IdsOf(b.rows) {
        var r :| r in b.rows && b.rows[r].id == x;
        var i :| 0 <= i < |b.order| && b.order[i] == r;
        assert Read(b)[i].id == x;
      }
    }
  }

  /** The updates of the fetched rows. */
  function Taken(rows: map<nat, Row>, order: seq<nat>): map<nat, RawUpdate> {
    map r | r in order && r in rows :: rows[r].u
  }

  lemma BatchOf(rows: map<nat, Row>, order: seq<nat>, us: seq<RawUpdate>, prepare: RawUpdate -> Option<Processed>,
                records: seq<Processed>) returns (b: Batch)
    requires forall i :: 0 <= i < |order| ==> order[i] in rows
    requires forall i, j :: 0 <= i < j < |order| ==> order[i] != order[j]
    requires |us| == |order| && forall i :: 0 <= i < |order| ==> us[i] == rows[order[i]].u
    requires Window.DeliversWindow(us, prepare, records)
    ensures b.order == order && b.rows == Taken(rows, order) && b.records == records
    ensures HandledWindow(b) && IdsOf(b.rows) == IdSet(us)
  {
    var ps: seq<Processed> :| multiset(ps) == Window.Survivors(us, prepare) && Window.Delivers(ps, records);
    b := Batch(Taken(rows, order), order, prepare, ps, records);
    assert Read(b) == us;
    ReadIds(b);
  }

  /** The inbox repository, the outbox it shares a transaction with, and the relay between them. */
  class Repo {
    var rows: map<nat, Row>
    var next: nat
    var outbox: seq<Processed>

    constructor ()
      ensures rows == map[] && next == 0 && outbox == []
    {
      rows, next, outbox := map[], 0, [];
    }

    /** AddRecord when the database answers: the unique update_id refuses a second row. */
    method AddRecord(u: RawUpdate, now: int) returns (duplicate: bool)
      modifies this`rows, this`next
      ensures duplicate == HasId(old(rows), u.id)
      ensures duplicate ==> rows == old(rows) && next == old(next)
      ensures !duplicate ==> rows == old(rows)[old(next) := Row(u, now, true)] && next == old(next) + 1
    {
      duplicate := exists r | r in rows :: rows[r].u.id == u.id;
      if !duplicate {
        rows := rows[next := Row(u, now, true)];
        next := next + 1;
      }
    }

    method MarkProcessed(us: seq<RawUpdate>)
      modifies this`rows
      ensures rows == Mark(old(rows), IdSet(us))
    {
      ghost var rows0 := rows;
      assert IdSet(us[..0]) == {} && rows == Mark(rows, {});
      for i := 0 to |us|
        invariant rows == Mark(rows0, IdSet(us[..i]))
      {
        IdSetStep(us, i);
        var id := us[i].id;
        rows := map r | r in rows :: if rows[r].u.id == id then rows[r].(pending := false) else rows[r];
      }
      assert us[..|us|] == us;
    }

    method Cleanup(cut: int)
      modifies this`rows
      ensures rows == Cleaned(old(rows), cut)
      ensures forall r :: r in rows ==> r in old(rows) && rows[r] == old(rows)[r]
      ensures forall r :: r in old(rows) ==> (r !in rows <==> !old(rows)[r].pending && old(rows)[r].created < cut)
      ensures forall id :: Awaits(old(rows), id) <==> Awaits(rows, id)
      ensures UniqueIds(old(rows)) ==> UniqueIds(rows)
    {
      rows := map r | r in rows && (rows[r].pending || rows[r].created >= cut) :: rows[r];
    }

    /** The handler on the rows FetchPending returned, in the order it returned them. */
    method HandleFetched(order: seq<nat>, prepare: RawUpdate -> Option<Processed>, workerCount: nat)
      returns (blocked: bool, us: seq<RawUpdate>, records: seq<Processed>, ghost b: Batch)
      requires forall i :: 0 <= i < |order| ==> order[i] in rows
      requires forall i, j :: 0 <= i < j < |order| ==> order[i] != order[j]
      ensures blocked <==> Window.Blocks(|order|, workerCount, Window.Live)
      ensures b.order == order && b.rows == Taken(rows, order)
      ensures !blocked ==> HandledWindow(b) && IdsOf(b.rows) == IdSet(us) && b.records == records
    {
      var table := rows;
      us := seq(|order|, i requires 0 <= i < |order| && order[i] in table => table[order[i]].u);
      blocked, records := Window.HandleUpdatesWindow(us, prepare, workerCount, Window.Live);
      if blocked {
        b := Batch(Taken(rows, order), order, prepare, [], []);
      } else {
        assert us[..|us|] == us;
        b := BatchOf(rows, order, us, prepare, records);
      }
    }

    /** relayInbox over the rows FetchPending returned. handled tells whether AddBatch succeeds, commits
        whether MarkProcessed and the commit do. */
    method RelayInbox(order: seq<nat>, prepare: RawUpdate -> Option<Processed>, workerCount: nat, handled: bool, commits: bool)
      returns (ok: bool, ghost b: Batch)
      requires forall i :: 0 <= i < |order| ==> order[i] in rows
      requires forall i, j :: 0 <= i < j < |order| ==> order[i] != order[j]
      modifies this`rows, this`outbox
      ensures ok <==> (order == [] || workerCount > 0) && handled && commits
      ensures b.order == order && b.rows == Taken(old(rows), order)
      ensures !Window.Blocks(|order|, workerCount, Window.Live) ==> HandledWindow(b)
      ensures ok ==> rows == Mark(old(rows), IdsOf(b.rows)) && outbox == old(outbox) + b.records
      ensures !ok ==> rows == old(rows) && outbox == old(outbox)
    {
      var snapshot, committed := rows, outbox;
      var blocked, us, records;
      blocked, us, records, b := HandleFetched(order, prepare, workerCount);
      ok := !blocked && handled && commits;
      if !blocked && handled {
        outbox := outbox + records;
        MarkProcessed(us);
      }
      if !ok {
        rows, outbox := snapshot, committed;
      }
    }
  }
}
