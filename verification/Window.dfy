/** Grouping of one window of updates by the agent service: HandleUpdatesWindow with its shared,
    mutated update objects and its loops over maps in arbitrary order. */
module Window {
  import opened Records
  import opened Selection

  // ---------- which updates address a chat ----------

  /** Positions of the updates that list chat c, in order, once for every time they list it. */
  function Members(chats: seq<seq<int>>, c: int): (m: seq<nat>)
    ensures forall k :: 0 <= k < |m| ==> m[k] < |chats|
  {
    if chats == [] then []
    else
      var n := |chats| - 1;
      Members(chats[..n], c) + Repeat(n, multiset(chats[n])[c])
  }

  lemma {:induction false} MembersCount(chats: seq<seq<int>>, c: int, i: nat)
    requires i < |chats|
    ensures multiset(Members(chats, c))[i] == multiset(chats[i])[c]
  {
    var n := |chats| - 1;
    var m, r := Members(chats[..n], c), Repeat(n, multiset(chats[n])[c]);
    RepeatCount(n, multiset(chats[n])[c], i);
    if i < n {
      MembersCount(chats[..n], c, i);
    } else {
      assert forall k :: 0 <= k < |m| ==> m[k] < n;
      assert n !in m;
    }
    assert multiset(m + r)[i] == multiset(m)[i] + multiset(r)[i];
  }

  lemma {:induction false} RepeatCount(x: nat, n: nat, y: nat)
    ensures multiset(Repeat(x, n))[y] == if x == y then n else 0
  {
    if n > 0 {
      RepeatCount(x, n - 1, y);
    }
  }

  /** Listing chat x once more in the last update adds one membership, to x alone. */
  lemma MembersStep(pre: seq<seq<int>>, cur: seq<int>, x: int, c: int)
    ensures Members(pre + [cur + [x]], c) == Members(pre + [cur], c) + if c == x then [|pre|] else []
  {
    assert (pre + [cur + [x]])[..|pre|] == pre && (pre + [cur])[..|pre|] == pre;
    var k := multiset(cur)[c];
    assert multiset(cur + [x])[c] == if c == x then k + 1 else k;
    assert Repeat(|pre|, k + 1) == Repeat(|pre|, k) + [|pre|];
  }

  lemma MembersEmptyTail(pre: seq<seq<int>>, c: int)
    ensures Members(pre + [[]], c) == Members(pre, c)
  {
    assert (pre + [[]])[..|pre|] == pre;
    assert Repeat(|pre|, 0) == [];
  }

  function ChatsOf(ps: seq<Processed>): seq<seq<int>> {
    seq(|ps|, i requires 0 <= i < |ps| => ps[i].chats)
  }

  function MembersOf(ps: seq<Processed>, c: int): seq<nat> {
    Members(ChatsOf(ps), c)
  }

  function Pick<T>(xs: seq<T>, idx: seq<nat>): (r: seq<T>)
    requires forall k :: 0 <= k < |idx| ==> idx[k] < |xs|
  {
    seq(|idx|, k requires 0 <= k < |idx| => xs[idx[k]])
  }

  /** The updates of chat c, as handed to the grouping code. */
  function UpdatesOf(ps: seq<Processed>, c: int): seq<Processed> {
    Pick(ps, MembersOf(ps, c))
  }

  function Addressed(ps: seq<Processed>): set<int> {
    set i, c | 0 <= i < |ps| && c in ps[i].chats :: c
  }

  /** The chats addressed by exactly one update, with the id of that update. */
  function Owners(ps: seq<Processed>): map<int, int> {
    map c | c in Addressed(ps) && |MembersOf(ps, c)| == 1 :: ps[MembersOf(ps, c)[0]].id
  }

  function OwnedBy(owner: map<int, int>, id: int): set<int> {
    set c | c in owner && owner[c] == id
  }

  /** Chats addressed by exactly one update, that update having the given id. */
  function Singles(ps: seq<Processed>, id: int): set<int> {
    OwnedBy(Owners(ps), id)
  }

  lemma {:induction false} MembersNonEmpty(chats: seq<seq<int>>, c: int)
    ensures Members(chats, c) != [] <==> exists i :: 0 <= i < |chats| && c in chats[i]
  {
    if exists i :: 0 <= i < |chats| && c in chats[i] {
      var i :| 0 <= i < |chats| && c in chats[i];
      MembersCount(chats, c, i);
    }
    var m := Members(chats, c);
    if m != [] {
      MembersCount(chats, c, m[0]);
      assert multiset(m)[m[0]] > 0;
      assert c in multiset(chats[m[0]]);
    }
  }

  // ---------- group records ----------

  function MaxPriorityOf(ps: seq<Priority>): Priority {
    if ps == [] then Low
    else
      var m := MaxPriorityOf(ps[..|ps| - 1]);
      if Weight(ps[|ps| - 1]) > Weight(m) then ps[|ps| - 1] else m
  }

  /** The group priority outranks every member's, and is a member's or the floor LOW. */
  lemma {:induction false} MaxPriorityIsMaximum(ps: seq<Priority>)
    ensures forall p :: p in ps ==> Weight(p) <= Weight(MaxPriorityOf(ps))
    ensures MaxPriorityOf(ps) in ps || MaxPriorityOf(ps) == Low
  {
    if ps != [] {
      var n := |ps| - 1;
      MaxPriorityIsMaximum(ps[..n]);
      forall p | p in ps
        ensures Weight(p) <= Weight(MaxPriorityOf(ps))
      {
        var i :| 0 <= i <= n && ps[i] == p;
        assert i < n ==> ps[..n][i] == p;
      }
    }
  }

  /** In plain words: HIGH if a member is, else MEDIUM if a member is, else LOW. */
  lemma {:induction false} MaxPriorityExact(ps: seq<Priority>)
    ensures MaxPriorityOf(ps) == if High in ps then High else if Medium in ps then Medium else Low
  {
    if ps != [] {
      var n := |ps| - 1;
      MaxPriorityExact(ps[..n]);
      assert ps == ps[..n] + [ps[n]];
    }
  }

  const GROUP_HEADER := "You have several updates:\n\n"

  /** Header and the first n numbered descriptions. */
  function Numbered(descs: seq<string>, n: nat): string
    requires n <= |descs|
  {
    if n == 0 then GROUP_HEADER
    else
      var line := Numbered(descs, n - 1) + Itoa(n) + ") " + descs[n - 1];
      if n == |descs| then line else line + "\n"
  }

  function GroupText(descs: seq<string>): string {
    Numbered(descs, |descs|)
  }

  function Descriptions(ps: seq<Processed>): seq<string> {
    seq(|ps|, i requires 0 <= i < |ps| => ps[i].description)
  }

  function Priorities(ps: seq<Processed>): seq<Priority> {
    seq(|ps|, i requires 0 <= i < |ps| => ps[i].priority)
  }

  function GroupRecord(ms: seq<Processed>, chat: int): Processed
    requires ms != []
  {
    Processed(ms[|ms| - 1].id, "", GroupText(Descriptions(ms)), [chat], MaxPriorityOf(Priorities(ms)))
  }

  // ---------- what a group record says ----------

  /** body is the first n lines. Line k is cut out of it at at[k]: its number, the description of the k-th member, and a newline but
      for the last. */
  predicate LinesAt(body: string, at: seq<nat>, ms: seq<Processed>, n: nat) {
    && n <= |ms| && Divided(body, at, n)
    && forall k: nat :: k < n ==>
      Cut(body, at, k) && Part(body, at, k) == Itoa(k + 1) + ") " + ms[k].description + if k + 1 < |ms| then "\n" else ""
  }

  /** The text is the header and one line for every member, in order, and nothing else. */
  ghost predicate ListsMembers(text: string, ms: seq<Processed>) {
    GROUP_HEADER <= text && exists at :: LinesAt(text[|GROUP_HEADER|..], at, ms, |ms|)
  }

  predicate HasPriority(ms: seq<Processed>, p: Priority) {
    exists k :: 0 <= k < |ms| && ms[k].priority == p
  }

  /** The group record of the members ms for one chat. */
  ghost predicate IsGroup(r: Processed, chat: int, ms: seq<Processed>) {
    && ms != [] && r.id == ms[|ms| - 1].id && r.link == "" && r.chats == [chat]
    && ListsMembers(r.description, ms)
    && r.priority == if HasPriority(ms, High) then High else if HasPriority(ms, Medium) then Medium else Low
  }

  lemma LinesAppend(body: string, at: seq<nat>, ms: seq<Processed>, n: nat, line: string)
    requires LinesAt(body, at, ms, n) && n < |ms|
    requires line == Itoa(n + 1) + ") " + ms[n].description + if n + 1 < |ms| then "\n" else ""
    ensures LinesAt(body + line, at + [|body| + |line|], ms, n + 1)
  {
    DividedAppend(body, at, n, line);
  }

  lemma {:induction false} NumberedExact(ms: seq<Processed>, n: nat) returns (body: string, at: seq<nat>)
    requires n <= |ms|
    ensures Numbered(Descriptions(ms), n) == GROUP_HEADER + body && LinesAt(body, at, ms, n)
  {
    if n == 0 {
      body, at := "", [0];
    } else {
      var front, cuts := NumberedExact(ms, n - 1);
      var line := Itoa(n) + ") " + ms[n - 1].description + if n < |ms| then "\n" else "";
      LinesAppend(front, cuts, ms, n - 1, line);
      LineJoins(Numbered(Descriptions(ms), n - 1), front, Itoa(n), ms[n - 1].description, if n < |ms| then "\n" else "");
      body, at := front + line, cuts + [|front| + |line|];
    }
  }

  lemma LineJoins(text: string, front: string, number: string, desc: string, end: string)
    requires text == GROUP_HEADER + front
    ensures text + number + ") " + desc + end == GROUP_HEADER + (front + (number + ") " + desc + end))
  {
  }

  /** The text has a line for every member. */
  lemma GroupTextExact(ms: seq<Processed>)
    ensures ListsMembers(GroupText(Descriptions(ms)), ms)
  {
    var body, at := NumberedExact(ms, |ms|);
    assert (GROUP_HEADER + body)[|GROUP_HEADER|..] == body;
    assert LinesAt(body, at, ms, |ms|);
  }

  lemma GroupRecordExact(ms: seq<Processed>, chat: int)
    requires ms != []
    ensures IsGroup(GroupRecord(ms, chat), chat, ms)
  {
    GroupTextExact(ms);
    MaxPriorityExact(Priorities(ms));
    forall p
      ensures p in Priorities(ms) <==> HasPriority(ms, p)
    {
      if HasPriority(ms, p) {
        var k :| 0 <= k < |ms| && ms[k].priority == p;
        assert Priorities(ms)[k] == p;
      }
    }
  }

  // ---------- what a delivered batch must be ----------

  function AllChats(out: seq<Processed>): multiset<int> {
    if out == [] then multiset{} else AllChats(out[..|out| - 1]) + multiset(out[|out| - 1].chats)
  }

  /** Record r carries update j (content of ps[j]) to every chat whose only update has that id. */
  predicate CarriesSingle(ps: seq<Processed>, r: Processed, j: nat) {
    && j < |ps|
    && r == ps[j].(chats := r.chats)
    && (exists c :: c in r.chats && MembersOf(ps, c) == [j])
    && multiset(r.chats) == multiset(Singles(ps, ps[j].id))
  }

  /** Record r is the right one for the addressed chat c. */
  ghost predicate RightFor(ps: seq<Processed>, r: Processed, c: int) {
    if |MembersOf(ps, c)| == 1 then
      exists j: nat {:trigger CarriesSingle(ps, r, j)} :: CarriesSingle(ps, r, j) && ps[j].id == ps[MembersOf(ps, c)[0]].id
    else
      MembersOf(ps, c) != [] && r == GroupRecord(UpdatesOf(ps, c), c)
  }

  ghost function Right(ps: seq<Processed>): (Processed, int) -> bool {
    (r, c) => RightFor(ps, r, c)
  }

  /** The records cover exactly the given chats, each once, and by a record that is right for it. */
  ghost predicate Covers(right: (Processed, int) -> bool, covered: set<int>, out: seq<Processed>) {
    && AllChats(out) == multiset(covered)
    && (forall k :: 0 <= k < |out| ==> out[k].chats != [])
    && (forall k, c :: 0 <= k < |out| && c in out[k].chats ==> right(out[k], c))
  }

  /** What the outbox batch of a window must be. */
  ghost predicate Delivers(ps: seq<Processed>, out: seq<Processed>) {
    Covers(Right(ps), Addressed(ps), out)
  }

  predicate DistinctIds(ps: seq<Processed>) {
    forall i, j :: 0 <= i < j < |ps| ==> ps[i].id != ps[j].id
  }

  // ---------- the agent service ----------

  /** An update object; groups of several chats share it, and its ChatIDs field is overwritten. */
  class Update {
    const id: int
    const link: string
    const description: string
    const priority: Priority
    var chats: seq<int>

    constructor (p: Processed)
      ensures Value() == p
    {
      id, link, description, priority, chats := p.id, p.link, p.description, p.priority, p.chats;
    }

    function Value(): Processed
      reads this
    {
      Processed(id, link, description, chats, priority)
    }
  }

  predicate DistinctObjects(us: seq<Update>) {
    forall i, j :: 0 <= i < j < |us| ==> us[i] != us[j]
  }

  function Values(us: seq<Update>): (ps: seq<Processed>)
    reads us
    ensures |ps| == |us|
  {
    seq(|us|, i requires 0 <= i < |us| reads us => us[i].Value())
  }

  lemma ValuesAppend(us: seq<Update>, u: Update)
    ensures Values(us + [u]) == Values(us) + [u.Value()]
  {
  }

  method MaxPriority(us: seq<Update>) returns (p: Priority)
    ensures p == MaxPriorityOf(Priorities(Values(us)))
  {
    p := Low;
    var all := Priorities(Values(us));
    for i := 0 to |us|
      invariant p == MaxPriorityOf(all[..i])
    {
      assert all[..i + 1][..i] == all[..i];
      if Weight(us[i].priority) > Weight(p) {
        p := us[i].priority;
      }
    }
    assert all[..|us|] == all;
  }

  method FormatGroupDescription(us: seq<Update>) returns (text: string)
    ensures text == GroupText(Descriptions(Values(us))) && ListsMembers(text, Values(us))
  {
    GroupTextExact(Values(us));
    var all := Descriptions(Values(us));
    text := GROUP_HEADER;
    for i := 0 to |us|
      invariant text == Numbered(all, i)
    {
      text := text + Itoa(i + 1);
      text := text + ") ";
      text := text + us[i].description;
      if i != |us| - 1 {
        text := text + "\n";
      }
    }
  }

  method GroupUpdates(us: seq<Update>, chat: int) returns (r: Update)
    requires us != []
    ensures fresh(r)
    ensures r.Value() == GroupRecord(Values(us), chat) && IsGroup(r.Value(), chat, Values(us))
  {
    GroupRecordExact(Values(us), chat);
    var text := FormatGroupDescription(us);
    var p := MaxPriority(us);
    r := new Update(Processed(us[|us| - 1].id, "", text, [chat], p));
  }

  /** First loop of HandleUpdatesWindow: the updates of every chat. */
  method CollectGroups(us: seq<Update>) returns (groups: map<int, seq<Update>>)
    ensures Grouped(us, ChatsOf(Values(us)), groups)
  {
    groups := map[];
    ghost var lists := ChatsOf(Values(us));
    for i := 0 to |us|
      invariant Grouped(us, lists[..i], groups)
    {
      ghost var pre := lists[..i];
      GroupedEmptyTail(us, pre, groups);
      var cur := us[i].chats;
      for j := 0 to |cur|
        invariant Grouped(us, pre + [cur[..j]], groups)
      {
        var c := cur[j];
        GroupedStep(us, pre, cur[..j], c, groups);
        TakeStep(cur, j);
        groups := groups[c := (if c in groups then groups[c] else []) + [us[i]]];
      }
      TakeStep(lists, i);
      assert cur[..|cur|] == cur == lists[i];
    }
    assert lists[..|us|] == lists;
  }

  lemma TakeStep<T>(s: seq<T>, i: nat)
    requires i < |s|
    ensures s[..i + 1] == s[..i] + [s[i]]
  {
  }

  lemma GroupedEmptyTail(us: seq<Update>, pre: seq<seq<int>>, groups: map<int, seq<Update>>)
    requires |pre| < |us| && Grouped(us, pre, groups)
    ensures Grouped(us, pre + [[]], groups)
  {
    forall c {
      MembersEmptyTail(pre, c);
    }
  }

  lemma GroupedStep(us: seq<Update>, pre: seq<seq<int>>, cur: seq<int>, x: int, groups: map<int, seq<Update>>)
    requires |pre| < |us| && Grouped(us, pre + [cur], groups)
    ensures Grouped(us, pre + [cur + [x]], groups[x := (if x in groups then groups[x] else []) + [us[|pre|]]])
  {
    var after := groups[x := (if x in groups then groups[x] else []) + [us[|pre|]]];
    forall c
      ensures c in after <==> Members(pre + [cur + [x]], c) != []
      ensures c in after ==> after[c] == Pick(us, Members(pre + [cur + [x]], c))
    {
      MembersStep(pre, cur, x, c);
      if c == x {
        PickAppend(us, Members(pre + [cur], c), |pre|);
      }
    }
  }

  lemma PickAppend<T>(xs: seq<T>, idx: seq<nat>, k: nat)
    requires k < |xs| && forall j :: 0 <= j < |idx| ==> idx[j] < |xs|
    ensures Pick(xs, idx + [k]) == Pick(xs, idx) + [xs[k]]
  {
  }

  ghost predicate Grouped(us: seq<Update>, lists: seq<seq<int>>, groups: map<int, seq<Update>>) {
    && |lists| <= |us|
    && (forall c :: c in groups <==> Members(lists, c) != [])
    && (forall c :: c in groups ==> groups[c] == Pick(us, Members(lists, c)))
  }

  // ---------- the rest of HandleUpdatesWindow ----------

  function Without<T>(s: seq<T>, k: nat): (r: seq<T>)
    requires k < |s|
    ensures |r| == |s| - 1
  {
    s[..k] + s[k + 1..]
  }

  function Kept1(r: Option<Processed>): multiset<Processed> {
    match r
    case Some(p) => multiset{p}
    case None => multiset{}
  }

  /** The prepared form of every update that the filter keeps. */
  function Survivors(updates: seq<RawUpdate>, prepare: RawUpdate -> Option<Processed>): multiset<Processed> {
    if updates == [] then multiset{}
    else Survivors(updates[..|updates| - 1], prepare) + Kept1(prepare(updates[|updates| - 1]))
  }

  lemma SurvivorsAppend(us: seq<RawUpdate>, u: RawUpdate, prepare: RawUpdate -> Option<Processed>)
    ensures Survivors(us + [u], prepare) == Survivors(us, prepare) + Kept1(prepare(u))
  {
    assert (us + [u])[..|us|] == us;
  }

  lemma {:induction false} SurvivorsRemove(jobs: seq<RawUpdate>, k: nat, prepare: RawUpdate -> Option<Processed>)
    requires k < |jobs|
    ensures Survivors(jobs, prepare) == Kept1(prepare(jobs[k])) + Survivors(Without(jobs, k), prepare)
  {
    var n := |jobs| - 1;
    if k == n {
      assert Without(jobs, k) == jobs[..n];
    } else {
      SurvivorsRemove(jobs[..n], k, prepare);
      WithoutLast(jobs, k);
      SurvivorsAppend(Without(jobs[..n], k), jobs[n], prepare);
      SumAssoc(Kept1(prepare(jobs[k])), Survivors(Without(jobs[..n], k), prepare), Kept1(prepare(jobs[n])));
    }
  }

  function Survives(us: seq<RawUpdate>, prepare: RawUpdate -> Option<Processed>): nat -> bool {
    (i: nat) => i < |us| && prepare(us[i]).Some?
  }

  lemma SurvivesLast(us: seq<RawUpdate>, prepare: RawUpdate -> Option<Processed>, n: nat)
    requires n + 1 == |us|
    ensures forall i: nat :: i < n ==> (Survives(us[..n], prepare)(i) <==> Survives(us, prepare)(i))
    ensures Survives(us, prepare)(n) <==> prepare(us[n]).Some?
  {
  }

  predicate PreparedOf(kept: seq<RawUpdate>, prepare: RawUpdate -> Option<Processed>, ps: seq<Processed>) {
    |ps| == |kept| && forall k :: 0 <= k < |kept| ==> prepare(kept[k]) == Some(ps[k])
  }

  lemma PreparedLast(front: seq<RawUpdate>, before: seq<Processed>, u: RawUpdate, prepare: RawUpdate -> Option<Processed>,
                     kept: seq<RawUpdate>, ps: seq<Processed>)
    requires PreparedOf(front, prepare, before)
    requires kept == front + if prepare(u).Some? then [u] else []
    requires ps == before + if prepare(u).Some? then [prepare(u).value] else []
    ensures PreparedOf(kept, prepare, ps) && multiset(ps) == multiset(before) + Kept1(prepare(u))
  {
  }

  /** The survivors are the prepared forms of the updates that the filter lets through, each once. */
  lemma {:induction false} SurvivorsExact(us: seq<RawUpdate>, prepare: RawUpdate -> Option<Processed>)
    returns (kept: seq<RawUpdate>, ps: seq<Processed>)
    ensures Selects(us, Survives(us, prepare), kept)
    ensures PreparedOf(kept, prepare, ps) && multiset(ps) == Survivors(us, prepare)
  {
    if us == [] {
      kept, ps := [], [];
      SelectsNone<RawUpdate>(Survives(us, prepare));
    } else {
      var n := |us| - 1;
      var front, before := SurvivorsExact(us[..n], prepare);
      SurvivesLast(us, prepare, n);
      SelectsLast(us, Survives(us[..n], prepare), Survives(us, prepare), front);
      kept := front + if Survives(us, prepare)(n) then [us[n]] else [];
      ps := before + if prepare(us[n]).Some? then [prepare(us[n]).value] else [];
      PreparedLast(front, before, us[n], prepare, kept, ps);
    }
  }

  lemma SumAssoc<T>(a: multiset<T>, b: multiset<T>, c: multiset<T>)
    ensures a + b + c == a + (b + c)
  {
  }

  lemma WithoutLast<T>(s: seq<T>, k: nat)
    requires k < |s| - 1
    ensures Without(s, k) == Without(s[..|s| - 1], k) + [s[|s| - 1]]
  {
  }

  ghost predicate Balanced(done: seq<Processed>, jobs: seq<RawUpdate>, prepare: RawUpdate -> Option<Processed>,
                           total: multiset<Processed>) {
    multiset(done) + Survivors(jobs, prepare) == total
  }

  lemma PoolStep(done: seq<Processed>, jobs: seq<RawUpdate>, k: nat, prepare: RawUpdate -> Option<Processed>,
                 total: multiset<Processed>)
    requires k < |jobs| && Balanced(done, jobs, prepare, total)
    ensures var rest := Without(jobs, k);
      if prepare(jobs[k]).Some? then Balanced(done + [prepare(jobs[k]).value], rest, prepare, total)
      else Balanced(done, rest, prepare, total)
  {
    SurvivorsRemove(jobs, k, prepare);
  }

  method PrepareUpdate(raw: RawUpdate, prepare: RawUpdate -> Option<Processed>) returns (u: Option<Update>)
    ensures u.Some? <==> prepare(raw).Some?
    ensures u.Some? ==> fresh(u.value) && u.value.Value() == prepare(raw).value
  {
    u := None;
    if prepare(raw).Some? {
      var p := new Update(prepare(raw).value);
      u := Some(p);
    }
  }

  /** One worker takes one job; jobs end in no particular order. */
  method Worker(us: seq<Update>, jobs: seq<RawUpdate>, prepare: RawUpdate -> Option<Processed>, ghost total: multiset<Processed>)
    returns (done: seq<Update>, left: seq<RawUpdate>)
    requires jobs != [] && DistinctObjects(us) && Balanced(Values(us), jobs, prepare, total)
    ensures |left| < |jobs| && DistinctObjects(done) && Balanced(Values(done), left, prepare, total)
    ensures |us| <= |done| && forall i :: 0 <= i < |us| ==> done[i] == us[i]
    ensures forall i :: |us| <= i < |done| ==> fresh(done[i])
  {
    var k :| 0 <= k < |jobs|;
    PoolStep(Values(us), jobs, k, prepare, total);
    var u := PrepareUpdate(jobs[k], prepare);
    done, left := us, Without(jobs, k);
    if u.Some? {
      ValuesAppend(us, u.value);
      done := us + [u.value];
    }
  }

  /** The context of a window: never cancelled, or cancelled once so many updates were handed out. */
  datatype Context = Live | Cancelled(after: nat)

  /** The producer waits for ever when there is no worker to take the next update. */
  predicate Blocks(n: nat, workerCount: nat, ctx: Context) {
    workerCount == 0 && n > 0 && ctx.Live?
  }

  /** Number of updates that reach the workers. */
  function HandedOut(n: nat, workerCount: nat, ctx: Context): (sent: nat)
    ensures sent <= n
    ensures workerCount > 0 && ctx.Live? ==> sent == n
  {
    if workerCount == 0 then 0 else match ctx case Live => n case Cancelled(after) => Min(after, n)
  }

  /** The worker pool. */
  method ProcessUpdates(updates: seq<RawUpdate>, prepare: RawUpdate -> Option<Processed>, workerCount: nat, ctx: Context)
    returns (blocked: bool, us: seq<Update>)
    ensures blocked <==> updates != [] && workerCount == 0 && ctx == Live
    ensures DistinctObjects(us) && forall i :: 0 <= i < |us| ==> fresh(us[i])
    ensures multiset(Values(us)) == Survivors(updates[..HandedOut(|updates|, workerCount, ctx)], prepare)
  {
    us := [];
    blocked := workerCount == 0 && |updates| > 0 && ctx.Live?;
    var jobs := updates[..HandedOut(|updates|, workerCount, ctx)];
    ghost var total := Survivors(jobs, prepare);
    while jobs != []
      invariant DistinctObjects(us) && forall i :: 0 <= i < |us| ==> fresh(us[i])
      invariant Balanced(Values(us), jobs, prepare, total)
      decreases |jobs|
    {
      us, jobs := Worker(us, jobs, prepare, total);
    }
  }

  lemma CoversAppend(right: (Processed, int) -> bool, covered: set<int>, out: seq<Processed>, r: Processed, more: set<int>)
    requires Covers(right, covered, out)
    requires more != {} && more !! covered && multiset(r.chats) == multiset(more)
    requires forall c :: c in more ==> right(r, c)
    ensures Covers(right, covered + more, out + [r])
  {
    AllChatsAppend(out, r);
    UnionOfDisjoint(covered, more);
    ChatsAre(r.chats, more);
    RightAppend(right, out, r);
  }

  lemma AllChatsAppend(out: seq<Processed>, r: Processed)
    ensures AllChats(out + [r]) == AllChats(out) + multiset(r.chats)
  {
    assert (out + [r])[..|out|] == out;
  }

  lemma RightAppend(right: (Processed, int) -> bool, out: seq<Processed>, r: Processed)
    requires forall k :: 0 <= k < |out| ==> out[k].chats != []
    requires forall k, c :: 0 <= k < |out| && c in out[k].chats ==> right(out[k], c)
    requires r.chats != [] && forall c :: c in r.chats ==> right(r, c)
    ensures forall k :: 0 <= k < |out + [r]| ==> (out + [r])[k].chats != []
    ensures forall k, c :: 0 <= k < |out + [r]| && c in (out + [r])[k].chats ==> right((out + [r])[k], c)
  {
  }

  lemma UnionOfDisjoint<T>(a: set<T>, b: set<T>)
    requires a !! b
    ensures multiset(a) + multiset(b) == multiset(a + b)
  {
  }

  lemma ChatsAre<T>(chats: seq<T>, more: set<T>)
    requires more != {} && multiset(chats) == multiset(more)
    ensures chats != [] && forall c :: c in chats <==> c in more
  {
    forall c
      ensures c in chats <==> c in more
    {
      assert c in chats <==> c in multiset(chats);
      assert c in multiset(more) <==> c in more;
    }
    var c := AnyOf(more);
    assert c in chats;
  }

  /** Second loop of HandleUpdatesWindow: batch holds, per update id, the visited chats with one update. */
  ghost predicate Batched(owner: map<int, int>, seen: set<int>, batch: map<int, seq<int>>) {
    forall id :: BatchedAt(owner, seen, batch, id)
  }

  ghost predicate BatchedAt(owner: map<int, int>, seen: set<int>, batch: map<int, seq<int>>, id: int) {
    var cs := OwnedBy(owner, id) * seen;
    if id in batch then batch[id] != [] && multiset(batch[id]) == multiset(cs) else cs == {}
  }

  function OwnersIn(groups: map<int, seq<Update>>): map<int, int> {
    map c | c in groups && |groups[c]| == 1 :: groups[c][0].id
  }

  method BatchSingles(groups: map<int, seq<Update>>) returns (batch: map<int, seq<int>>)
    ensures Batched(OwnersIn(groups), groups.Keys, batch)
  {
    batch := map[];
    var keys := groups.Keys;
    while keys != {}
      invariant keys <= groups.Keys
      invariant Batched(OwnersIn(groups), groups.Keys - keys, batch)
      decreases |keys|
    {
      var c := AnyKey(keys);
      ghost var before := batch;
      if |groups[c]| == 1 {
        var id := groups[c][0].id;
        batch := batch[id := (if id in batch then batch[id] else []) + [c]];
      }
      BatchedStep(OwnersIn(groups), groups.Keys - keys, before, c, batch);
      VisitOne(groups.Keys, keys, c);
      keys := keys - {c};
    }
    assert groups.Keys - {} == groups.Keys;
  }

  lemma BatchedStep(owner: map<int, int>, seen: set<int>, batch: map<int, seq<int>>, c: int, next: map<int, seq<int>>)
    requires Batched(owner, seen, batch) && c !in seen
    requires c !in owner ==> next == batch
    requires c in owner ==> next == batch[owner[c] := (if owner[c] in batch then batch[owner[c]] else []) + [c]]
    ensures Batched(owner, seen + {c}, next)
  {
    forall id
      ensures BatchedAt(owner, seen + {c}, next, id)
    {
      assert BatchedAt(owner, seen, batch, id);
      if c in owner && owner[c] == id {
        SeeOwned(OwnedBy(owner, id), seen, c);
      } else {
        SeeOther(OwnedBy(owner, id), seen, c);
      }
    }
  }

  lemma SeeOwned<T>(owned: set<T>, seen: set<T>, c: T)
    requires c in owned && c !in seen
    ensures owned * (seen + {c}) == owned * seen + {c}
    ensures multiset(owned * (seen + {c})) == multiset(owned * seen) + multiset{c}
  {
    var before, after := owned * seen, owned * (seen + {c});
    assert after == before + {c} && c !in before;
  }

  lemma SeeOther<T>(owned: set<T>, seen: set<T>, c: T)
    requires c !in owned
    ensures owned * (seen + {c}) == owned * seen
  {
  }

  lemma AddressedIff(ps: seq<Processed>, c: int)
    ensures c in Addressed(ps) <==> Members(ChatsOf(ps), c) != []
  {
    var lists := ChatsOf(ps);
    MembersNonEmpty(lists, c);
    if c in Addressed(ps) {
      var i :| 0 <= i < |ps| && c in ps[i].chats;
      assert c in lists[i];
    }
    if exists i :: 0 <= i < |lists| && c in lists[i] {
      var i :| 0 <= i < |lists| && c in lists[i];
      assert c in ps[i].chats;
    }
  }

  lemma GroupsFacts(us: seq<Update>, ps: seq<Processed>, groups: map<int, seq<Update>>)
    requires Grouped(us, ChatsOf(ps), groups) && |us| == |ps|
    requires forall i :: 0 <= i < |ps| ==> us[i].id == ps[i].id
    ensures groups.Keys == Addressed(ps)
    ensures OwnersIn(groups) == Owners(ps)
  {
    forall c
      ensures c in groups <==> c in Addressed(ps)
    {
      AddressedIff(ps, c);
    }
  }

  /** Progress of the last loop: the chats delivered so far. Visiting one single chat delivers to all
      chats that share its update id, and removes that id from the batch (whose ids are given). */
  function Done(addressed: set<int>, owner: map<int, int>, seen: set<int>, ids: set<int>): set<int> {
    set c | c in addressed && if c in owner then owner[c] !in ids else c in seen
  }

  lemma DoneSingle(addressed: set<int>, owner: map<int, int>, seen: set<int>, ids: set<int>, c: int)
    requires owner.Keys <= addressed && c in owner && owner[c] in ids
    ensures Done(addressed, owner, seen + {c}, ids - {owner[c]}) == Done(addressed, owner, seen, ids) + OwnedBy(owner, owner[c])
    ensures Done(addressed, owner, seen, ids) !! OwnedBy(owner, owner[c])
    ensures c in OwnedBy(owner, owner[c])
  {
  }

  lemma DoneSkip(addressed: set<int>, owner: map<int, int>, seen: set<int>, ids: set<int>, c: int)
    requires c in addressed
    ensures c in owner ==> Done(addressed, owner, seen + {c}, ids) == Done(addressed, owner, seen, ids)
    ensures c !in owner ==> Done(addressed, owner, seen + {c}, ids) == Done(addressed, owner, seen, ids) + {c}
  {
  }

  /** Every chat list of the batch holds all the single chats of its update id. */
  ghost predicate Complete(owner: map<int, int>, batch: map<int, seq<int>>) {
    forall id :: id in batch ==> multiset(batch[id]) == multiset(OwnedBy(owner, id))
  }

  lemma DoneAtStart(addressed: set<int>, owner: map<int, int>, batch: map<int, seq<int>>)
    requires owner.Keys <= addressed && Batched(owner, addressed, batch)
    ensures Done(addressed, owner, {}, batch.Keys) == {}
    ensures Complete(owner, batch)
  {
    forall c | c in owner
      ensures owner[c] in batch
    {
      assert BatchedAt(owner, addressed, batch, owner[c]);
      assert c in OwnedBy(owner, owner[c]) * addressed;
    }
    forall id | id in batch
      ensures multiset(batch[id]) == multiset(OwnedBy(owner, id))
    {
      assert BatchedAt(owner, addressed, batch, id);
      assert OwnedBy(owner, id) * addressed == OwnedBy(owner, id);
    }
  }

  lemma DoneAtEnd(addressed: set<int>, owner: map<int, int>, seen: set<int>, ids: set<int>)
    requires forall c :: c in addressed ==> c in seen
    requires forall c :: c in owner && c in seen ==> owner[c] !in ids
    ensures Done(addressed, owner, seen, ids) == addressed
  {
    forall c | c in addressed
      ensures c in Done(addressed, owner, seen, ids)
    {
      assert c in owner ==> owner[c] !in ids;
    }
  }

  lemma RightSingles(ps: seq<Processed>, r: Processed, c: int, j: nat)
    requires c in Owners(ps) && MembersOf(ps, c) == [j]
    requires r == ps[j].(chats := r.chats) && multiset(r.chats) == multiset(Singles(ps, ps[j].id))
    ensures forall x :: x in Singles(ps, ps[j].id) ==> Right(ps)(r, x)
  {
    assert c in multiset(r.chats);
    assert CarriesSingle(ps, r, j);
  }

  /** Overwriting ChatIDs never shows in a group record. */
  lemma GroupRecordIgnoresChats(a: seq<Processed>, b: seq<Processed>, chat: int)
    requires a != [] && |a| == |b|
    requires forall k :: 0 <= k < |a| ==> a[k] == b[k].(chats := a[k].chats)
    ensures GroupRecord(a, chat) == GroupRecord(b, chat)
  {
    assert Descriptions(a) == Descriptions(b) && Priorities(a) == Priorities(b);
  }

  /** What the last loop knows of chat c: its updates are us[m[0]], us[m[1]], ..., the owner map tells
      the single chats, and the records the loop would build are right. */
  ghost predicate Known(us: seq<Update>, ps: seq<Processed>, owner: map<int, int>, right: (Processed, int) -> bool,
                        c: int, upds: seq<Update>, m: seq<nat>)
  {
    && |us| == |ps| && |upds| == |m| > 0
    && (forall k :: 0 <= k < |m| ==> m[k] < |us| && upds[k] == us[m[k]])
    && (c in owner <==> |m| == 1)
    && if |m| == 1 then owner[c] == ps[m[0]].id && SinglesRight(ps[m[0]], right, OwnedBy(owner, owner[c]))
       else right(GroupRecord(Pick(ps, m), c), c)
  }

  ghost predicate AllKnown(us: seq<Update>, ps: seq<Processed>, owner: map<int, int>, right: (Processed, int) -> bool,
                           groups: map<int, seq<Update>>, idx: map<int, seq<nat>>)
  {
    forall c :: c in groups ==> c in idx && Known(us, ps, owner, right, c, groups[c], idx[c])
  }

  ghost predicate SinglesRight(p: Processed, right: (Processed, int) -> bool, chats: set<int>) {
    forall r: Processed, x :: r == p.(chats := r.chats) && multiset(r.chats) == multiset(chats) && x in chats ==> right(r, x)
  }

  lemma KnownGroup(us: seq<Update>, ps: seq<Processed>, groups: map<int, seq<Update>>, c: int)
    requires Grouped(us, ChatsOf(ps), groups) && |us| == |ps| && c in groups
    requires groups.Keys == Addressed(ps)
    ensures Known(us, ps, Owners(ps), Right(ps), c, groups[c], MembersOf(ps, c))
  {
    var m := MembersOf(ps, c);
    if |m| == 1 {
      forall r: Processed, x
        | r == ps[m[0]].(chats := r.chats) && multiset(r.chats) == multiset(Singles(ps, ps[m[0]].id)) && x in Singles(ps, ps[m[0]].id)
        ensures Right(ps)(r, x)
      {
        RightSingles(ps, r, c, m[0]);
      }
    }
  }

  ghost predicate OnlyChatsChanged(us: seq<Update>, ps: seq<Processed>)
    reads us
  {
    && |us| == |ps|
    && forall i :: 0 <= i < |us| ==> us[i].Value() == ps[i].(chats := us[i].chats)
  }

  lemma CoversUpdate(right: (Processed, int) -> bool, covered: set<int>, deliver: seq<Update>, u: Update, more: set<int>)
    requires Covers(right, covered, Values(deliver))
    requires more != {} && more !! covered && multiset(u.chats) == multiset(more)
    requires forall c :: c in more ==> right(u.Value(), c)
    ensures Covers(right, covered + more, Values(deliver + [u]))
  {
    CoversAppend(right, covered, Values(deliver), u.Value(), more);
    ValuesAppend(deliver, u);
  }

  /** The branch of a chat with one update: the shared object takes the whole batch of its id. */
  method DeliverSingle(u: Update, chats: seq<int>, deliver: seq<Update>, ghost right: (Processed, int) -> bool,
                       ghost covered: set<int>, ghost more: set<int>)
    returns (next: seq<Update>)
    requires u !in deliver && Covers(right, covered, Values(deliver))
    requires more != {} && more !! covered && multiset(chats) == multiset(more)
    requires forall c :: c in more ==> right(u.Value().(chats := chats), c)
    modifies u`chats
    ensures u.chats == chats
    ensures forall d :: d in next ==> d in deliver || d == u
    ensures Covers(right, covered + more, Values(next))
  {
    ghost var out := Values(deliver);
    u.chats := chats;
    assert Values(deliver) == out;
    CoversUpdate(right, covered, deliver, u, more);
    next := deliver + [u];
  }

  /** The branch of a chat with several updates: a fresh record of its own. */
  method DeliverGroup(us: seq<Update>, ghost ps: seq<Processed>, upds: seq<Update>, ghost m: seq<nat>, c: int,
                      deliver: seq<Update>, ghost right: (Processed, int) -> bool, ghost covered: set<int>)
    returns (next: seq<Update>)
    requires OnlyChatsChanged(us, ps) && |upds| == |m| > 0
    requires forall k :: 0 <= k < |m| ==> m[k] < |us| && upds[k] == us[m[k]]
    requires right(GroupRecord(Pick(ps, m), c), c)
    requires c !in covered && Covers(right, covered, Values(deliver))
    ensures forall u :: u in us && u in next ==> u in deliver
    ensures Covers(right, covered + {c}, Values(next))
  {
    GroupRecordIgnoresChats(Values(upds), Pick(ps, m), c);
    var g := GroupUpdates(upds, c);
    CoversUpdate(right, covered, deliver, g, {c});
    next := deliver + [g];
  }

  /** Update objects already delivered have left the batch. */
  predicate Retired(us: seq<Update>, deliver: seq<Update>, ids: set<int>) {
    forall i :: 0 <= i < |us| ==> us[i] in deliver ==> us[i].id !in ids
  }

  predicate Kept(full: map<int, seq<int>>, batch: map<int, seq<int>>) {
    forall id :: id in batch ==> id in full && batch[id] == full[id]
  }

  lemma KeptStep(full: map<int, seq<int>>, batch: map<int, seq<int>>, id: int)
    requires Kept(full, batch)
    ensures Kept(full, batch - {id}) && (batch - {id}).Keys == batch.Keys - {id}
  {
  }

  /** State of the last loop after the chats in seen. */
  ghost predicate Progress(us: seq<Update>, ps: seq<Processed>, all: set<int>, owner: map<int, int>,
                           right: (Processed, int) -> bool, full: map<int, seq<int>>,
                           seen: set<int>, batch: map<int, seq<int>>, deliver: seq<Update>)
    reads us, deliver
  {
    && OnlyChatsChanged(us, ps)
    && Kept(full, batch)
    && Retired(us, deliver, batch.Keys)
    && (forall c :: c in owner && c in seen ==> owner[c] !in batch.Keys)
    && Covers(right, Done(all, owner, seen, batch.Keys), Values(deliver))
  }

  /** Body of the last loop. */
  method DeliverChat(us: seq<Update>, c: int, upds: seq<Update>, before: map<int, seq<int>>, delivered: seq<Update>,
                     ghost ps: seq<Processed>, ghost all: set<int>, ghost owner: map<int, int>,
                     ghost right: (Processed, int) -> bool, ghost full: map<int, seq<int>>, ghost seen: set<int>, ghost m: seq<nat>)
    returns (batch: map<int, seq<int>>, deliver: seq<Update>)
    requires DistinctObjects(us) && owner.Keys <= all && c in all && c !in seen
    requires Known(us, ps, owner, right, c, upds, m)
    requires Complete(owner, full)
    requires Progress(us, ps, all, owner, right, full, seen, before, delivered)
    modifies us
    ensures Progress(us, ps, all, owner, right, full, seen + {c}, batch, deliver)
  {
    batch, deliver := before, delivered;
    ghost var ids := batch.Keys;
    DoneSkip(all, owner, seen, ids, c);
    if |upds| == 1 {
      if upds[0].id in batch {
        var chats := batch[upds[0].id];
        DoneSingle(all, owner, seen, ids, c);
        deliver := DeliverSingle(upds[0], chats, deliver, right, Done(all, owner, seen, ids), OwnedBy(owner, owner[c]));
        KeptStep(full, batch, upds[0].id);
        batch := batch - {upds[0].id};
      }
    } else {
      deliver := DeliverGroup(us, ps, upds, m, c, deliver, right, Done(all, owner, seen, ids));
    }
  }

  /** Last loop of HandleUpdatesWindow. */
  method DeliverGroups(us: seq<Update>, groups: map<int, seq<Update>>, full: map<int, seq<int>>, ghost ps: seq<Processed>,
                       ghost owner: map<int, int>, ghost right: (Processed, int) -> bool, ghost idx: map<int, seq<nat>>)
    returns (deliver: seq<Update>)
    requires DistinctObjects(us)
    requires owner.Keys <= groups.Keys
    requires AllKnown(us, ps, owner, right, groups, idx)
    requires Complete(owner, full)
    requires Progress(us, ps, groups.Keys, owner, right, full, {}, full, [])
    modifies us
    ensures Covers(right, groups.Keys, Values(deliver))
  {
    deliver := [];
    var batch := full;
    var keys := groups.Keys;
    ghost var all, seen := groups.Keys, {};
    while keys != {}
      invariant forall c :: c in keys ==> c in all && c !in seen
      invariant forall c :: c in all ==> c in keys || c in seen
      invariant Progress(us, ps, all, owner, right, full, seen, batch, deliver)
      decreases |keys|
    {
      var c := AnyKey(keys);
      batch, deliver := DeliverChat(us, c, groups[c], batch, deliver, ps, all, owner, right, full, seen, idx[c]);
      keys, seen := keys - {c}, seen + {c};
    }
    DoneAtEnd(all, owner, seen, batch.Keys);
  }

  lemma KnownGroups(us: seq<Update>, ps: seq<Processed>, groups: map<int, seq<Update>>) returns (idx: map<int, seq<nat>>)
    requires Grouped(us, ChatsOf(ps), groups) && |us| == |ps| && groups.Keys == Addressed(ps)
    ensures AllKnown(us, ps, Owners(ps), Right(ps), groups, idx)
  {
    idx := map c | c in groups :: MembersOf(ps, c);
    forall c | c in groups {
      KnownGroup(us, ps, groups, c);
    }
  }

  /** HandleUpdatesWindow after the pool: the rows handed to the outbox. */
  method GroupWindow(us: seq<Update>) returns (rows: seq<Processed>)
    requires DistinctObjects(us)
    modifies us
    ensures Delivers(old(Values(us)), rows)
  {
    ghost var ps := Values(us);
    var groups := CollectGroups(us);
    GroupsFacts(us, ps, groups);
    var batch := BatchSingles(groups);
    DoneAtStart(Addressed(ps), Owners(ps), batch);
    ghost var idx := KnownGroups(us, ps, groups);
    assert Values([]) == [];
    var deliver := DeliverGroups(us, groups, batch, ps, Owners(ps), Right(ps), idx);
    rows := Values(deliver);
  }

  /** The rows deliver the updates that survive the filter. */
  ghost predicate DeliversWindow(updates: seq<RawUpdate>, prepare: RawUpdate -> Option<Processed>, rows: seq<Processed>) {
    exists ps: seq<Processed> :: multiset(ps) == Survivors(updates, prepare) && Delivers(ps, rows)
  }

  /** HandleUpdatesWindow: rows is what AddBatch receives (nothing at all when it is empty). */
  method HandleUpdatesWindow(updates: seq<RawUpdate>, prepare: RawUpdate -> Option<Processed>, workerCount: nat, ctx: Context)
    returns (blocked: bool, rows: seq<Processed>)
    ensures blocked <==> updates != [] && workerCount == 0 && ctx == Live
    ensures DeliversWindow(updates[..HandedOut(|updates|, workerCount, ctx)], prepare, rows)
    ensures blocked ==> rows == []
  {
    var us;
    blocked, us := ProcessUpdates(updates, prepare, workerCount, ctx);
    ghost var ps := Values(us);
    rows := [];
    if blocked {
      NothingDelivered(ps, updates[..0], prepare);
    } else {
      rows := GroupWindow(us);
      assert multiset(ps) == Survivors(updates[..HandedOut(|updates|, workerCount, ctx)], prepare) && Delivers(ps, rows);
    }
  }

  lemma NothingDelivered(ps: seq<Processed>, none: seq<RawUpdate>, prepare: RawUpdate -> Option<Processed>)
    requires none == [] && multiset(ps) == Survivors(none, prepare)
    ensures Delivers(ps, [])
  {
    assert ps == [];
  }

  // ---------- what a correct batch means ----------

  lemma {:induction false} HolderExists(out: seq<Processed>, c: int) returns (k: nat)
    requires c in AllChats(out)
    ensures k < |out| && c in out[k].chats
  {
    var n := |out| - 1;
    if c in out[n].chats {
      k := n;
    } else {
      assert c !in multiset(out[n].chats);
      k := HolderExists(out[..n], c);
    }
  }

  lemma {:induction false} HolderCount(out: seq<Processed>, c: int, k: nat)
    requires k < |out|
    ensures multiset(out[k].chats)[c] <= AllChats(out)[c]
    ensures forall j :: 0 <= j < |out| && j != k && c in out[j].chats ==>
      multiset(out[k].chats)[c] < AllChats(out)[c]
  {
    var n := |out| - 1;
    if k < n {
      HolderCount(out[..n], c, k);
    }
    forall j | 0 <= j < |out| && j != k && c in out[j].chats
      ensures multiset(out[k].chats)[c] < AllChats(out)[c]
    {
      assert c in multiset(out[j].chats);
      if k == n {
        HolderCount(out[..n], c, j);
      } else if j < n {
        assert out[..n][j] == out[j];
      }
    }
  }

  /** Every addressed chat is in exactly one delivered record, once; no other chat is in any. */
  lemma ExactlyOneRecord(ps: seq<Processed>, out: seq<Processed>, c: int) returns (k: nat)
    requires Delivers(ps, out) && c in Addressed(ps)
    ensures k < |out| && multiset(out[k].chats)[c] == 1
    ensures forall j :: 0 <= j < |out| && c in out[j].chats ==> j == k
    ensures forall j, x :: 0 <= j < |out| && x in out[j].chats ==> x in Addressed(ps)
  {
    assert AllChats(out)[c] == 1;
    k := HolderExists(out, c);
    HolderCount(out, c, k);
    assert c in multiset(out[k].chats);
    forall j, x | 0 <= j < |out| && x in out[j].chats
      ensures x in Addressed(ps)
    {
      HolderCount(out, x, j);
      assert x in multiset(out[j].chats);
    }
  }

  /** Update i is among the updates of every chat it lists, as often as it lists the chat, and the
      chat's group would outrank it. */
  lemma MemberOfGroup(ps: seq<Processed>, i: nat, c: int)
    requires i < |ps| && c in ps[i].chats
    ensures multiset(MembersOf(ps, c))[i] == multiset(ps[i].chats)[c] > 0
    ensures UpdatesOf(ps, c) != []
    ensures Weight(ps[i].priority) <= Weight(GroupRecord(UpdatesOf(ps, c), c).priority)
  {
    assert ChatsOf(ps)[i] == ps[i].chats;
    MembersCount(ChatsOf(ps), c, i);
    assert c in multiset(ps[i].chats);
    var m := MembersOf(ps, c);
    assert i in multiset(m);
    var p :| 0 <= p < |m| && m[p] == i;
    MaxPriorityIsMaximum(Priorities(UpdatesOf(ps, c)));
    assert Priorities(UpdatesOf(ps, c))[p] == ps[i].priority;
  }

  /** Update i lists chat x once and no other update lists it. */
  predicate Alone(ps: seq<Processed>, i: nat, x: int) {
    forall j: nat :: j < |ps| ==> multiset(ps[j].chats)[x] == if j == i then 1 else 0
  }

  /** ms are the updates that list chat c, in order, once for every time they list it; m are their positions. */
  ghost predicate MembersAt(ps: seq<Processed>, c: int, m: seq<nat>, ms: seq<Processed>) {
    && |ms| == |m|
    && (forall k :: 0 <= k < |m| ==> m[k] < |ps| && ms[k] == ps[m[k]])
    && Ascending(m)
    && (forall j: nat :: j < |ps| ==> multiset(m)[j] == multiset(ps[j].chats)[c])
  }

  ghost predicate GroupCarries(ps: seq<Processed>, r: Processed, i: nat, c: int, m: seq<nat>, ms: seq<Processed>) {
    MembersAt(ps, c, m, ms) && i in m && IsGroup(r, c, ms)
  }

  /** What the record of chat c says about update i of that chat: it is the update itself, addressed to all
      the chats that list it alone, or the chat's group record, which has a line for each of its updates. */
  ghost predicate Carries(ps: seq<Processed>, r: Processed, i: nat, c: int)
    requires i < |ps|
  {
    if Alone(ps, i, c) then
      r == ps[i].(chats := r.chats) && forall x :: multiset(r.chats)[x] == if Alone(ps, i, x) then 1 else 0
    else
      exists m, ms :: GroupCarries(ps, r, i, c, m, ms)
  }

  lemma AloneIff(ps: seq<Processed>, i: nat, c: int)
    requires i < |ps|
    ensures Alone(ps, i, c) <==> MembersOf(ps, c) == [i]
  {
    var m := MembersOf(ps, c);
    MembersAre(ps, c);
    if Alone(ps, i, c) {
      forall j | j in m
        ensures j == i
      {
        assert j in multiset(m) && j < |ps|;
      }
      OnlyThat(m, i);
    }
    if m == [i] {
      CountOfOne(m, i);
    }
  }

  lemma CountOfOne<T>(m: seq<T>, x: T)
    requires m == [x]
    ensures forall y :: multiset(m)[y] == if y == x then 1 else 0
  {
  }

  lemma {:induction false} AllSame<T>(m: seq<T>, x: T)
    requires forall k :: 0 <= k < |m| ==> m[k] == x
    ensures multiset(m)[x] == |m|
  {
    if m != [] {
      AllSame(m[..|m| - 1], x);
      assert m == m[..|m| - 1] + [m[|m| - 1]];
    }
  }

  lemma OnlyThat<T>(m: seq<T>, x: T)
    requires multiset(m)[x] == 1 && forall y :: y in m ==> y == x
    ensures m == [x]
  {
    assert forall k :: 0 <= k < |m| ==> m[k] in m;
    AllSame(m, x);
  }

  predicate Ascending(m: seq<nat>) {
    forall j, k :: 0 <= j < k < |m| ==> m[j] <= m[k]
  }

  lemma AscendingAppend(m: seq<nat>, n: nat, more: seq<nat>)
    requires Ascending(m) && (forall k :: 0 <= k < |m| ==> m[k] < n) && forall k :: 0 <= k < |more| ==> more[k] == n
    ensures Ascending(m + more)
  {
  }

  lemma {:induction false} MembersSorted(chats: seq<seq<int>>, c: int)
    ensures Ascending(Members(chats, c))
  {
    if chats != [] {
      var n := |chats| - 1;
      MembersSorted(chats[..n], c);
      AscendingAppend(Members(chats[..n], c), n, Repeat(n, multiset(chats[n])[c]));
    }
  }

  lemma SinglesAlone(ps: seq<Processed>, i: nat, x: int)
    requires DistinctIds(ps) && i < |ps|
    ensures x in Singles(ps, ps[i].id) <==> Alone(ps, i, x)
  {
    AloneIff(ps, i, x);
    MembersNonEmpty(ChatsOf(ps), x);
    if Alone(ps, i, x) {
      assert multiset(ps[i].chats)[x] == 1;
      assert x in multiset(ps[i].chats) && x in Addressed(ps);
    }
    if x in Singles(ps, ps[i].id) {
      var j := MembersOf(ps, x)[0];
      assert ps[j].id == ps[i].id && j == i;
      assert MembersOf(ps, x) == [i];
    }
  }

  lemma MembersAre(ps: seq<Processed>, c: int)
    ensures MembersAt(ps, c, MembersOf(ps, c), UpdatesOf(ps, c))
  {
    MembersSorted(ChatsOf(ps), c);
    forall j: nat | j < |ps|
      ensures multiset(MembersOf(ps, c))[j] == multiset(ps[j].chats)[c]
    {
      MembersCount(ChatsOf(ps), c, j);
    }
  }

  lemma GroupIsCarried(ps: seq<Processed>, i: nat, c: int)
    requires i < |ps| && c in ps[i].chats
    ensures UpdatesOf(ps, c) != [] && GroupCarries(ps, GroupRecord(UpdatesOf(ps, c), c), i, c, MembersOf(ps, c), UpdatesOf(ps, c))
  {
    MemberOfGroup(ps, i, c);
    assert i in multiset(MembersOf(ps, c));
    MembersAre(ps, c);
    GroupRecordExact(UpdatesOf(ps, c), c);
  }

  lemma RightCarries(ps: seq<Processed>, r: Processed, i: nat, c: int)
    requires DistinctIds(ps) && i < |ps| && c in ps[i].chats && Right(ps)(r, c)
    ensures Carries(ps, r, i, c)
  {
    var m := MembersOf(ps, c);
    AloneIff(ps, i, c);
    GroupIsCarried(ps, i, c);
    if |m| == 1 {
      assert m[0] == i;
      var j: nat :| CarriesSingle(ps, r, j) && ps[j].id == ps[m[0]].id;
      assert j == i;
      forall x
        ensures multiset(r.chats)[x] == if Alone(ps, i, x) then 1 else 0
      {
        SinglesAlone(ps, i, x);
      }
    } else {
      assert GroupCarries(ps, r, i, c, m, UpdatesOf(ps, c));
    }
  }

  /** Conservation: update i reaches its chat c in exactly one record, which is its own (addressed to
      all chats that have only this update) or the group record of c, which says it once for every time it
      lists c. */
  lemma WindowConservation(ps: seq<Processed>, out: seq<Processed>, i: nat, c: int) returns (k: nat)
    requires Delivers(ps, out) && DistinctIds(ps) && i < |ps| && c in ps[i].chats
    ensures k < |out| && multiset(out[k].chats)[c] == 1
    ensures forall j :: 0 <= j < |out| && c in out[j].chats ==> j == k
    ensures Carries(ps, out[k], i, c)
  {
    assert c in Addressed(ps);
    k := ExactlyOneRecord(ps, out, c);
    RightOfHolder(ps, out, k, c);
    RightCarries(ps, out[k], i, c);
  }

  lemma RightOfHolder(ps: seq<Processed>, out: seq<Processed>, k: nat, c: int)
    requires Delivers(ps, out) && k < |out| && multiset(out[k].chats)[c] > 0
    ensures Right(ps)(out[k], c)
  {
    assert c in multiset(out[k].chats);
  }

  // ---------- independence of the iteration order ----------

  /** A record with its chat list read as a multiset. */
  datatype Canon = Canon(id: int, link: string, description: string, chats: multiset<int>, priority: Priority)

  function Canonical(r: Processed): Canon {
    Canon(r.id, r.link, r.description, multiset(r.chats), r.priority)
  }

  function CanonicalAll(out: seq<Processed>): (cs: seq<Canon>)
    ensures |cs| == |out| && forall k :: 0 <= k < |out| ==> cs[k] == Canonical(out[k])
  {
    seq(|out|, k requires 0 <= k < |out| => Canonical(out[k]))
  }

  /** The record right for a chat is unique up to the order of its chats. */
  lemma RightUnique(ps: seq<Processed>, a: Processed, b: Processed, c: int)
    requires DistinctIds(ps) && Right(ps)(a, c) && Right(ps)(b, c)
    ensures Canonical(a) == Canonical(b)
  {
    if |MembersOf(ps, c)| == 1 {
      var id := ps[MembersOf(ps, c)[0]].id;
      var i: nat :| CarriesSingle(ps, a, i) && ps[i].id == id;
      var j: nat :| CarriesSingle(ps, b, j) && ps[j].id == id;
      assert i == j;
    }
  }

  /** Records of one batch are pairwise different, their chat sets being disjoint and non-empty. */
  lemma NoTwins(ps: seq<Processed>, out: seq<Processed>, j: nat, k: nat)
    requires Delivers(ps, out) && j < |out| && k < |out| && Canonical(out[j]) == Canonical(out[k])
    ensures j == k
  {
    var c := out[j].chats[0];
    assert c in multiset(out[j].chats);
    HolderCount(out, c, j);
    var _ := ExactlyOneRecord(ps, out, c);
  }

  lemma {:induction false} MultiplicityOne<T>(xs: seq<T>, k: nat)
    requires k < |xs| && forall j :: 0 <= j < |xs| && xs[j] == xs[k] ==> j == k
    ensures multiset(xs)[xs[k]] == 1
  {
    assert xs == xs[..k] + [xs[k]] + xs[k + 1..];
    assert xs[k] !in xs[..k] && xs[k] !in xs[k + 1..];
  }

  /** Every record of a batch is in every other batch for the same updates. */
  lemma SameRecord(ps: seq<Processed>, a: seq<Processed>, b: seq<Processed>, j: nat) returns (k: nat)
    requires DistinctIds(ps) && Delivers(ps, a) && Delivers(ps, b) && j < |a|
    ensures k < |b| && Canonical(a[j]) == Canonical(b[k])
  {
    var c := a[j].chats[0];
    assert c in multiset(a[j].chats);
    HolderCount(a, c, j);
    assert c in Addressed(ps);
    k := ExactlyOneRecord(ps, b, c);
    assert c in multiset(b[k].chats);
    RightUnique(ps, a[j], b[k], c);
  }

  lemma OnceInBoth(ps: seq<Processed>, a: seq<Processed>, b: seq<Processed>, r: Canon)
    requires DistinctIds(ps) && Delivers(ps, a) && Delivers(ps, b) && r in CanonicalAll(a)
    ensures multiset(CanonicalAll(a))[r] == multiset(CanonicalAll(b))[r] == 1
  {
    var j :| 0 <= j < |a| && CanonicalAll(a)[j] == r;
    var k := SameRecord(ps, a, b, j);
    OneEach(ps, a, j);
    OneEach(ps, b, k);
  }

  /** Whatever order the map loops take, the deliveries are the same up to reordering. */
  lemma OrderIndependence(ps: seq<Processed>, a: seq<Processed>, b: seq<Processed>)
    requires DistinctIds(ps) && Delivers(ps, a) && Delivers(ps, b)
    ensures multiset(CanonicalAll(a)) == multiset(CanonicalAll(b))
  {
    var x, y := CanonicalAll(a), CanonicalAll(b);
    forall r
      ensures multiset(x)[r] == multiset(y)[r]
    {
      if r in x {
        OnceInBoth(ps, a, b, r);
      } else if r in y {
        OnceInBoth(ps, b, a, r);
      }
    }
  }

  lemma OneEach(ps: seq<Processed>, out: seq<Processed>, k: nat)
    requires Delivers(ps, out) && k < |out|
    ensures multiset(CanonicalAll(out))[Canonical(out[k])] == 1
  {
    var x := CanonicalAll(out);
    forall j | 0 <= j < |x| && x[j] == x[k]
      ensures j == k
    {
      NoTwins(ps, out, j, k);
    }
    MultiplicityOne(x, k);
  }
}
