/** The scrapper's subscription service over its three tables. Texts are made canonical by a given function
    (None where NewTrackedLink fails). */
module Subscriptions {
  import opened Records
  import opened Selection
  import LinkText

  /** A links row; its link_id is its position, for the service never deletes links. */
  datatype Link = Link(path: string, source: LinkText.Source)

  datatype Sub = Sub(user: int, res: nat, link: string, tags: seq<string>, last: int)

  datatype Tables = Tables(users: set<int>, links: seq<Link>, subs: seq<Sub>)

  type Canon = string -> Option<Link>

  datatype Outcome = Ok | NotFound | LinkNotFound | AlreadyTracked | AlreadyExists | ChatNotFound | BadRequest | InvalidLink | DbError

  // ---------- queries ----------

  function FindPath(links: seq<Link>, path: string): (r: Option<nat>)
    ensures r.Some? ==> r.value < |links| && links[r.value].path == path
    ensures r.None? <==> forall i :: 0 <= i < |links| ==> links[i].path != path
  {
    if links == [] then None
    else
      var r := FindPath(links[..|links| - 1], path);
      if r.Some? then r else if links[|links| - 1].path == path then Some(|links| - 1) else None
  }

  /** The name GetLinkByName looks up: the canonical path, or the text itself when it has none. */
  function Normalized(canon: Canon, text: string): string {
    if canon(text).Some? then canon(text).value.path else text
  }

  function LinkByName(canon: Canon, links: seq<Link>, text: string): Option<nat> {
    FindPath(links, Normalized(canon, text))
  }

  predicate Tracks(subs: seq<Sub>, user: int, res: nat) {
    exists i :: 0 <= i < |subs| && subs[i].user == user && subs[i].res == res
  }

  predicate HasSubs(subs: seq<Sub>, user: int) {
    exists i :: 0 <= i < |subs| && subs[i].user == user
  }

  /** DELETE of the rows that satisfy drop. */
  function Without(subs: seq<Sub>, drop: Sub -> bool): (r: seq<Sub>)
    ensures |r| <= |subs|
    ensures |r| == |subs| <==> forall i :: 0 <= i < |subs| ==> !drop(subs[i])
  {
    if subs == [] then []
    else Without(subs[..|subs| - 1], drop) + if drop(subs[|subs| - 1]) then [] else [subs[|subs| - 1]]
  }

  function RowOf(user: int, res: nat, text: string): Sub -> bool {
    (s: Sub) => s.user == user && s.res == res && s.link == text
  }

  function RowsOf(user: int): Sub -> bool {
    (s: Sub) => s.user == user
  }

  /** Rows of any other user. */
  function OthersOf(user: int): Sub -> bool {
    (s: Sub) => s.user != user
  }

  /** array_agg(DISTINCT ...) of both lists, in order of first appearance. */
  function Union(old_: seq<string>, more: seq<string>): (r: seq<string>)
    ensures forall i, j :: 0 <= i < j < |r| ==> r[i] != r[j]
    ensures forall t :: t in r <==> t in old_ || t in more
    decreases |more|, |old_|
  {
    if more != [] then
      var r := Union(old_, more[..|more| - 1]);
      assert more == more[..|more| - 1] + [more[|more| - 1]];
      if more[|more| - 1] in r then r else r + [more[|more| - 1]]
    else if old_ != [] then
      var r := Union(old_[..|old_| - 1], []);
      assert old_ == old_[..|old_| - 1] + [old_[|old_| - 1]];
      if old_[|old_| - 1] in r then r else r + [old_[|old_| - 1]]
    else []
  }

  /** UPDATE of the tags of the rows of (user, res). */
  function Retagged(subs: seq<Sub>, user: int, res: nat, retag: seq<string> -> seq<string>): (r: seq<Sub>)
    ensures |r| == |subs|
  {
    seq(|subs|, i requires 0 <= i < |subs| =>
      if subs[i].user == user && subs[i].res == res then subs[i].(tags := retag(subs[i].tags)) else subs[i])
  }

  function Adding(tags: seq<string>): seq<string> -> seq<string> {
    (before: seq<string>) => Union(before, tags)
  }

  function Clearing(): seq<string> -> seq<string> {
    (before: seq<string>) => []
  }

  // ---------- the operations ----------

  function Subscribed(canon: Canon, t: Tables, text: string, client: int, tags: seq<string>): (Tables, Outcome) {
    if client !in t.users then (t, NotFound)
    else
      var found := LinkByName(canon, t.links, text);
      if found.None? && canon(text).None? then (t, InvalidLink)
      else
        var links := if found.Some? then t.links else t.links + [canon(text).value];
        var res := if found.Some? then found.value else |t.links|;
        if Tracks(t.subs, client, res) then (t, AlreadyTracked)
        else (Tables(t.users, links, t.subs + [Sub(client, res, text, tags, 0)]), Ok)
  }

  function Unsubscribed(canon: Canon, t: Tables, client: int, text: string): (Tables, Outcome) {
    if client !in t.users then (t, NotFound)
    else
      match LinkByName(canon, t.links, text)
      case None => (t, LinkNotFound)
      case Some(res) =>
        var rest := Without(t.subs, RowOf(client, res, text));
        if |rest| == |t.subs| then (t, LinkNotFound) else (t.(subs := rest), Ok)
  }

  function ClientAdded(t: Tables, client: int): (Tables, Outcome) {
    if client in t.users then (t, AlreadyExists) else (t.(users := t.users + {client}), Ok)
  }

  /** Deleting no subscription row is an error, so a client without subscriptions stays. */
  function ClientRemoved(t: Tables, client: int): (Tables, Outcome) {
    if client !in t.users then (t, NotFound)
    else
      var rest := Without(t.subs, RowsOf(client));
      if |rest| == |t.subs| then (t, NotFound) else (Tables(t.users - {client}, t.links, rest), Ok)
  }

  function TagsSet(canon: Canon, t: Tables, client: int, text: string, retag: seq<string> -> seq<string>): (Tables, Outcome) {
    if client !in t.users then (t, NotFound)
    else
      match LinkByName(canon, t.links, text)
      case None => (t, LinkNotFound)
      case Some(res) =>
        if !Tracks(t.subs, client, res) then (t, LinkNotFound)
        else (t.(subs := Retagged(t.subs, client, res, retag)), Ok)
  }

  function TagsAdded(canon: Canon, t: Tables, client: int, text: string, tags: seq<string>): (Tables, Outcome) {
    if tags == [] then (t, BadRequest) else TagsSet(canon, t, client, text, Adding(tags))
  }

  function TagsCleared(canon: Canon, t: Tables, client: int, text: string): (Tables, Outcome) {
    TagsSet(canon, t, client, text, Clearing())
  }

  function LinksOf(t: Tables, client: int): seq<Sub> {
    Without(t.subs, OthersOf(client))
  }

  /** The transaction around an operation: commits tells whether the database goes along with it. */
  function Settled(before: Tables, result: (Tables, Outcome), commits: bool): (Tables, Outcome) {
    if result.1.Ok? && !commits then (before, DbError) else result
  }

  // ---------- the service, statement by statement ----------

  /** The three repositories share one database; a transaction is a snapshot that an error restores. */
  class Service {
    const canon: Canon
    var users: set<int>
    var links: seq<Link>
    var subs: seq<Sub>

    constructor (canon: Canon)
      ensures Data() == Tables({}, [], []) && this.canon == canon
    {
      this.canon := canon;
      users, links, subs := {}, [], [];
    }

    function Data(): Tables
      reads this
    {
      Tables(users, links, subs)
    }

    /** Rollback. */
    method Restore(t: Tables)
      modifies this
      ensures Data() == t
    {
      users, links, subs := t.users, t.links, t.subs;
    }

    method EnsureClientExists(client: int) returns (o: Outcome)
      ensures o == if client in users then Ok else NotFound
    {
      o := if client in users then Ok else NotFound;
    }

    method AddSubscription(s: Sub) returns (o: Outcome)
      modifies this`subs
      ensures o == if Tracks(old(subs), s.user, s.res) then AlreadyExists else Ok
      ensures subs == if o.Ok? then old(subs) + [s] else old(subs)
    {
      if Tracks(subs, s.user, s.res) {
        return AlreadyExists;
      }
      subs := subs + [s];
      o := Ok;
    }

    method RemoveSubscription(user: int, res: nat, text: string) returns (o: Outcome)
      modifies this`subs
      ensures subs == Without(old(subs), RowOf(user, res, text))
      ensures o == if |subs| == |old(subs)| then NotFound else Ok
    {
      var before := |subs|;
      subs := Without(subs, RowOf(user, res, text));
      o := if |subs| == before then NotFound else Ok;
    }

    method RemoveSubscriptionsByUser(user: int) returns (o: Outcome)
      modifies this`subs
      ensures subs == Without(old(subs), RowsOf(user))
      ensures o == if |subs| == |old(subs)| then NotFound else Ok
    {
      var before := |subs|;
      subs := Without(subs, RowsOf(user));
      o := if |subs| == before then NotFound else Ok;
    }

    method SubscribeTx(text: string, client: int, tags: seq<string>) returns (o: Outcome)
      modifies this
      ensures o == Subscribed(canon, old(Data()), text, client, tags).1
      ensures o.Ok? ==> Data() == Subscribed(canon, old(Data()), text, client, tags).0
    {
      o := EnsureClientExists(client);
      if !o.Ok? {
        return;
      }
      var found := LinkByName(canon, links, text);
      var res;
      if found.None? {
        var link := canon(text);
        if link.None? {
          return InvalidLink;
        }
        res := |links|;
        links := links + [link.value];
      } else {
        res := found.value;
      }
      o := AddSubscription(Sub(client, res, text, tags, 0));
      if o.AlreadyExists? {
        return AlreadyTracked;
      }
    }

    method Subscribe(text: string, client: int, tags: seq<string>, commits: bool) returns (o: Outcome)
      modifies this
      ensures (Data(), o) == Settled(old(Data()), Subscribed(canon, old(Data()), text, client, tags), commits)
      ensures (o.Ok? ==> commits) && (!o.Ok? ==> Data() == old(Data()))
    {
      var snapshot := Data();
      o := SubscribeTx(text, client, tags);
      if o.Ok? && !commits {
        o := DbError;
      }
      if !o.Ok? {
        Restore(snapshot);
        SubscribedOrNot(canon, snapshot, text, client, tags);
      }
    }

    method UnSubscribeTx(client: int, text: string) returns (o: Outcome)
      modifies this
      ensures o == Unsubscribed(canon, old(Data()), client, text).1
      ensures o.Ok? ==> Data() == Unsubscribed(canon, old(Data()), client, text).0
    {
      o := EnsureClientExists(client);
      if !o.Ok? {
        return;
      }
      var found := LinkByName(canon, links, text);
      if found.None? {
        return LinkNotFound;
      }
      o := RemoveSubscription(client, found.value, text);
      if o.NotFound? {
        return LinkNotFound;
      }
    }

    method UnSubscribe(client: int, text: string, commits: bool) returns (o: Outcome)
      modifies this
      ensures (Data(), o) == Settled(old(Data()), Unsubscribed(canon, old(Data()), client, text), commits)
      ensures (o.Ok? ==> commits) && (!o.Ok? ==> Data() == old(Data()))
    {
      var snapshot := Data();
      o := UnSubscribeTx(client, text);
      if o.Ok? && !commits {
        o := DbError;
      }
      if !o.Ok? {
        Restore(snapshot);
      }
    }

    method AddClient(client: int, commits: bool) returns (o: Outcome)
      modifies this
      ensures (Data(), o) == Settled(old(Data()), ClientAdded(old(Data()), client), commits)
      ensures (o.Ok? ==> commits) && (!o.Ok? ==> Data() == old(Data()))
    {
      if client in users {
        return AlreadyExists;
      }
      if !commits {
        return DbError;
      }
      users := users + {client};
      o := Ok;
    }

    method RemoveClientTx(client: int) returns (o: Outcome)
      modifies this
      ensures o == ClientRemoved(old(Data()), client).1
      ensures o.Ok? ==> Data() == ClientRemoved(old(Data()), client).0
    {
      o := EnsureClientExists(client);
      if !o.Ok? {
        return;
      }
      o := RemoveSubscriptionsByUser(client);
      if !o.Ok? {
        return;
      }
      if client !in users {
        return ChatNotFound;
      }
      users := users - {client};
    }

    method RemoveClient(client: int, commits: bool) returns (o: Outcome)
      modifies this
      ensures (Data(), o) == Settled(old(Data()), ClientRemoved(old(Data()), client), commits)
      ensures (o.Ok? ==> commits) && (!o.Ok? ==> Data() == old(Data()))
    {
      var snapshot := Data();
      o := RemoveClientTx(client);
      if o.Ok? && !commits {
        o := DbError;
      }
      if !o.Ok? {
        Restore(snapshot);
      }
    }

    method RetagTx(client: int, text: string, retag: seq<string> -> seq<string>) returns (o: Outcome)
      modifies this
      ensures (Data(), o) == TagsSet(canon, old(Data()), client, text, retag)
    {
      o := EnsureClientExists(client);
      if !o.Ok? {
        return;
      }
      var found := LinkByName(canon, links, text);
      if found.None? || !Tracks(subs, client, found.value) {
        return LinkNotFound;
      }
      subs := Retagged(subs, client, found.value, retag);
    }

    method AddTags(client: int, text: string, tags: seq<string>, commits: bool) returns (o: Outcome)
      modifies this
      ensures (Data(), o) == Settled(old(Data()), TagsAdded(canon, old(Data()), client, text, tags), commits)
      ensures (o.Ok? ==> commits) && (!o.Ok? ==> Data() == old(Data()))
    {
      if |tags| == 0 {
        return BadRequest;
      }
      var snapshot := Data();
      o := RetagTx(client, text, Adding(tags));
      if o.Ok? && !commits {
        o := DbError;
        Restore(snapshot);
      }
    }

    method ClearTags(client: int, text: string, commits: bool) returns (o: Outcome)
      modifies this
      ensures (Data(), o) == Settled(old(Data()), TagsCleared(canon, old(Data()), client, text), commits)
      ensures (o.Ok? ==> commits) && (!o.Ok? ==> Data() == old(Data()))
    {
      var snapshot := Data();
      o := RetagTx(client, text, Clearing());
      if o.Ok? && !commits {
        o := DbError;
        Restore(snapshot);
      }
    }

    method GetLinks(client: int) returns (o: Outcome, list: seq<Sub>)
      ensures o == if client in users then Ok else NotFound
      ensures list == if o.Ok? then LinksOf(Data(), client) else []
      ensures o.Ok? ==> ListOf(subs, client, list)
    {
      o := EnsureClientExists(client);
      list := [];
      if o.Ok? {
        list := Without(subs, OthersOf(client));
        LinksExact(Data(), client);
      }
    }
  }

  lemma SubscribedOrNot(canon: Canon, t: Tables, text: string, client: int, tags: seq<string>)
    ensures !Subscribed(canon, t, text, client, tags).1.Ok? ==> Subscribed(canon, t, text, client, tags).0 == t
  {
  }

  // ---------- which rows stay, which are listed ----------

  function Staying(subs: seq<Sub>, drop: Sub -> bool): nat -> bool {
    (i: nat) => i < |subs| && !drop(subs[i])
  }

  function BelongsTo(subs: seq<Sub>, client: int): nat -> bool {
    (i: nat) => i < |subs| && subs[i].user == client
  }

  /** The rows of the client, each once and in the order of the table. */
  ghost predicate ListOf(subs: seq<Sub>, client: int, list: seq<Sub>) {
    Selects(subs, BelongsTo(subs, client), list)
  }

  lemma StayingLast(subs: seq<Sub>, drop: Sub -> bool, n: nat)
    requires n + 1 == |subs|
    ensures forall i: nat :: i < n ==> (Staying(subs[..n], drop)(i) <==> Staying(subs, drop)(i))
    ensures Staying(subs, drop)(n) <==> !drop(subs[n])
  {
  }

  /** DELETE takes exactly the rows it names and keeps the others in their order. */
  lemma {:induction false} WithoutExact(subs: seq<Sub>, drop: Sub -> bool)
    ensures Selects(subs, Staying(subs, drop), Without(subs, drop))
  {
    if subs == [] {
      SelectsNone<Sub>(Staying(subs, drop));
    } else {
      var n := |subs| - 1;
      WithoutExact(subs[..n], drop);
      StayingLast(subs, drop, n);
      SelectsLast(subs, Staying(subs[..n], drop), Staying(subs, drop), Without(subs[..n], drop));
    }
  }

  /** GetLinks answers with exactly the client's rows. */
  lemma LinksExact(t: Tables, client: int)
    ensures ListOf(t.subs, client, LinksOf(t, client))
  {
    WithoutExact(t.subs, OthersOf(client));
    SelectsAgree(t.subs, Staying(t.subs, OthersOf(client)), BelongsTo(t.subs, client), LinksOf(t, client));
  }

  // ---------- table constraints ----------

  predicate ForeignKeys(t: Tables) {
    forall i :: 0 <= i < |t.subs| ==> t.subs[i].user in t.users && t.subs[i].res < |t.links|
  }

  predicate UniqueSubs(subs: seq<Sub>) {
    forall i, j :: 0 <= i < j < |subs| ==> subs[i].user != subs[j].user || subs[i].res != subs[j].res
  }

  predicate UniquePaths(links: seq<Link>) {
    forall i, j :: 0 <= i < j < |links| ==> links[i].path != links[j].path
  }

  predicate Inv(t: Tables) {
    ForeignKeys(t) && UniqueSubs(t.subs) && UniquePaths(t.links)
  }

  lemma {:induction false} WithoutHas(subs: seq<Sub>, drop: Sub -> bool, s: Sub)
    ensures s in Without(subs, drop) <==> s in subs && !drop(s)
  {
    if subs != [] {
      var n := |subs| - 1;
      WithoutHas(subs[..n], drop, s);
      assert subs == subs[..n] + [subs[n]];
    }
  }

  lemma WithoutAppend(subs: seq<Sub>, s: Sub, drop: Sub -> bool)
    ensures Without(subs + [s], drop) == Without(subs, drop) + if drop(s) then [] else [s]
  {
    assert (subs + [s])[..|subs|] == subs;
  }

  lemma {:induction false} WithoutUnique(subs: seq<Sub>, drop: Sub -> bool)
    requires UniqueSubs(subs)
    ensures UniqueSubs(Without(subs, drop))
  {
    if subs != [] {
      var n := |subs| - 1;
      var rest := Without(subs[..n], drop);
      WithoutUnique(subs[..n], drop);
      forall i | 0 <= i < |rest|
        ensures rest[i].user != subs[n].user || rest[i].res != subs[n].res
      {
        WithoutHas(subs[..n], drop, rest[i]);
        assert rest[i] in subs[..n];
        var j :| 0 <= j < n && subs[..n][j] == rest[i];
        assert subs[j] == rest[i];
      }
    }
  }

  lemma WithoutKeys(t: Tables, drop: Sub -> bool)
    requires Inv(t)
    ensures Inv(t.(subs := Without(t.subs, drop)))
  {
    WithoutUnique(t.subs, drop);
    var rest := Without(t.subs, drop);
    forall i | 0 <= i < |rest|
      ensures rest[i].user in t.users && rest[i].res < |t.links|
    {
      WithoutHas(t.subs, drop, rest[i]);
      assert rest[i] in rest;
      var j :| 0 <= j < |t.subs| && t.subs[j] == rest[i];
    }
  }

  lemma SubscribeKeeps(canon: Canon, t: Tables, text: string, client: int, tags: seq<string>)
    requires Inv(t)
    ensures Inv(Subscribed(canon, t, text, client, tags).0)
  {
  }

  lemma UnsubscribeKeeps(canon: Canon, t: Tables, client: int, text: string)
    requires Inv(t)
    ensures Inv(Unsubscribed(canon, t, client, text).0)
  {
    if LinkByName(canon, t.links, text).Some? {
      WithoutKeys(t, RowOf(client, LinkByName(canon, t.links, text).value, text));
    }
  }

  lemma RemoveClientKeeps(t: Tables, client: int)
    requires Inv(t)
    ensures Inv(ClientRemoved(t, client).0)
  {
    var rest := Without(t.subs, RowsOf(client));
    WithoutKeys(t, RowsOf(client));
    forall i | 0 <= i < |rest|
      ensures rest[i].user != client
    {
      WithoutHas(t.subs, RowsOf(client), rest[i]);
      assert rest[i] in rest;
    }
  }

  datatype Op =
    | Subscribe(text: string, client: int, tags: seq<string>)
    | UnSubscribe(client: int, text: string)
    | AddClient(client: int)
    | RemoveClient(client: int)
    | AddTags(client: int, text: string, tags: seq<string>)
    | ClearTags(client: int, text: string)

  function Apply(canon: Canon, t: Tables, op: Op): (Tables, Outcome) {
    match op
    case Subscribe(text, client, tags) => Subscribed(canon, t, text, client, tags)
    case UnSubscribe(client, text) => Unsubscribed(canon, t, client, text)
    case AddClient(client) => ClientAdded(t, client)
    case RemoveClient(client) => ClientRemoved(t, client)
    case AddTags(client, text, tags) => TagsAdded(canon, t, client, text, tags)
    case ClearTags(client, text) => TagsCleared(canon, t, client, text)
  }

  /** Every operation, failing or not, keeps the constraints; a failing one changes nothing. */
  lemma OpKeeps(canon: Canon, t: Tables, op: Op)
    requires Inv(t)
    ensures Inv(Apply(canon, t, op).0)
    ensures !Apply(canon, t, op).1.Ok? ==> Apply(canon, t, op).0 == t
  {
    match op
    case Subscribe(text, client, tags) => SubscribeKeeps(canon, t, text, client, tags);
    case UnSubscribe(client, text) => UnsubscribeKeeps(canon, t, client, text);
    case RemoveClient(client) => RemoveClientKeeps(t, client);
    case _ =>
  }

  /** Tables after a list of operations, some of which are rolled back for technical reasons. */
  function After(canon: Canon, ops: seq<Op>, commits: nat -> bool): Tables {
    if ops == [] then Tables({}, [], [])
    else
      var n := |ops| - 1;
      var t := After(canon, ops[..n], commits);
      Settled(t, Apply(canon, t, ops[n]), commits(n)).0
  }

  lemma {:induction false} AlwaysConsistent(canon: Canon, ops: seq<Op>, commits: nat -> bool)
    ensures Inv(After(canon, ops, commits))
  {
    if ops != [] {
      var n := |ops| - 1;
      AlwaysConsistent(canon, ops[..n], commits);
      OpKeeps(canon, After(canon, ops[..n], commits), ops[n]);
    }
  }

  // ---------- laws ----------

  lemma FindUnique(links: seq<Link>, i: nat)
    requires UniquePaths(links) && i < |links|
    ensures FindPath(links, links[i].path) == Some(i)
  {
    var r := FindPath(links, links[i].path);
    assert r.Some?;
  }

  /** Where a subscribed text leads afterwards: to the resource of the new row. */
  lemma SubscribedRow(canon: Canon, t: Tables, text: string, client: int, tags: seq<string>) returns (res: nat)
    requires Inv(t) && Subscribed(canon, t, text, client, tags).1.Ok?
    ensures var n := Subscribed(canon, t, text, client, tags).0;
      && n.subs == t.subs + [Sub(client, res, text, tags, 0)]
      && LinkByName(canon, n.links, text) == Some(res) && !Tracks(t.subs, client, res)
      && n.links[res].path == Normalized(canon, text)
  {
    var found := LinkByName(canon, t.links, text);
    var n := Subscribed(canon, t, text, client, tags).0;
    res := if found.Some? then found.value else |t.links|;
    SubscribeKeeps(canon, t, text, client, tags);
    assert n.links[res].path == Normalized(canon, text);
    FindUnique(n.links, res);
  }

  /** Some link has the path. */
  predicate Known(links: seq<Link>, path: string) {
    exists i :: 0 <= i < |links| && links[i].path == path
  }

  /** The client holds a subscription to the link with the path. */
  predicate Holds(t: Tables, client: int, path: string) {
    exists i :: 0 <= i < |t.subs| && t.subs[i].user == client && t.subs[i].res < |t.links| && t.links[t.subs[i].res].path == path
  }

  lemma TracksHolds(t: Tables, client: int, res: nat)
    requires Inv(t) && res < |t.links|
    ensures Tracks(t.subs, client, res) <==> Holds(t, client, t.links[res].path)
  {
    FindUnique(t.links, res);
    if Holds(t, client, t.links[res].path) {
      var i :| 0 <= i < |t.subs| && t.subs[i].user == client && t.subs[i].res < |t.links| && t.links[t.subs[i].res].path == t.links[res].path;
      FindUnique(t.links, t.subs[i].res);
    }
    if Tracks(t.subs, client, res) {
      var i :| 0 <= i < |t.subs| && t.subs[i].user == client && t.subs[i].res == res;
      assert t.links[t.subs[i].res].path == t.links[res].path;
    }
  }

  /** Subscribe in full: which refusal, and otherwise the one row and the link it leads to. path is the
      canonical path of the text, or the text when it has none. */
  lemma SubscribeExact(canon: Canon, t: Tables, text: string, client: int, tags: seq<string>, path: string)
    requires Inv(t) && path == if canon(text).Some? then canon(text).value.path else text
    ensures var o := Subscribed(canon, t, text, client, tags).1;
      && (o.NotFound? <==> client !in t.users)
      && (o.InvalidLink? <==> client in t.users && canon(text).None? && !Known(t.links, text))
      && (o.AlreadyTracked? <==> client in t.users && Holds(t, client, path))
      && (o.Ok? <==> client in t.users && (canon(text).Some? || Known(t.links, text)) && !Holds(t, client, path))
    ensures Subscribed(canon, t, text, client, tags).1.Ok? ==>
      var n := Subscribed(canon, t, text, client, tags).0;
      && n.users == t.users
      && n.links == (if Known(t.links, path) then t.links else t.links + [canon(text).value])
      && exists res: nat :: res < |n.links| && n.links[res].path == path && n.subs == t.subs + [Sub(client, res, text, tags, 0)]
  {
    var found := LinkByName(canon, t.links, text);
    assert found.Some? <==> Known(t.links, path);
    if found.Some? {
      TracksHolds(t, client, found.value);
    } else {
      NoHolder(t, client, path);
      NoTracker(t, client);
    }
    if Subscribed(canon, t, text, client, tags).1.Ok? {
      var res := SubscribedRow(canon, t, text, client, tags);
    }
  }

  lemma NoHolder(t: Tables, client: int, path: string)
    requires !Known(t.links, path)
    ensures !Holds(t, client, path)
  {
  }

  lemma NoTracker(t: Tables, client: int)
    requires Inv(t)
    ensures !Tracks(t.subs, client, |t.links|)
  {
  }

  /** A successful UnSubscribe deletes the client's row for the link under this very text, and nothing else. */
  lemma UnsubscribeExact(canon: Canon, t: Tables, client: int, text: string, s: Sub)
    requires Inv(t) && Unsubscribed(canon, t, client, text).1.Ok?
    ensures var n := Unsubscribed(canon, t, client, text).0;
      && n.users == t.users && n.links == t.links
      && (s in n.subs <==> s in t.subs && !(s.user == client && s.link == text && t.links[s.res].path == Normalized(canon, text)))
  {
    var res := LinkByName(canon, t.links, text).value;
    WithoutHas(t.subs, RowOf(client, res, text), s);
    if s in t.subs {
      var i :| 0 <= i < |t.subs| && t.subs[i] == s;
      FindUnique(t.links, s.res);
    }
  }

  lemma {:induction false} WithoutNothing(subs: seq<Sub>, drop: Sub -> bool)
    requires forall i :: 0 <= i < |subs| ==> !drop(subs[i])
    ensures Without(subs, drop) == subs
  {
    if subs != [] {
      WithoutNothing(subs[..|subs| - 1], drop);
    }
  }

  /** UnSubscribe with the same text undoes Subscribe on the subscription table. */
  lemma SubscribeUnsubscribe(canon: Canon, t: Tables, text: string, client: int, tags: seq<string>)
    requires Inv(t) && Subscribed(canon, t, text, client, tags).1.Ok?
    ensures var n := Subscribed(canon, t, text, client, tags).0; var u := Unsubscribed(canon, n, client, text);
      u.1.Ok? && u.0.subs == t.subs && u.0.users == t.users
  {
    var n := Subscribed(canon, t, text, client, tags).0;
    var res := SubscribedRow(canon, t, text, client, tags);
    var drop := RowOf(client, res, text);
    WithoutNothing(t.subs, drop);
    assert n.subs[..|n.subs| - 1] == t.subs;
    assert Without(n.subs, drop) == t.subs;
  }

  /** UnSubscribe succeeds exactly for a client that has the resource under this very text. */
  lemma UnsubscribeOkIff(canon: Canon, t: Tables, client: int, text: string)
    requires Inv(t)
    ensures Unsubscribed(canon, t, client, text).1.Ok? <==>
      && client in t.users
      && LinkByName(canon, t.links, text).Some?
      && exists i :: 0 <= i < |t.subs| && t.subs[i].user == client
                     && t.subs[i].res == LinkByName(canon, t.links, text).value && t.subs[i].link == text
  {
  }

  /** So a client that subscribed with one spelling cannot unsubscribe with another of the same link. */
  lemma OtherSpellingFails(canon: Canon, t: Tables, text: string, other: string, client: int, tags: seq<string>)
    requires Inv(t) && Subscribed(canon, t, text, client, tags).1.Ok?
    requires other != text && Normalized(canon, other) == Normalized(canon, text)
    ensures Unsubscribed(canon, Subscribed(canon, t, text, client, tags).0, client, other).1 == LinkNotFound
  {
    var n := Subscribed(canon, t, text, client, tags).0;
    var res := SubscribedRow(canon, t, text, client, tags);
    assert LinkByName(canon, n.links, other) == Some(res);
    forall i | 0 <= i < |n.subs|
      ensures !RowOf(client, res, other)(n.subs[i])
    {
      assert i < |t.subs| ==> n.subs[i] == t.subs[i];
    }
    WithoutNothing(n.subs, RowOf(client, res, other));
  }

  /** Two texts with one canonical path lead to one resource, and add at most one link. */
  lemma SharedResource(canon: Canon, t: Tables, a: string, b: string, c: int, d: int, tags: seq<string>)
    requires Inv(t) && c != d && Normalized(canon, a) == Normalized(canon, b)
    requires Subscribed(canon, t, a, c, tags).1.Ok? && Subscribed(canon, Subscribed(canon, t, a, c, tags).0, b, d, tags).1.Ok?
    ensures var n := Subscribed(canon, t, a, c, tags).0; var m := Subscribed(canon, n, b, d, tags).0;
      && |m.subs| == |t.subs| + 2 && m.subs[|t.subs|].res == m.subs[|t.subs| + 1].res
      && m.links == n.links && |m.links| <= |t.links| + 1
  {
    var n := Subscribed(canon, t, a, c, tags).0;
    var res := SubscribedRow(canon, t, a, c, tags);
    SubscribeKeeps(canon, t, a, c, tags);
    var same := SubscribedRow(canon, n, b, d, tags);
    assert LinkByName(canon, n.links, b) == Some(res);
  }

  /** A text without canonical form can be subscribed to exactly when it is already the path of a link. */
  lemma RawTextSubscribes(canon: Canon, t: Tables, text: string, client: int, tags: seq<string>)
    requires Inv(t) && canon(text).None?
    ensures Subscribed(canon, t, text, client, tags).1.Ok? <==>
      && client in t.users
      && exists res: nat :: res < |t.links| && t.links[res].path == text && !Tracks(t.subs, client, res)
  {
    forall res: nat | res < |t.links| && t.links[res].path == text
      ensures LinkByName(canon, t.links, text) == Some(res)
    {
      FindUnique(t.links, res);
    }
  }

  /** AddClient succeeds exactly for an unknown client, and adds it and nothing else. */
  lemma AddClientIff(t: Tables, client: int)
    ensures ClientAdded(t, client).1 == if client in t.users then AlreadyExists else Ok
    ensures ClientAdded(t, client).1.Ok? ==>
      var n := ClientAdded(t, client).0;
      n.links == t.links && n.subs == t.subs && forall c :: c in n.users <==> c in t.users || c == client
  {
  }

  /** RemoveClient succeeds exactly for a known client with a subscription, and then leaves no trace of it;
      other clients keep their rows. */
  lemma RemoveClientIff(t: Tables, client: int)
    requires Inv(t)
    ensures ClientRemoved(t, client).1.Ok? <==> client in t.users && HasSubs(t.subs, client)
    ensures ClientRemoved(t, client).1.Ok? ==>
      var n := ClientRemoved(t, client).0;
      && client !in n.users && !HasSubs(n.subs, client) && n.links == t.links
      && forall s: Sub :: s.user != client ==> (s in n.subs <==> s in t.subs)
  {
    var rest := Without(t.subs, RowsOf(client));
    forall s
      ensures s in rest <==> s in t.subs && s.user != client
    {
      WithoutHas(t.subs, RowsOf(client), s);
    }
    forall i | 0 <= i < |rest|
      ensures rest[i].user != client
    {
      assert rest[i] in rest;
    }
  }

  /** AddTags unites the tags of the one row it names and touches no other. */
  lemma AddTagsExact(canon: Canon, t: Tables, client: int, text: string, tags: seq<string>, i: nat)
    requires Inv(t) && TagsAdded(canon, t, client, text, tags).1.Ok? && i < |t.subs|
    ensures var n := TagsAdded(canon, t, client, text, tags).0; var res := LinkByName(canon, t.links, text);
      && |n.subs| == |t.subs| && res.Some?
      && if t.subs[i].user == client && t.subs[i].res == res.value then
           && n.subs[i] == t.subs[i].(tags := n.subs[i].tags)
           && (forall x :: x in n.subs[i].tags <==> x in t.subs[i].tags || x in tags)
           && (forall x, y :: 0 <= x < y < |n.subs[i].tags| ==> n.subs[i].tags[x] != n.subs[i].tags[y])
         else n.subs[i] == t.subs[i]
  {
  }

  /** Tags can be changed exactly on a tracked link of a known client, found under any of its spellings. */
  lemma TagsOkIff(canon: Canon, t: Tables, client: int, text: string, tags: seq<string>)
    requires Inv(t)
    ensures TagsCleared(canon, t, client, text).1.Ok? <==>
      client in t.users && exists i :: 0 <= i < |t.subs| && t.subs[i].user == client && t.links[t.subs[i].res].path == Normalized(canon, text)
    ensures TagsAdded(canon, t, client, text, tags).1.Ok? <==> tags != [] && TagsCleared(canon, t, client, text).1.Ok?
    ensures TagsAdded(canon, t, client, text, tags).1.BadRequest? <==> tags == []
  {
    var res := LinkByName(canon, t.links, text);
    forall i | 0 <= i < |t.subs| && t.links[t.subs[i].res].path == Normalized(canon, text)
      ensures res == Some(t.subs[i].res)
    {
      FindUnique(t.links, t.subs[i].res);
    }
    if res.Some? && Tracks(t.subs, client, res.value) {
      var i :| 0 <= i < |t.subs| && t.subs[i].user == client && t.subs[i].res == res.value;
      assert t.links[t.subs[i].res].path == Normalized(canon, text);
    }
  }

  lemma ClearTagsExact(canon: Canon, t: Tables, client: int, text: string, i: nat)
    requires Inv(t) && TagsCleared(canon, t, client, text).1.Ok? && i < |t.subs|
    ensures |TagsCleared(canon, t, client, text).0.subs| == |t.subs|
    ensures TagsCleared(canon, t, client, text).0.subs[i] ==
      if t.subs[i].user == client && t.links[t.subs[i].res].path == Normalized(canon, text) then t.subs[i].(tags := []) else t.subs[i]
  {
    var res := LinkByName(canon, t.links, text).value;
    FindUnique(t.links, t.subs[i].res);
  }
}
