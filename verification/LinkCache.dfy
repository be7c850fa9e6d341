/** The cache-aside service over the subscription tables, one call at a time. */
module LinkCache {
  import opened Records
  import S = Subscriptions

  function FmtKey(client: int): string {
    "links:" + Itoa(client)
  }

  /** Clients never share a cache entry. */
  lemma FmtKeyInjective(a: int, b: int)
    requires FmtKey(a) == FmtKey(b)
    ensures a == b
  {
    assert FmtKey(a)[6..] == Itoa(a) && FmtKey(b)[6..] == Itoa(b);
    ItoaInjective(a, b);
  }

  /** What a list says apart from last_update. */
  datatype View = View(user: int, res: nat, link: string, tags: seq<string>)

  function Views(list: seq<S.Sub>): (v: seq<View>)
    ensures |v| == |list|
  {
    seq(|list|, i requires 0 <= i < |list| => ViewOf(list[i]))
  }

  type Entries = map<string, seq<S.Sub>>

  /** Every entry shows its client's current list, up to last_update. */
  ghost predicate Agrees(cache: Entries, t: S.Tables) {
    forall client {:trigger FmtKey(client)} :: FmtKey(client) in cache ==> AgreesFor(cache[FmtKey(client)], t, client)
  }

  predicate AgreesFor(list: seq<S.Sub>, t: S.Tables, client: int) {
    client in t.users && Views(list) == Views(S.LinksOf(t, client))
  }

  function Client(op: S.Op): int {
    op.client
  }

  // ---------- an operation only touches its client ----------

  lemma {:induction false} WithoutTwice(subs: seq<S.Sub>, drop: S.Sub -> bool, more: S.Sub -> bool)
    requires forall s :: drop(s) ==> more(s)
    ensures S.Without(S.Without(subs, drop), more) == S.Without(subs, more)
  {
    if subs != [] {
      var front, s := subs[..|subs| - 1], subs[|subs| - 1];
      WithoutTwice(front, drop, more);
      var kept := S.Without(front, drop);
      assert subs == front + [s] && (drop(s) ==> more(s));
      S.WithoutAppend(front, s, drop);
      S.WithoutAppend(front, s, more);
      if drop(s) {
        assert S.Without(subs, drop) == kept;
        assert S.Without(subs, more) == S.Without(front, more);
      } else {
        assert S.Without(subs, drop) == kept + [s];
        S.WithoutAppend(kept, s, more);
      }
    }
  }

  function ViewOf(s: S.Sub): View {
    View(s.user, s.res, s.link, s.tags)
  }

  lemma ViewsAppend(list: seq<S.Sub>, s: S.Sub)
    ensures Views(list + [s]) == Views(list) + [ViewOf(s)]
  {
  }

  /** Row by row the same user, and for the client's rows the same view. */
  predicate SameFor(a: seq<S.Sub>, b: seq<S.Sub>, client: int) {
    |a| == |b| && forall i :: 0 <= i < |a| ==> a[i].user == b[i].user && (a[i].user == client ==> ViewOf(a[i]) == ViewOf(b[i]))
  }

  lemma {:induction false} SameViews(a: seq<S.Sub>, b: seq<S.Sub>, client: int)
    requires SameFor(a, b, client)
    ensures Views(S.Without(a, S.OthersOf(client))) == Views(S.Without(b, S.OthersOf(client)))
  {
    if a != [] {
      var n := |a| - 1;
      SameViews(a[..n], b[..n], client);
      if a[n].user == client {
        ViewsAppend(S.Without(a[..n], S.OthersOf(client)), a[n]);
        ViewsAppend(S.Without(b[..n], S.OthersOf(client)), b[n]);
      } else {
        assert S.Without(a, S.OthersOf(client)) == S.Without(a[..n], S.OthersOf(client));
        assert S.Without(b, S.OthersOf(client)) == S.Without(b[..n], S.OthersOf(client));
      }
    }
  }

  predicate SameList(t: S.Tables, n: S.Tables, client: int) {
    (client in n.users <==> client in t.users) && Views(S.LinksOf(n, client)) == Views(S.LinksOf(t, client))
  }

  lemma OthersAfterSubscribe(canon: S.Canon, t: S.Tables, text: string, client: int, tags: seq<string>, other: int)
    requires other != client
    ensures SameList(t, S.Subscribed(canon, t, text, client, tags).0, other)
  {
    var n := S.Subscribed(canon, t, text, client, tags).0;
    if |n.subs| == |t.subs| + 1 {
      S.WithoutAppend(t.subs, n.subs[|t.subs|], S.OthersOf(other));
    }
  }

  lemma OthersAfterUnsubscribe(canon: S.Canon, t: S.Tables, client: int, text: string, other: int)
    requires other != client
    ensures SameList(t, S.Unsubscribed(canon, t, client, text).0, other)
  {
    match S.LinkByName(canon, t.links, text)
    case None =>
    case Some(res) => WithoutTwice(t.subs, S.RowOf(client, res, text), S.OthersOf(other));
  }

  lemma OthersAfterRetag(canon: S.Canon, t: S.Tables, client: int, text: string, retag: seq<string> -> seq<string>, other: int)
    requires other != client
    ensures SameList(t, S.TagsSet(canon, t, client, text, retag).0, other)
  {
    var n := S.TagsSet(canon, t, client, text, retag).0;
    assert SameFor(n.subs, t.subs, other);
    SameViews(n.subs, t.subs, other);
  }

  /** The list of another client stays as it was. */
  lemma OtherClients(canon: S.Canon, t: S.Tables, op: S.Op, other: int)
    requires other != Client(op)
    ensures SameList(t, S.Apply(canon, t, op).0, other)
  {
    match op
    case Subscribe(text, client, tags) => OthersAfterSubscribe(canon, t, text, client, tags, other);
    case UnSubscribe(client, text) => OthersAfterUnsubscribe(canon, t, client, text, other);
    case RemoveClient(client) => WithoutTwice(t.subs, S.RowsOf(client), S.OthersOf(other));
    case AddTags(client, text, tags) => OthersAfterRetag(canon, t, client, text, S.Adding(tags), other);
    case ClearTags(client, text) => OthersAfterRetag(canon, t, client, text, S.Clearing(), other);
    case AddClient(client) =>
  }

  /** A failing operation leaves the cache alone; after a successful one the entry is deleted, which for
      AddClient is not needed, for a new client has no entry. */
  lemma OpKeepsAgreement(canon: S.Canon, t: S.Tables, op: S.Op, cache: Entries)
    requires S.Inv(t) && Agrees(cache, t)
    ensures S.Apply(canon, t, op).1.Ok? ==> Agrees(cache - {FmtKey(Client(op))}, S.Apply(canon, t, op).0)
    ensures op.AddClient? || !S.Apply(canon, t, op).1.Ok? ==> Agrees(cache, S.Apply(canon, t, op).0)
  {
    S.OpKeeps(canon, t, op);
    var n := S.Apply(canon, t, op).0;
    forall client | client != Client(op) && FmtKey(client) in cache
      ensures AgreesFor(cache[FmtKey(client)], n, client)
    {
      OtherClients(canon, t, op, client);
    }
  }

  /** A crawl changes nothing but last_update. */
  predicate OnlyLast(a: seq<S.Sub>, b: seq<S.Sub>) {
    |a| == |b| && forall i :: 0 <= i < |a| ==> b[i] == a[i].(last := b[i].last)
  }

  /** So crawls, which do not invalidate, keep the agreement too. */
  lemma CrawlKeepsAgreement(cache: Entries, t: S.Tables, subs: seq<S.Sub>)
    requires Agrees(cache, t) && OnlyLast(t.subs, subs)
    ensures Agrees(cache, t.(subs := subs))
  {
    var n := t.(subs := subs);
    forall client | FmtKey(client) in cache
      ensures AgreesFor(cache[FmtKey(client)], n, client)
    {
      SameViews(t.subs, subs, client);
    }
  }

  // ---------- the service ----------

  lemma SameRows(rows: seq<S.Sub>, list: seq<S.Sub>)
    requires Views(list) == Views(rows)
    ensures OnlyLast(rows, list)
  {
    forall i | 0 <= i < |rows|
      ensures list[i] == rows[i].(last := list[i].last)
    {
      assert Views(list)[i] == Views(rows)[i];
    }
  }

  class CachedService {
    const service: S.Service
    var cache: Entries

    constructor (service: S.Service)
      ensures this.service == service && cache == map[]
    {
      this.service := service;
      cache := map[];
    }

    ghost predicate Valid()
      reads this, service
    {
      S.Inv(service.Data()) && Agrees(cache, service.Data())
    }

    /** GetLinks; readable and writable tell whether the cache answers. A hit skips the database. */
    method GetLinks(client: int, readable: bool, writable: bool) returns (o: S.Outcome, list: seq<S.Sub>)
      modifies this`cache
      ensures old(Valid()) ==> Valid()
      ensures old(Valid()) ==> (o.Ok? <==> client in service.users)
      ensures old(Valid()) && o.Ok? ==> Views(list) == Views(S.LinksOf(service.Data(), client))
      ensures old(Valid()) && o.Ok? ==> exists rows :: S.ListOf(service.subs, client, rows) && OnlyLast(rows, list)
      ensures cache == if (readable && FmtKey(client) in old(cache)) || client !in service.users || !writable then old(cache)
                       else old(cache)[FmtKey(client) := S.LinksOf(service.Data(), client)]
    {
      var key := FmtKey(client);
      S.LinksExact(service.Data(), client);
      if readable && key in cache {
        if Valid() {
          SameRows(S.LinksOf(service.Data(), client), cache[key]);
        }
        return S.Ok, cache[key];
      }
      o, list := service.GetLinks(client);
      if o.Ok? && writable {
        Refill(cache, service.Data(), client, list);
        cache := cache[key := list];
      }
    }

    method Invalidate(client: int)
      modifies this`cache
      ensures cache == old(cache) - {FmtKey(client)}
    {
      cache := cache - {FmtKey(client)};
    }

    method Subscribe(text: string, client: int, tags: seq<string>, commits: bool) returns (o: S.Outcome)
      modifies this`cache, service
      ensures (service.Data(), o) == S.Settled(old(service.Data()), S.Subscribed(service.canon, old(service.Data()), text, client, tags), commits)
      ensures old(Valid()) ==> Valid()
    {
      ghost var before := service.Data();
      o := service.Subscribe(text, client, tags, commits);
      if o.Ok? {
        Invalidate(client);
      }
      Kept(service.canon, before, S.Subscribe(text, client, tags), commits, old(cache), service.Data(), o, cache);
    }

    method UnSubscribe(client: int, text: string, commits: bool) returns (o: S.Outcome)
      modifies this`cache, service
      ensures (service.Data(), o) == S.Settled(old(service.Data()), S.Unsubscribed(service.canon, old(service.Data()), client, text), commits)
      ensures old(Valid()) ==> Valid()
    {
      ghost var before := service.Data();
      o := service.UnSubscribe(client, text, commits);
      if o.Ok? {
        Invalidate(client);
      }
      Kept(service.canon, before, S.UnSubscribe(client, text), commits, old(cache), service.Data(), o, cache);
    }

    method AddClient(client: int, commits: bool) returns (o: S.Outcome)
      modifies service
      ensures (service.Data(), o) == S.Settled(old(service.Data()), S.ClientAdded(old(service.Data()), client), commits)
      ensures old(Valid()) ==> Valid()
    {
      ghost var before := service.Data();
      o := service.AddClient(client, commits);
      Kept(service.canon, before, S.AddClient(client), commits, cache, service.Data(), o, cache);
    }

    method RemoveClient(client: int, commits: bool) returns (o: S.Outcome)
      modifies this`cache, service
      ensures (service.Data(), o) == S.Settled(old(service.Data()), S.ClientRemoved(old(service.Data()), client), commits)
      ensures old(Valid()) ==> Valid()
    {
      ghost var before := service.Data();
      o := service.RemoveClient(client, commits);
      if o.Ok? {
        Invalidate(client);
      }
      Kept(service.canon, before, S.RemoveClient(client), commits, old(cache), service.Data(), o, cache);
    }

    method AddTags(client: int, text: string, tags: seq<string>, commits: bool) returns (o: S.Outcome)
      modifies this`cache, service
      ensures (service.Data(), o) == S.Settled(old(service.Data()), S.TagsAdded(service.canon, old(service.Data()), client, text, tags), commits)
      ensures old(Valid()) ==> Valid()
    {
      ghost var before := service.Data();
      o := service.AddTags(client, text, tags, commits);
      if o.Ok? {
        Invalidate(client);
      }
      Kept(service.canon, before, S.AddTags(client, text, tags), commits, old(cache), service.Data(), o, cache);
    }

    method ClearTags(client: int, text: string, commits: bool) returns (o: S.Outcome)
      modifies this`cache, service
      ensures (service.Data(), o) == S.Settled(old(service.Data()), S.TagsCleared(service.canon, old(service.Data()), client, text), commits)
      ensures old(Valid()) ==> Valid()
    {
      ghost var before := service.Data();
      o := service.ClearTags(client, text, commits);
      if o.Ok? {
        Invalidate(client);
      }
      Kept(service.canon, before, S.ClearTags(client, text), commits, old(cache), service.Data(), o, cache);
    }
  }

  lemma Refill(cache: Entries, t: S.Tables, client: int, list: seq<S.Sub>)
    requires client in t.users && list == S.LinksOf(t, client)
    ensures Agrees(cache, t) ==> Agrees(cache[FmtKey(client) := list], t)
  {
    forall c | FmtKey(c) == FmtKey(client)
      ensures c == client
    {
      FmtKeyInjective(c, client);
    }
  }

  /** An operation, its transaction settled, leaves the constraints and the agreement as they were. */
  lemma Kept(canon: S.Canon, t: S.Tables, op: S.Op, commits: bool, cache: Entries, n: S.Tables, o: S.Outcome, kept: Entries)
    requires (n, o) == S.Settled(t, S.Apply(canon, t, op), commits)
    requires kept == if o.Ok? && !op.AddClient? then cache - {FmtKey(Client(op))} else cache
    ensures S.Inv(t) && Agrees(cache, t) ==> S.Inv(n) && Agrees(kept, n)
  {
    if S.Inv(t) && Agrees(cache, t) {
      S.OpKeeps(canon, t, op);
      OpKeepsAgreement(canon, t, op, cache);
    }
  }
}
