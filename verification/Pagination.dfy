/** The crawl's walk over the links table: pages of at most n rows, continued by a cursor that compares
    created_at only. */
module Pagination {
  import opened Records
  import opened Selection

  /** A row of the links table; typed tells whether CreateTrackedLink accepts its resource type. */
  datatype Row = Row(id: int, created: int, typed: bool)

  /** The table in the order of the queries: created_at, then link_id. */
  predicate Sorted(rows: seq<Row>) {
    forall i, j :: 0 <= i < j < |rows| ==> rows[i].created <= rows[j].created && rows[i].id != rows[j].id
  }

  predicate AllTyped(rows: seq<Row>) {
    forall i :: 0 <= i < |rows| ==> rows[i].typed
  }

  // ---------- one page ----------

  /** The first row that the cursor lets through. */
  function Above(rows: seq<Row>, cursor: Option<int>): (k: nat)
    requires Sorted(rows)
    ensures k <= |rows|
    ensures forall i :: 0 <= i < |rows| ==> (i < k <==> cursor.Some? && rows[i].created <= cursor.value)
  {
    if cursor.None? || rows == [] then 0
    else if rows[|rows| - 1].created <= cursor.value then |rows|
    else Above(rows[..|rows| - 1], cursor)
  }

  /** The rows of a page query with LIMIT n. */
  function Query(rows: seq<Row>, n: nat, cursor: Option<int>): seq<Row>
    requires Sorted(rows)
  {
    var k := Above(rows, cursor);
    rows[k..Min(k + n, |rows|)]
  }

  function Typed(rows: seq<Row>): (ids: seq<int>)
    ensures |ids| <= |rows|
    ensures |ids| == |rows| <==> AllTyped(rows)
  {
    if rows == [] then []
    else Typed(rows[..|rows| - 1]) + if rows[|rows| - 1].typed then [rows[|rows| - 1].id] else []
  }

  function LastTyped(rows: seq<Row>): (c: Option<int>)
    ensures rows != [] && AllTyped(rows) ==> c == Some(rows[|rows| - 1].created)
    ensures c.None? <==> Typed(rows) == []
  {
    if rows == [] then None
    else if rows[|rows| - 1].typed then Some(rows[|rows| - 1].created)
    else LastTyped(rows[..|rows| - 1])
  }

  predicate PageFrom(rows: seq<Row>, n: nat, cursor: Option<int>, page: seq<Row>, k: nat) {
    && k <= |rows| && page == rows[k..Min(k + n, |rows|)]
    && forall i :: 0 <= i < |rows| ==> (i < k <==> cursor.Some? && rows[i].created <= cursor.value)
  }

  /** The rows behind the cursor, at most n of them. */
  ghost predicate IsPage(rows: seq<Row>, n: nat, cursor: Option<int>, page: seq<Row>) {
    exists k: nat :: PageFrom(rows, n, cursor, page, k)
  }

  /** Row i is the last well-typed one. */
  predicate LastAt(rows: seq<Row>, i: nat) {
    i < |rows| && rows[i].typed && forall j :: i < j < |rows| ==> !rows[j].typed
  }

  function TypedAt(rows: seq<Row>): nat -> bool {
    (i: nat) => i < |rows| && rows[i].typed
  }

  predicate IdsOf(rows: seq<Row>, ids: seq<int>) {
    |ids| == |rows| && forall k :: 0 <= k < |ids| ==> ids[k] == rows[k].id
  }

  /** The ids of the well-typed rows of the page, in order, and the created_at of the last of them. */
  ghost predicate Reads(page: seq<Row>, ids: seq<int>, last: Option<int>) {
    && (exists kept :: Selects(page, TypedAt(page), kept) && IdsOf(kept, ids))
    && (last.None? <==> forall i :: 0 <= i < |page| ==> !page[i].typed)
    && (last.Some? ==> exists i: nat :: LastAt(page, i) && page[i].created == last.value)
  }

  lemma TypedLast(rows: seq<Row>, n: nat)
    requires n + 1 == |rows|
    ensures forall i: nat :: i < n ==> (TypedAt(rows[..n])(i) <==> TypedAt(rows)(i))
    ensures TypedAt(rows)(n) <==> rows[n].typed
  {
  }

  lemma {:induction false} TypedExact(rows: seq<Row>) returns (kept: seq<Row>)
    ensures Selects(rows, TypedAt(rows), kept) && IdsOf(kept, Typed(rows))
  {
    if rows == [] {
      kept := [];
      SelectsNone<Row>(TypedAt(rows));
    } else {
      var n := |rows| - 1;
      var front := TypedExact(rows[..n]);
      TypedLast(rows, n);
      SelectsLast(rows, TypedAt(rows[..n]), TypedAt(rows), front);
      kept := front + if TypedAt(rows)(n) then [rows[n]] else [];
    }
  }

  lemma {:induction false} LastTypedAt(rows: seq<Row>) returns (i: nat)
    requires LastTyped(rows).Some?
    ensures LastAt(rows, i) && rows[i].created == LastTyped(rows).value
  {
    var n := |rows| - 1;
    if rows[n].typed {
      i := n;
    } else {
      i := LastTypedAt(rows[..n]);
      forall j | i < j < |rows|
        ensures !rows[j].typed
      {
        assert j < n ==> rows[j] == rows[..n][j];
      }
    }
  }

  lemma {:induction false} NoneTyped(rows: seq<Row>, i: nat)
    requires LastTyped(rows).None? && i < |rows|
    ensures !rows[i].typed
  {
    var n := |rows| - 1;
    if i < n {
      NoneTyped(rows[..n], i);
    }
  }

  lemma ReadsExact(page: seq<Row>)
    ensures Reads(page, Typed(page), LastTyped(page))
  {
    var kept := TypedExact(page);
    if LastTyped(page).Some? {
      var i := LastTypedAt(page);
    } else {
      forall i | 0 <= i < |page|
        ensures !page[i].typed
      {
        NoneTyped(page, i);
      }
    }
  }

  /** What GetLinksBatch reads of the page behind the cursor. */
  ghost predicate BatchIs(rows: seq<Row>, n: nat, cursor: Option<int>, ids: seq<int>, last: Option<int>) {
    exists page :: IsPage(rows, n, cursor, page) && Reads(page, ids, last)
  }

  lemma BatchExact(rows: seq<Row>, n: nat, cursor: Option<int>)
    requires Sorted(rows)
    ensures BatchIs(rows, n, cursor, Typed(Query(rows, n, cursor)), LastTyped(Query(rows, n, cursor)))
  {
    var page := Query(rows, n, cursor);
    ReadsExact(page);
    assert PageFrom(rows, n, cursor, page, Above(rows, cursor));
  }

  datatype Batch = InvalidLimit | Links(ids: seq<int>, last: Option<int>)

  /** GetLinksBatch: a row whose type is refused is skipped and does not move the cursor. */
  method GetLinksBatch(rows: seq<Row>, limit: int, cursor: Option<int>) returns (b: Batch)
    requires Sorted(rows)
    ensures limit < 0 <==> b.InvalidLimit?
    ensures limit >= 0 ==> b == Links(Typed(Query(rows, limit, cursor)), LastTyped(Query(rows, limit, cursor)))
    ensures limit >= 0 ==> BatchIs(rows, limit, cursor, b.ids, b.last)
  {
    if limit < 0 {
      return InvalidLimit;
    }
    var page := Query(rows, limit, cursor);
    var ids, last := [], None;
    for i := 0 to |page|
      invariant ids == Typed(page[..i]) && last == LastTyped(page[..i])
    {
      assert page[..i + 1][..i] == page[..i];
      if page[i].typed {
        ids := ids + [page[i].id];
        last := Some(page[i].created);
      }
    }
    assert page[..|page|] == page;
    b := Links(ids, last);
    BatchExact(rows, limit, cursor);
  }

  // ---------- the whole walk ----------

  /** The page that starts at row k is full and nothing in it is skipped: the walk goes on. */
  predicate Full(rows: seq<Row>, n: nat, k: nat) {
    n > 0 && k + n <= |rows| && AllTyped(rows[k..k + n])
  }

  /** The next row with a created_at different from that of row e. */
  function SkipTies(rows: seq<Row>, e: nat, j: nat): (k: nat)
    requires e < j <= |rows|
    ensures j <= k <= |rows|
    ensures forall i :: j <= i < k ==> rows[i].created == rows[e].created
    ensures k < |rows| ==> rows[k].created != rows[e].created
    decreases |rows| - j
  {
    if j < |rows| && rows[j].created == rows[e].created then SkipTies(rows, e, j + 1) else j
  }

  /** Where the page after a full page at k starts. */
  function NextPage(rows: seq<Row>, n: nat, k: nat): (m: nat)
    requires Full(rows, n, k)
    ensures k + n <= m <= |rows|
  {
    SkipTies(rows, k + n - 1, k + n)
  }

  /** First rows of the pages the walk reads from row k on. */
  function PageStarts(rows: seq<Row>, n: nat, k: nat): seq<nat>
    requires k <= |rows|
    decreases |rows| - k
  {
    if Full(rows, n, k) then [k] + PageStarts(rows, n, NextPage(rows, n, k)) else [k]
  }

  /** Ids of the links that the walk hands to processLinks. */
  function Visited(rows: seq<Row>, n: nat, k: nat): seq<int>
    requires k <= |rows|
    decreases |rows| - k
  {
    Typed(rows[k..Min(k + n, |rows|)]) + if Full(rows, n, k) then Visited(rows, n, NextPage(rows, n, k)) else []
  }

  lemma AboveIs(rows: seq<Row>, c: int, m: nat)
    requires Sorted(rows) && m <= |rows|
    requires forall i :: 0 <= i < |rows| ==> (i < m <==> rows[i].created <= c)
    ensures Above(rows, Some(c)) == m
  {
    var a := Above(rows, Some(c));
    assert m < |rows| ==> !(m < a);
    assert a < |rows| ==> !(a < m);
  }

  lemma CursorSkipsTies(rows: seq<Row>, n: nat, k: nat)
    requires Sorted(rows) && Full(rows, n, k)
    ensures Above(rows, Some(rows[k + n - 1].created)) == NextPage(rows, n, k)
  {
    var m, c := NextPage(rows, n, k), rows[k + n - 1].created;
    forall i | 0 <= i < |rows|
      ensures i < m <==> rows[i].created <= c
    {
      if m <= i {
        assert c <= rows[m].created && (m < i ==> rows[m].created <= rows[i].created);
      } else if i < k + n - 1 {
        assert rows[i].created <= c;
      }
    }
    AboveIs(rows, c, m);
  }

  /** A page continues the walk exactly when it comes back full, and then the cursor stands past its ties. */
  lemma PageOf(rows: seq<Row>, n: nat, ptr: Option<int>)
    requires Sorted(rows)
    ensures var k, page := Above(rows, ptr), Query(rows, n, ptr);
      && (Full(rows, n, k) <==> LastTyped(page).Some? && |Typed(page)| >= n)
      && (Full(rows, n, k) ==> Above(rows, LastTyped(page)) == NextPage(rows, n, k))
  {
    var k, page := Above(rows, ptr), Query(rows, n, ptr);
    if k + n <= |rows| {
      assert page == rows[k..k + n];
    }
    if Full(rows, n, k) {
      assert page[n - 1] == rows[k + n - 1];
      CursorSkipsTies(rows, n, k);
    }
  }

  /** The whole walk is what was handed out so far and what the cursor has left. */
  ghost predicate Walked(whole: seq<int>, rows: seq<Row>, n: nat, visited: seq<int>, ptr: Option<int>)
    requires Sorted(rows)
  {
    whole == visited + Visited(rows, n, Above(rows, ptr))
  }

  lemma WalkStep(whole: seq<int>, rows: seq<Row>, n: nat, visited: seq<int>, ptr: Option<int>)
    requires Sorted(rows) && Walked(whole, rows, n, visited, ptr)
    ensures var page := Query(rows, n, ptr); var ids, last := Typed(page), LastTyped(page);
      if last.None? || |ids| < n then whole == visited + ids
      else Walked(whole, rows, n, visited + ids, last) && Above(rows, ptr) < Above(rows, last)
  {
    PageOf(rows, n, ptr);
    var k, ids := Above(rows, ptr), Typed(Query(rows, n, ptr));
    if Full(rows, n, k) {
      Assoc(visited, ids, Visited(rows, n, NextPage(rows, n, k)));
    } else {
      assert ids + [] == ids;
    }
  }

  /** NotifySubscribers: pages are processed until one comes back short or empty. */
  method NotifySubscribers(rows: seq<Row>, batchSize: int) returns (ok: bool, visited: seq<int>)
    requires Sorted(rows)
    ensures ok <==> batchSize >= 0
    ensures visited == if batchSize < 0 then [] else Visited(rows, batchSize, 0)
  {
    visited := [];
    var ptr: Option<int> := None;
    ghost var whole := if batchSize < 0 then [] else Visited(rows, batchSize, 0);
    while true
      invariant batchSize < 0 ==> visited == []
      invariant batchSize >= 0 ==> Walked(whole, rows, batchSize, visited, ptr)
      decreases |rows| - Above(rows, ptr)
    {
      var b := GetLinksBatch(rows, batchSize, ptr);
      if b.InvalidLimit? {
        return false, visited;
      }
      WalkStep(whole, rows, batchSize, visited, ptr);
      visited := visited + b.ids;
      if b.last.None? || |b.ids| < batchSize {
        return true, visited;
      }
      ptr := b.last;
    }
  }

  // ---------- what the walk visits ----------

  lemma {:induction false} TypedHas(rows: seq<Row>, id: int)
    ensures id in Typed(rows) <==> exists i :: 0 <= i < |rows| && rows[i].typed && rows[i].id == id
  {
    if rows != [] {
      var n := |rows| - 1;
      TypedHas(rows[..n], id);
      if exists i :: 0 <= i < |rows| && rows[i].typed && rows[i].id == id {
        var i :| 0 <= i < |rows| && rows[i].typed && rows[i].id == id;
        assert i < n ==> rows[..n][i] == rows[i];
      }
      if id in Typed(rows[..n]) {
        var i :| 0 <= i < |rows[..n]| && rows[..n][i].typed && rows[..n][i].id == id;
        assert rows[i] == rows[..n][i];
      }
    }
  }

  /** Row i lies in the page that starts at k. */
  lemma PageHas(rows: seq<Row>, n: nat, k: nat, i: nat)
    requires Sorted(rows) && k <= |rows| && i < |rows|
    ensures rows[i].id in Typed(rows[k..Min(k + n, |rows|)]) <==> k <= i < k + n && rows[i].typed
  {
    var page := rows[k..Min(k + n, |rows|)];
    TypedHas(page, rows[i].id);
    if k <= i < k + n {
      assert page[i - k] == rows[i];
    }
    if rows[i].id in Typed(page) {
      var j :| 0 <= j < |page| && page[j].typed && page[j].id == rows[i].id;
      assert rows[k + j] == page[j];
    }
  }

  predicate Distinct<T(==)>(s: seq<T>) {
    forall i, j :: 0 <= i < j < |s| ==> s[i] != s[j]
  }

  lemma ConcatDistinct<T>(a: seq<T>, b: seq<T>)
    requires Distinct(a) && Distinct(b) && forall i :: 0 <= i < |a| ==> a[i] !in b
    ensures Distinct(a + b)
  {
  }

  lemma {:induction false} TypedDistinct(rows: seq<Row>)
    requires Sorted(rows)
    ensures Distinct(Typed(rows))
  {
    if rows != [] {
      var n := |rows| - 1;
      TypedDistinct(rows[..n]);
      TypedHas(rows[..n], rows[n].id);
    }
  }

  lemma {:induction false} VisitedFrom(rows: seq<Row>, n: nat, k: nat, i: nat)
    requires Sorted(rows) && k <= |rows| && i < k && i < |rows|
    ensures rows[i].id !in Visited(rows, n, k)
    decreases |rows| - k
  {
    PageHas(rows, n, k, i);
    if Full(rows, n, k) {
      VisitedFrom(rows, n, NextPage(rows, n, k), i);
    }
  }

  lemma TypedRow(page: seq<Row>, id: int) returns (j: nat)
    requires id in Typed(page)
    ensures j < |page| && page[j].id == id
  {
    TypedHas(page, id);
    j :| 0 <= j < |page| && page[j].typed && page[j].id == id;
  }

  lemma {:induction false} VisitedKnown(rows: seq<Row>, n: nat, k: nat, id: int) returns (i: nat)
    requires Sorted(rows) && k <= |rows| && id in Visited(rows, n, k)
    ensures i < |rows| && rows[i].id == id
    decreases |rows| - k
  {
    var page := rows[k..Min(k + n, |rows|)];
    if id in Typed(page) {
      var j := TypedRow(page, id);
      i := k + j;
    } else {
      i := VisitedKnown(rows, n, NextPage(rows, n, k), id);
    }
  }

  lemma PageNotAgain(rows: seq<Row>, n: nat, k: nat, m: nat, id: int)
    requires Sorted(rows) && k + n <= m <= |rows| && id in Typed(rows[k..k + n])
    ensures id !in Visited(rows, n, m)
  {
    var j := TypedRow(rows[k..k + n], id);
    VisitedFrom(rows, n, m, k + j);
  }

  /** No link is processed twice. */
  lemma {:induction false} NeverTwice(rows: seq<Row>, n: nat, k: nat)
    requires Sorted(rows) && k <= |rows|
    ensures Distinct(Visited(rows, n, k))
    decreases |rows| - k
  {
    TypedDistinct(rows[k..Min(k + n, |rows|)]);
    if Full(rows, n, k) {
      var page, m := Typed(rows[k..k + n]), NextPage(rows, n, k);
      NeverTwice(rows, n, m);
      forall x | 0 <= x < |page|
        ensures page[x] !in Visited(rows, n, m)
      {
        PageNotAgain(rows, n, k, m, page[x]);
      }
      ConcatDistinct(page, Visited(rows, n, m));
    }
  }

  /** Row i has the created_at of the last row of some full page, and lies past that page's limit. */
  predicate TiedPastLimit(rows: seq<Row>, n: nat, k: nat, i: nat)
    requires k <= |rows| && i < |rows|
  {
    exists p :: 0 <= p < |PageStarts(rows, n, k)| && TiedAfter(rows, n, PageStarts(rows, n, k)[p], i)
  }

  predicate TiedAfter(rows: seq<Row>, n: nat, k: nat, i: nat)
    requires i < |rows|
  {
    Full(rows, n, k) && k + n <= i && rows[i].created == rows[k + n - 1].created
  }

  lemma TiedStep(rows: seq<Row>, n: nat, k: nat, i: nat)
    requires k <= |rows| && i < |rows| && Full(rows, n, k)
    ensures TiedPastLimit(rows, n, k, i) <==> TiedAfter(rows, n, k, i) || TiedPastLimit(rows, n, NextPage(rows, n, k), i)
  {
    var starts, rest := PageStarts(rows, n, k), PageStarts(rows, n, NextPage(rows, n, k));
    if TiedAfter(rows, n, k, i) {
      assert TiedAfter(rows, n, starts[0], i);
    }
    if TiedPastLimit(rows, n, NextPage(rows, n, k), i) {
      var p :| 0 <= p < |rest| && TiedAfter(rows, n, rest[p], i);
      assert starts[p + 1] == rest[p];
    }
    if TiedPastLimit(rows, n, k, i) {
      var p :| 0 <= p < |starts| && TiedAfter(rows, n, starts[p], i);
      assert p > 0 ==> starts[p] == rest[p - 1];
    }
  }

  lemma {:induction false} NoPageBefore(rows: seq<Row>, n: nat, k: nat, i: nat)
    requires k <= |rows| && i < k && i < |rows|
    ensures !TiedPastLimit(rows, n, k, i)
    decreases |rows| - k
  {
    if Full(rows, n, k) {
      TiedStep(rows, n, k, i);
      NoPageBefore(rows, n, NextPage(rows, n, k), i);
    }
  }

  lemma LastPageMissesNone(rows: seq<Row>, n: nat, k: nat, i: nat)
    requires Sorted(rows) && AllTyped(rows) && n > 0 && k <= i < |rows| && !Full(rows, n, k)
    ensures rows[i].id in Visited(rows, n, k) && !TiedPastLimit(rows, n, k, i)
  {
    PageHas(rows, n, k, i);
    assert PageStarts(rows, n, k) == [k];
  }

  /** Rows of the page are visited; rows between it and the next page are the ties it misses. */
  lemma UpToNextPage(rows: seq<Row>, n: nat, k: nat, i: nat)
    requires Sorted(rows) && AllTyped(rows) && Full(rows, n, k) && k <= i < NextPage(rows, n, k) && i < |rows|
    ensures rows[i].id !in Visited(rows, n, k) <==> TiedPastLimit(rows, n, k, i)
  {
    PageHas(rows, n, k, i);
    TiedStep(rows, n, k, i);
    VisitedFrom(rows, n, NextPage(rows, n, k), i);
    NoPageBefore(rows, n, NextPage(rows, n, k), i);
  }

  /** In a table of well-typed rows the walk misses exactly the rows tied with a full page's last row. */
  lemma {:induction false} MissedExactly(rows: seq<Row>, n: nat, k: nat, i: nat)
    requires Sorted(rows) && AllTyped(rows) && n > 0 && k <= i < |rows|
    ensures rows[i].id !in Visited(rows, n, k) <==> TiedPastLimit(rows, n, k, i)
    decreases |rows| - k
  {
    if !Full(rows, n, k) {
      LastPageMissesNone(rows, n, k, i);
    } else if i < NextPage(rows, n, k) {
      UpToNextPage(rows, n, k, i);
    } else {
      MissedExactly(rows, n, NextPage(rows, n, k), i);
      PageHas(rows, n, k, i);
      TiedStep(rows, n, k, i);
      TiesEnd(rows, n, k, i);
    }
  }

  lemma TiesEnd(rows: seq<Row>, n: nat, k: nat, i: nat)
    requires Sorted(rows) && Full(rows, n, k) && NextPage(rows, n, k) <= i < |rows|
    ensures !TiedAfter(rows, n, k, i)
  {
    var m := NextPage(rows, n, k);
    assert rows[k + n - 1].created <= rows[m].created && (m < i ==> rows[m].created <= rows[i].created);
  }

  predicate NoTieAtLimit(rows: seq<Row>, n: nat, k: nat, p: nat)
    requires n > 0
  {
    p > 0 && k + p * n < |rows| ==> rows[k + p * n - 1].created != rows[k + p * n].created
  }

  ghost predicate NoTies(rows: seq<Row>, n: nat, k: nat)
    requires n > 0
  {
    forall p: nat :: NoTieAtLimit(rows, n, k, p)
  }

  predicate VisitsAll(rows: seq<Row>, n: nat, k: nat)
    requires k <= |rows|
  {
    forall i :: k <= i < |rows| ==> rows[i].id in Visited(rows, n, k)
  }

  /** Every link is visited exactly when no multiple of the page size falls between two rows with the same
      created_at; so always when these are distinct. */
  lemma {:induction false} VisitsAllIff(rows: seq<Row>, n: nat, k: nat)
    requires Sorted(rows) && AllTyped(rows) && n > 0 && k <= |rows|
    ensures VisitsAll(rows, n, k) <==> NoTies(rows, n, k)
    decreases |rows| - k
  {
    if !Full(rows, n, k) {
      LastPageVisitsAll(rows, n, k);
    } else if NextPage(rows, n, k) == k + n {
      VisitsAllIff(rows, n, k + n);
      ShiftIff(rows, n, k);
    } else {
      TieIsMissed(rows, n, k);
    }
  }

  lemma ShiftIff(rows: seq<Row>, n: nat, k: nat)
    requires Sorted(rows) && AllTyped(rows) && n > 0 && Full(rows, n, k) && NextPage(rows, n, k) == k + n
    requires VisitsAll(rows, n, k + n) <==> NoTies(rows, n, k + n)
    ensures VisitsAll(rows, n, k) <==> NoTies(rows, n, k)
  {
    ShiftPages(rows, n, k);
    ShiftVisits(rows, n, k);
  }

  lemma LastPageVisitsAll(rows: seq<Row>, n: nat, k: nat)
    requires Sorted(rows) && AllTyped(rows) && n > 0 && k <= |rows| && !Full(rows, n, k)
    ensures VisitsAll(rows, n, k) && NoTies(rows, n, k)
  {
    forall i | k <= i < |rows|
      ensures rows[i].id in Visited(rows, n, k)
    {
      PageHas(rows, n, k, i);
    }
    forall p: nat
      ensures NoTieAtLimit(rows, n, k, p)
    {
      AtLeast(p, n);
    }
  }

  lemma AtLeast(p: nat, n: nat)
    ensures p > 0 ==> p * n >= n
  {
  }

  lemma TieIsMissed(rows: seq<Row>, n: nat, k: nat)
    requires Sorted(rows) && AllTyped(rows) && n > 0 && k <= |rows| && Full(rows, n, k) && NextPage(rows, n, k) > k + n
    ensures !VisitsAll(rows, n, k) && !NoTies(rows, n, k)
  {
    assert rows[k + n].created == rows[k + n - 1].created;
    assert !NoTieAtLimit(rows, n, k, 1);
    TiedStep(rows, n, k, k + n);
    MissedExactly(rows, n, k, k + n);
  }

  lemma ShiftVisits(rows: seq<Row>, n: nat, k: nat)
    requires Sorted(rows) && AllTyped(rows) && n > 0 && Full(rows, n, k) && NextPage(rows, n, k) == k + n
    ensures VisitsAll(rows, n, k) <==> VisitsAll(rows, n, k + n)
  {
    forall i | k <= i < |rows|
      ensures rows[i].id in Visited(rows, n, k) <==> i < k + n || rows[i].id in Visited(rows, n, k + n)
    {
      PageHas(rows, n, k, i);
    }
  }

  lemma ShiftPages(rows: seq<Row>, n: nat, k: nat)
    requires n > 0 && Full(rows, n, k) && NextPage(rows, n, k) == k + n
    ensures NoTies(rows, n, k) <==> NoTies(rows, n, k + n)
  {
    var m := k + n;
    if NoTies(rows, n, k) {
      forall p: nat
        ensures NoTieAtLimit(rows, n, m, p)
      {
        ShiftPage(rows, n, k, p);
        assert NoTieAtLimit(rows, n, k, p + 1);
      }
    }
    if NoTies(rows, n, k + n) {
      forall p: nat
        ensures NoTieAtLimit(rows, n, k, p)
      {
        if p > 0 {
          ShiftPage(rows, n, k, p - 1);
          assert NoTieAtLimit(rows, n, k + n, p - 1);
        }
      }
    }
  }

  lemma ShiftPage(rows: seq<Row>, n: nat, k: nat, p: nat)
    requires n > 0 && Full(rows, n, k) && NextPage(rows, n, k) == k + n
    ensures NoTieAtLimit(rows, n, k, p + 1) <==> NoTieAtLimit(rows, n, k + n, p)
  {
    assert (p + 1) * n == p * n + n;
    if p == 0 {
      assert k + n < |rows| ==> rows[k + n].created != rows[k + n - 1].created;
    }
  }

  /** A refused row makes its page look short, and the walk ends there whatever follows. */
  lemma UntypedStops(rows: seq<Row>, n: nat, k: nat, i: nat)
    requires Sorted(rows) && k <= i < |rows| && i < k + n && !rows[i].typed
    ensures Visited(rows, n, k) == Typed(rows[k..Min(k + n, |rows|)])
    ensures forall j :: k + n <= j < |rows| ==> rows[j].id !in Visited(rows, n, k)
  {
    if k + n <= |rows| {
      assert !rows[k..k + n][i - k].typed;
    }
    forall j | k + n <= j < |rows|
      ensures rows[j].id !in Visited(rows, n, k)
    {
      PageHas(rows, n, k, j);
    }
  }

  predicate DistinctTimes(rows: seq<Row>) {
    forall i, j :: 0 <= i < j < |rows| ==> rows[i].created != rows[j].created
  }

  predicate VisitsTyped(rows: seq<Row>, n: nat, k: nat)
    requires k <= |rows|
  {
    forall i :: k <= i < |rows| && rows[i].typed ==> rows[i].id in Visited(rows, n, k)
  }

  /** If page p holds a refused row, only refused rows follow that page. */
  predicate NothingAfter(rows: seq<Row>, n: nat, k: nat, p: nat) {
    forall i, j :: k + p * n <= i < k + p * n + n <= j < |rows| && !rows[i].typed ==> !rows[j].typed
  }

  ghost predicate RefusedLast(rows: seq<Row>, n: nat, k: nat) {
    forall p: nat :: NothingAfter(rows, n, k, p)
  }

  /** With distinct created_at every well-typed row is still visited exactly when no page with a refused row
      is followed by a well-typed one. */
  lemma {:induction false} VisitsTypedIff(rows: seq<Row>, n: nat, k: nat)
    requires Sorted(rows) && DistinctTimes(rows) && n > 0 && k <= |rows|
    ensures VisitsTyped(rows, n, k) <==> RefusedLast(rows, n, k)
    decreases |rows| - k
  {
    if Full(rows, n, k) {
      NoTiesToSkip(rows, n, k);
      VisitsTypedIff(rows, n, k + n);
      ShiftTyped(rows, n, k);
      ShiftRefused(rows, n, k);
    } else if k + n <= |rows| {
      RefusedEnds(rows, n, k);
    } else {
      ShortPage(rows, n, k);
    }
  }

  lemma NoTiesToSkip(rows: seq<Row>, n: nat, k: nat)
    requires DistinctTimes(rows) && Full(rows, n, k)
    ensures NextPage(rows, n, k) == k + n
  {
    forall i | k + n <= i < |rows|
      ensures rows[i].created != rows[k + n - 1].created
    {
    }
  }

  lemma ShiftTyped(rows: seq<Row>, n: nat, k: nat)
    requires Sorted(rows) && n > 0 && Full(rows, n, k) && NextPage(rows, n, k) == k + n
    ensures VisitsTyped(rows, n, k) <==> VisitsTyped(rows, n, k + n)
  {
    forall i | k <= i < |rows|
      ensures rows[i].typed && i < k + n ==> rows[i].id in Visited(rows, n, k)
      ensures i >= k + n ==> (rows[i].id in Visited(rows, n, k) <==> rows[i].id in Visited(rows, n, k + n))
    {
      PageHas(rows, n, k, i);
    }
  }

  lemma ShiftRefused(rows: seq<Row>, n: nat, k: nat)
    requires n > 0 && Full(rows, n, k)
    ensures RefusedLast(rows, n, k) <==> RefusedLast(rows, n, k + n)
  {
    var m := k + n;
    if RefusedLast(rows, n, k) {
      forall p: nat
        ensures NothingAfter(rows, n, m, p)
      {
        assert NothingAfter(rows, n, k, p + 1);
        assert (p + 1) * n == p * n + n;
      }
    }
    if RefusedLast(rows, n, m) {
      forall p: nat
        ensures NothingAfter(rows, n, k, p)
      {
        if p > 0 {
          assert NothingAfter(rows, n, m, p - 1);
          assert p * n == (p - 1) * n + n;
        } else {
          forall i | k <= i < k + n
            ensures rows[i].typed
          {
            assert rows[k..k + n][i - k].typed;
          }
        }
      }
    }
  }

  lemma ShortPage(rows: seq<Row>, n: nat, k: nat)
    requires Sorted(rows) && k <= |rows| < k + n
    ensures VisitsTyped(rows, n, k) && RefusedLast(rows, n, k)
  {
    forall i | k <= i < |rows| && rows[i].typed
      ensures rows[i].id in Visited(rows, n, k)
    {
      PageHas(rows, n, k, i);
    }
    forall p: nat
      ensures NothingAfter(rows, n, k, p)
    {
      assert p * n >= 0;
    }
  }

  lemma RefusedEnds(rows: seq<Row>, n: nat, k: nat)
    requires Sorted(rows) && n > 0 && k + n <= |rows| && !Full(rows, n, k)
    ensures VisitsTyped(rows, n, k) <==> RefusedLast(rows, n, k)
  {
    var x :| 0 <= x < n && !rows[k..k + n][x].typed;
    assert !rows[k + x].typed;
    UntypedStops(rows, n, k, k + x);
    VisitsPage(rows, n, k);
    if RefusedLast(rows, n, k) {
      assert NothingAfter(rows, n, k, 0);
    } else {
      var p: nat :| !NothingAfter(rows, n, k, p);
      TypedBeyond(rows, n, k, p);
    }
  }

  lemma VisitsPage(rows: seq<Row>, n: nat, k: nat)
    requires Sorted(rows) && k <= |rows|
    ensures forall i :: k <= i < |rows| && i < k + n && rows[i].typed ==> rows[i].id in Visited(rows, n, k)
  {
    forall i | k <= i < |rows| && i < k + n && rows[i].typed
      ensures rows[i].id in Visited(rows, n, k)
    {
      PageHas(rows, n, k, i);
    }
  }

  lemma TypedBeyond(rows: seq<Row>, n: nat, k: nat, p: nat)
    requires !NothingAfter(rows, n, k, p)
    ensures exists j :: k + n <= j < |rows| && rows[j].typed
  {
    var i, j :| k + p * n <= i < k + p * n + n <= j < |rows| && !rows[i].typed && rows[j].typed;
    assert p * n >= 0;
  }
}
