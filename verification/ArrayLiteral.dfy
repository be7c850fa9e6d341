/** The text[] literal that the query builder sends for a tag list, against the array input syntax of
    section 8.15.6 (Array Input and Output Syntax) of the PostgreSQL documentation. */
module ArrayLiteral {
  import opened Records

  const QUOTE := '\"'
  const BACKSLASH := '\\'

  // ---------- the printer ----------

  /** strings.ReplaceAll for a one-character pattern. */
  function ReplaceAll(s: string, c: char, put: string): string {
    if s == [] then [] else (if s[0] == c then put else [s[0]]) + ReplaceAll(s[1..], c, put)
  }

  /** The two replacements of the printer, in its order. */
  function EscapeTwice(s: string): string {
    ReplaceAll(ReplaceAll(s, BACKSLASH, [BACKSLASH, BACKSLASH]), QUOTE, [BACKSLASH, QUOTE])
  }

  function Item(tag: string): string {
    [QUOTE] + EscapeTwice(tag) + [QUOTE]
  }

  function Join(parts: seq<string>): string {
    if parts == [] then [] else if |parts| == 1 then parts[0] else parts[0] + "," + Join(parts[1..])
  }

  function Items(tags: seq<string>): seq<string> {
    seq(|tags|, i requires 0 <= i < |tags| => Item(tags[i]))
  }

  function Literal(tags: seq<string>): string {
    "{" + Join(Items(tags)) + "}"
  }

  method ToTextArrayLiteral(tags: seq<string>) returns (text: string)
    ensures text == Literal(tags)
  {
    if |tags| == 0 {
      return "{}";
    }
    var parts := [];
    for i := 0 to |tags|
      invariant parts == Items(tags[..i])
    {
      var item := ReplaceAll(tags[i], BACKSLASH, [BACKSLASH, BACKSLASH]);
      item := ReplaceAll(item, QUOTE, [BACKSLASH, QUOTE]);
      parts := parts + [[QUOTE] + item + [QUOTE]];
    }
    assert tags[..|tags|] == tags;
    text := "{" + Join(parts) + "}";
  }

  // ---------- one pass or two ----------

  /** Backslashes and double quotes get a backslash in front. */
  function Escape(s: string): string {
    if s == [] then []
    else (if s[0] == QUOTE || s[0] == BACKSLASH then [BACKSLASH, s[0]] else [s[0]]) + Escape(s[1..])
  }

  lemma {:induction false} ReplaceConcat(a: string, b: string, c: char, put: string)
    ensures ReplaceAll(a + b, c, put) == ReplaceAll(a, c, put) + ReplaceAll(b, c, put)
  {
    if a == [] {
      assert a + b == b;
    } else {
      assert (a + b)[1..] == a[1..] + b;
      ReplaceConcat(a[1..], b, c, put);
    }
  }

  lemma ReplaceOne(x: char, c: char, put: string)
    ensures ReplaceAll([x], c, put) == if x == c then put else [x]
  {
    assert [x][1..] == [];
  }

  lemma ReplaceTwo(x: char, y: char, c: char, put: string)
    ensures ReplaceAll([x, y], c, put) == (if x == c then put else [x]) + if y == c then put else [y]
  {
    assert [x, y][1..] == [y];
    ReplaceOne(y, c, put);
  }

  /** Doubling the backslashes first makes the two replacements a single escaping pass. */
  lemma {:induction false} TwoPassesAreOne(s: string)
    ensures EscapeTwice(s) == Escape(s)
  {
    if s != [] {
      TwoPassesAreOne(s[1..]);
      var head := if s[0] == BACKSLASH then [BACKSLASH, BACKSLASH] else [s[0]];
      var put := [BACKSLASH, QUOTE];
      ReplaceConcat(head, ReplaceAll(s[1..], BACKSLASH, [BACKSLASH, BACKSLASH]), QUOTE, put);
      ReplaceTwo(BACKSLASH, BACKSLASH, QUOTE, put);
      ReplaceOne(s[0], QUOTE, put);
    }
  }

  function EscapeReversed(s: string): string {
    ReplaceAll(ReplaceAll(s, QUOTE, [BACKSLASH, QUOTE]), BACKSLASH, [BACKSLASH, BACKSLASH])
  }

  lemma {:induction false} ReversedLength(s: string)
    ensures |EscapeReversed(s)| >= |Escape(s)|
    ensures |EscapeReversed(s)| == |Escape(s)| <==> QUOTE !in s
    ensures QUOTE !in s ==> EscapeReversed(s) == Escape(s)
  {
    if s != [] {
      ReversedLength(s[1..]);
      var head := if s[0] == QUOTE then [BACKSLASH, QUOTE] else [s[0]];
      var put := [BACKSLASH, BACKSLASH];
      ReplaceConcat(head, ReplaceAll(s[1..], QUOTE, [BACKSLASH, QUOTE]), BACKSLASH, put);
      ReplaceTwo(BACKSLASH, QUOTE, BACKSLASH, put);
      ReplaceOne(s[0], BACKSLASH, put);
      assert QUOTE in s <==> s[0] == QUOTE || QUOTE in s[1..];
    }
  }

  /** In the other order the replacements would be right only for texts without a double quote. */
  lemma OrderMattersIff(s: string)
    ensures EscapeReversed(s) == Escape(s) <==> QUOTE !in s
  {
    ReversedLength(s);
  }

  // ---------- the parser ----------

  /** The rest of a quoted element: a backslash takes the next character literally, a double quote ends it. */
  function Quoted(s: string, item: string): Option<(string, string)>
    decreases |s|
  {
    if s == [] then None
    else if s[0] == QUOTE then Some((item, s[1..]))
    else if s[0] == BACKSLASH then if |s| == 1 then None else Quoted(s[2..], item + [s[1]])
    else Quoted(s[1..], item + [s[0]])
  }

  predicate Plain(c: char) {
    c !in "{}\",\\ \t\n\r"
  }

  /** The rest of an unquoted element. */
  function Bare(s: string, item: string): (r: (string, string))
    ensures |r.1| <= |s| && (r.1 == s <==> s == [] || !Plain(s[0]))
    decreases |s|
  {
    if s == [] || !Plain(s[0]) then (item, s) else Bare(s[1..], item + [s[0]])
  }

  lemma {:induction false} QuotedShorter(s: string, item: string)
    ensures Quoted(s, item).Some? ==> |Quoted(s, item).value.1| < |s|
    decreases |s|
  {
    if s != [] && s[0] != QUOTE {
      if s[0] == BACKSLASH {
        if |s| > 1 {
          QuotedShorter(s[2..], item + [s[1]]);
        }
      } else {
        QuotedShorter(s[1..], item + [s[0]]);
      }
    }
  }

  /** One element; the unquoted word NULL is the null element, which is no text. */
  function Element(s: string): (r: Option<(string, string)>)
    ensures r.Some? ==> |r.value.1| < |s|
  {
    if s == [] then None
    else if s[0] == QUOTE then
      QuotedShorter(s[1..], []);
      Quoted(s[1..], [])
    else
      var (item, rest) := Bare(s, []);
      if item == [] || item == "NULL" || |rest| == |s| then None else Some((item, rest))
  }

  /** Elements up to the closing brace, which must end the text. */
  function Elements(s: string, items: seq<string>): Option<seq<string>>
    decreases |s|
  {
    match Element(s)
    case None => None
    case Some((item, rest)) =>
      if rest == "}" then Some(items + [item])
      else if rest != [] && rest[0] == ',' then Elements(rest[1..], items + [item])
      else None
  }

  function Parse(text: string): Option<seq<string>> {
    if text == "{}" then Some([])
    else if text == [] || text[0] != '{' then None
    else Elements(text[1..], [])
  }

  // ---------- round trip ----------

  predicate Special(c: char) {
    c == QUOTE || c == BACKSLASH
  }

  lemma {:induction false} QuotedEscape(tag: string, rest: string, item: string)
    ensures Quoted(Escape(tag) + [QUOTE] + rest, item) == Some((item + tag, rest))
  {
    var s := Escape(tag) + [QUOTE] + rest;
    if tag == [] {
      assert s[1..] == rest;
      assert item + tag == item;
    } else {
      var more := Escape(tag[1..]) + [QUOTE] + rest;
      QuotedEscape(tag[1..], rest, item + [tag[0]]);
      assert item + [tag[0]] + tag[1..] == item + tag;
      if Special(tag[0]) {
        assert s == [BACKSLASH, tag[0]] + more;
        assert s[2..] == more;
      } else {
        assert s == [tag[0]] + more;
        assert s[1..] == more;
      }
    }
  }

  lemma ElementOfItem(tag: string, rest: string)
    ensures Element(Item(tag) + rest) == Some((tag, rest))
  {
    TwoPassesAreOne(tag);
    QuotedEscape(tag, rest, []);
    assert (Item(tag) + rest)[1..] == Escape(tag) + [QUOTE] + rest;
    assert [] + tag == tag;
  }

  lemma {:induction false} ElementsOfItems(tags: seq<string>, items: seq<string>)
    requires tags != []
    ensures Elements(Join(Items(tags)) + "}", items) == Some(items + tags)
  {
    if |tags| == 1 {
      ElementOfItem(tags[0], "}");
      assert tags == [tags[0]];
    } else {
      assert Items(tags)[1..] == Items(tags[1..]);
      var tail := Join(Items(tags[1..])) + "}";
      var rest := "," + tail;
      assert Join(Items(tags)) + "}" == Item(tags[0]) + rest;
      assert rest[1..] == tail;
      ElementOfItem(tags[0], rest);
      ElementsOfItems(tags[1..], items + [tags[0]]);
      assert items + [tags[0]] + tags[1..] == items + tags;
    }
  }

  /** Reading the printed literal gives back the tag list, for every list of strings. */
  lemma RoundTrip(tags: seq<string>)
    ensures Parse(Literal(tags)) == Some(tags)
  {
    if tags == [] {
      assert Join(Items([])) == [];
    } else {
      var text := Literal(tags);
      assert text[1..] == Join(Items(tags)) + "}";
      FirstIsQuote(tags);
      ElementsOfItems(tags, []);
      assert [] + tags == tags;
    }
  }

  lemma FirstIsQuote(tags: seq<string>)
    requires tags != []
    ensures Join(Items(tags)) != [] && Join(Items(tags))[0] == QUOTE
  {
    assert Items(tags)[0] == Item(tags[0]);
  }
}
