/** From the text of a tracked link to its canonical form, and back to the parts a crawler needs. The host
    and the path come from a parsed URL. */
module LinkText {
  import opened Records

  // ---------- Go's strings and path packages ----------

  /** unicode.IsSpace. */
  predicate IsSpace(c: char) {
    var n := c as int;
    || 9 <= n <= 13 || n == 0x20 || n == 0x85 || n == 0xA0 || n == 0x1680 || 0x2000 <= n <= 0x200A
    || n == 0x2028 || n == 0x2029 || n == 0x202F || n == 0x205F || n == 0x3000
  }

  predicate IsSlash(c: char) {
    c == '/'
  }

  function TrimLeft(s: string, cut: char -> bool): (t: string)
    ensures t == [] || !cut(t[0])
    ensures |t| <= |s|
  {
    if s != [] && cut(s[0]) then TrimLeft(s[1..], cut) else s
  }

  function TrimRight(s: string, cut: char -> bool): (t: string)
    ensures t == [] || !cut(t[|t| - 1])
    ensures |t| <= |s|
  {
    if s != [] && cut(s[|s| - 1]) then TrimRight(s[..|s| - 1], cut) else s
  }

  function Trim(s: string, cut: char -> bool): string {
    TrimRight(TrimLeft(s, cut), cut)
  }

  lemma {:induction false} TrimLeftSuffix(s: string, cut: char -> bool)
    ensures TrimLeft(s, cut) == s[|s| - |TrimLeft(s, cut)|..]
  {
    if s != [] && cut(s[0]) {
      TrimLeftSuffix(s[1..], cut);
    }
  }

  lemma {:induction false} TrimRightPrefix(s: string, cut: char -> bool)
    ensures TrimRight(s, cut) == s[..|TrimRight(s, cut)|]
  {
    if s != [] && cut(s[|s| - 1]) {
      TrimRightPrefix(s[..|s| - 1], cut);
    }
  }

  predicate NoSlash(s: string) {
    '/' !in s
  }

  /** strings.Split(s, "/"). */
  function Split(s: string): (parts: seq<string>)
    ensures parts != [] && forall i :: 0 <= i < |parts| ==> NoSlash(parts[i])
  {
    if s == [] then [""]
    else
      var rest := Split(s[1..]);
      if s[0] == '/' then [""] + rest else [[s[0]] + rest[0]] + rest[1..]
  }

  function Join(parts: seq<string>): string {
    if parts == [] then "" else if |parts| == 1 then parts[0] else parts[0] + "/" + Join(parts[1..])
  }

  /** strings.SplitN(s, "/", n) for n >= 1: the last part keeps its slashes. */
  function SplitN(s: string, n: nat): (parts: seq<string>)
    requires n >= 1
    ensures 1 <= |parts| <= n
    decreases n
  {
    var all := Split(s);
    if n == 1 || |all| == 1 then [s] else [all[0]] + SplitN(Join(all[1..]), n - 1)
  }

  /** One element of a rooted path in path.Clean. */
  function Push(stack: seq<string>, part: string): seq<string> {
    if part == "" || part == "." then stack
    else if part == ".." then if stack == [] then [] else stack[..|stack| - 1]
    else stack + [part]
  }

  function Resolve(parts: seq<string>): seq<string> {
    if parts == [] then [] else Push(Resolve(parts[..|parts| - 1]), parts[|parts| - 1])
  }

  /** The elements of path.Clean("/" + p). */
  function Segments(p: string): seq<string> {
    Resolve(Split("/" + p))
  }

  /** path.Clean of a rooted path. */
  function Clean(p: string): string
    requires p != [] && p[0] == '/'
  {
    "/" + Join(Resolve(Split(p)))
  }

  // ---------- the domain ----------

  datatype Source = GitHub | StackOverflow

  datatype Failure = InvalidResource | InvalidPath

  datatype Checked = Accepted(source: Source) | Refused(failure: Failure)

  function SplitPath(p: string): seq<string> {
    var trimmed := Trim(p, IsSlash);
    if trimmed == "" then [] else Split(trimmed)
  }

  const GITHUB := "github.com"
  const STACKOVERFLOW := "stackoverflow.com"
  const QUESTIONS := "questions"

  function CheckResource(host: string, path: string): Checked {
    var parts := SplitPath(path);
    if host == "" then Refused(InvalidResource)
    else if host == GITHUB then if |parts| < 2 then Refused(InvalidPath) else Accepted(GitHub)
    else if host == STACKOVERFLOW then
      if |parts| < 2 || parts[0] != QUESTIONS then Refused(InvalidPath) else Accepted(StackOverflow)
    else Refused(InvalidResource)
  }

  /** The letters that unicode.ToLower maps to an ASCII letter: the ASCII capitals, the dotted capital I and
      the Kelvin sign. */
  function LowerChar(c: char): char {
    if 'A' <= c <= 'Z' then (c as int + 32) as char
    else if c == '\U{0130}' then 'i'
    else if c == '\U{212A}' then 'k'
    else c
  }

  /** strings.ToLower, up to the case of letters that are not ASCII in either case: no accepted host and no
      command name has any. */
  function ToLower(s: string): string {
    seq(|s|, i requires 0 <= i < |s| => LowerChar(s[i]))
  }

  function CleanURL(host: string, path: string, source: Source): string {
    var clean := Clean("/" + Trim(path, IsSpace));
    var parts := SplitPath(clean);
    ToLower(host) +
    if |parts| >= 2 && (source.GitHub? || parts[0] == QUESTIONS) then "/" + parts[0] + "/" + parts[1] else clean
  }

  /** The path of the tracked link that NewTrackedLink makes. */
  function Canonical(host: string, path: string): Option<string> {
    match CheckResource(host, path)
    case Accepted(source) => Some(CleanURL(host, path, source))
    case Refused(_) => None
  }

  // ---------- splitting and joining ----------

  lemma {:induction false} SplitNone(s: string)
    requires NoSlash(s)
    ensures Split(s) == [s]
  {
    if s != [] {
      assert s[0] in s && NoSlash(s[1..]);
      SplitNone(s[1..]);
      assert [s[0]] + s[1..] == s;
    }
  }

  lemma {:induction false} SplitAt(a: string, b: string)
    requires NoSlash(a)
    ensures Split(a + "/" + b) == [a] + Split(b)
  {
    var s := a + "/" + b;
    if a == [] {
      assert s[1..] == b;
    } else {
      SplitAt(a[1..], b);
      assert s[1..] == a[1..] + "/" + b;
      assert [s[0]] + a[1..] == a;
    }
  }

  lemma {:induction false} SplitJoin(parts: seq<string>)
    requires parts != [] && forall i :: 0 <= i < |parts| ==> NoSlash(parts[i])
    ensures Split(Join(parts)) == parts
  {
    if |parts| == 1 {
      SplitNone(parts[0]);
    } else {
      SplitJoin(parts[1..]);
      SplitAt(parts[0], Join(parts[1..]));
    }
  }

  lemma {:induction false} JoinSplit(s: string)
    ensures Join(Split(s)) == s
  {
    if s != [] {
      JoinSplit(s[1..]);
      var rest := Split(s[1..]);
      if s[0] == '/' {
        assert ([""] + rest)[1..] == rest;
      } else {
        var parts := [[s[0]] + rest[0]] + rest[1..];
        assert parts[1..] == rest[1..];
      }
    }
  }

  // ---------- cleaning ----------

  /** A path element that cleaning keeps. */
  predicate Normal(part: string) {
    part != "" && part != "." && part != ".." && NoSlash(part)
  }

  predicate AllNormal(parts: seq<string>) {
    forall i :: 0 <= i < |parts| ==> Normal(parts[i])
  }

  lemma {:induction false} ResolveNormal(parts: seq<string>)
    requires forall i :: 0 <= i < |parts| ==> NoSlash(parts[i])
    ensures AllNormal(Resolve(parts))
  {
    if parts != [] {
      ResolveNormal(parts[..|parts| - 1]);
    }
  }

  lemma {:induction false} ResolveFixed(parts: seq<string>)
    requires AllNormal(parts)
    ensures Resolve(parts) == parts
  {
    if parts != [] {
      ResolveFixed(parts[..|parts| - 1]);
    }
  }

  lemma {:induction false} ResolveSkips(a: string, parts: seq<string>)
    requires a == ""
    ensures Resolve([a] + parts) == Resolve(parts)
  {
    var all := [a] + parts;
    if parts == [] {
      assert all[..0] == [];
    } else {
      ResolveSkips(a, parts[..|parts| - 1]);
      assert all[..|all| - 1] == [a] + parts[..|parts| - 1];
    }
  }

  lemma SplitRooted(s: string)
    ensures Split("/" + s) == [""] + Split(s)
  {
    assert ("/" + s)[1..] == s;
  }

  /** The elements of a cleaned path are those that survived. */
  lemma ResolveJoined(segs: seq<string>)
    requires AllNormal(segs)
    ensures Resolve(Split("/" + Join(segs))) == segs
  {
    SplitRooted(Join(segs));
    ResolveSkips("", Split(Join(segs)));
    if segs == [] {
      assert Split("") == [""];
      ResolveSkips("", []);
      assert [""] + [] == [""];
    } else {
      SplitJoin(segs);
      ResolveFixed(segs);
    }
  }

  /** Cleaning is idempotent and leaves no empty, "." or ".." element. */
  lemma CleanIdempotent(p: string)
    requires p != [] && p[0] == '/'
    ensures Clean(Clean(p)) == Clean(p)
    ensures Clean(p) != "/" ==> AllNormal(Split(Clean(p)[1..]))
  {
    var segs := Resolve(Split(p));
    ResolveNormal(Split(p));
    ResolveJoined(segs);
    assert Clean(p)[1..] == Join(segs);
    if segs != [] {
      SplitJoin(segs);
    }
  }

  // ---------- canonical links ----------

  lemma {:induction false} JoinEnds(segs: seq<string>)
    requires segs != [] && AllNormal(segs)
    ensures var j := Join(segs); j != "" && j[0] != '/' && j[|j| - 1] != '/'
  {
    if |segs| > 1 {
      JoinEnds(segs[1..]);
      assert Join(segs)[|Join(segs)| - 1] == Join(segs[1..])[|Join(segs[1..])| - 1];
    }
    assert segs[0][0] in segs[0] && segs[0][|segs[0]| - 1] in segs[0];
  }

  lemma TrimLeadingSlash(j: string)
    requires j != "" && j[0] != '/' && j[|j| - 1] != '/'
    ensures Trim("/" + j, IsSlash) == j
  {
    assert ("/" + j)[1..] == j;
    assert TrimLeft(j, IsSlash) == j && TrimRight(j, IsSlash) == j;
  }

  lemma SplitPathOfClean(segs: seq<string>)
    requires AllNormal(segs)
    ensures SplitPath("/" + Join(segs)) == segs
  {
    if segs == [] {
      assert "/" + "" == "/" && "/"[1..] == "";
      assert TrimLeft("/", IsSlash) == TrimLeft("", IsSlash) == "";
    } else {
      JoinEnds(segs);
      TrimLeadingSlash(Join(segs));
      SplitJoin(segs);
    }
  }

  /** The surviving elements of a link's path. */
  function Surviving(path: string): seq<string> {
    Segments(Trim(path, IsSpace))
  }

  predicate Cut(source: Source, segs: seq<string>) {
    |segs| >= 2 && (source.GitHub? || segs[0] == QUESTIONS)
  }

  function Form(host: string, source: Source, segs: seq<string>): string {
    if Cut(source, segs) then host + "/" + segs[0] + "/" + segs[1] else host + "/" + Join(segs)
  }

  lemma LowerHost(host: string)
    requires host == GITHUB || host == STACKOVERFLOW
    ensures ToLower(host) == host && NoSlash(host)
  {
  }

  function SourceOf(host: string): Source {
    if host == GITHUB then GitHub else StackOverflow
  }

  lemma AcceptedHost(host: string, path: string)
    requires CheckResource(host, path).Accepted?
    ensures host == GITHUB || host == STACKOVERFLOW
    ensures CheckResource(host, path).source == SourceOf(host)
  {
  }

  lemma CleanedForm(host: string, trimmed: string, source: Source)
    ensures var segs := Segments(trimmed); var clean := Clean("/" + trimmed); var parts := SplitPath(clean);
      && AllNormal(segs)
      && host + (if |parts| >= 2 && (source.GitHub? || parts[0] == QUESTIONS) then "/" + parts[0] + "/" + parts[1] else clean)
         == Form(host, source, segs)
  {
    var segs := Segments(trimmed);
    ResolveNormal(Split("/" + trimmed));
    SplitPathOfClean(segs);
    if Cut(source, segs) {
      Regroup(host, "/", segs[0], "/", segs[1]);
    } else {
      Regroup(host, "/", Join(segs), "", "");
    }
  }

  lemma Regroup<T>(a: seq<T>, b: seq<T>, c: seq<T>, d: seq<T>, e: seq<T>)
    ensures a + (b + c + d + e) == a + b + c + d + e && a + (b + c) == a + b + c
  {
  }

  /** The canonical form depends on the surviving elements alone, and where the link is cut, on the first
      two of them. */
  lemma CanonicalForm(host: string, path: string)
    requires CheckResource(host, path).Accepted?
    ensures AllNormal(Surviving(path))
    ensures Canonical(host, path) == Some(Form(host, CheckResource(host, path).source, Surviving(path)))
  {
    AcceptedHost(host, path);
    LowerHost(host);
    CleanedForm(host, Trim(path, IsSpace), CheckResource(host, path).source);
  }

  lemma SplitThree(host: string, a: string, b: string)
    requires NoSlash(host) && NoSlash(a)
    ensures SplitN(host + "/" + a + "/" + b, 3) == [host, a, b]
  {
    var tail := a + "/" + b;
    assert host + "/" + a + "/" + b == host + "/" + tail;
    SplitAt(host, tail);
    SplitAt(a, b);
    JoinSplit(tail);
    JoinSplit(b);
    assert ([host] + Split(tail))[1..] == Split(tail);
    assert ([a] + Split(b))[1..] == Split(b);
  }

  lemma SplitFewer(host: string, rest: string)
    requires NoSlash(host) && NoSlash(rest)
    ensures SplitN(host + "/" + rest, 3) == [host, rest]
  {
    SplitAt(host, rest);
    SplitNone(rest);
    assert ([host] + Split(rest))[1..] == [rest];
  }

  lemma SplitForm(host: string, source: Source, segs: seq<string>)
    requires NoSlash(host) && AllNormal(segs)
    ensures var parts := SplitN(Form(host, source, segs), 3);
      if |segs| >= 2 then parts == [host, segs[0], if Cut(source, segs) then segs[1] else Join(segs[1..])]
      else |parts| == 2
  {
    if Cut(source, segs) {
      SplitThree(host, segs[0], segs[1]);
    } else if |segs| >= 2 {
      SplitThree(host, segs[0], Join(segs[1..]));
      assert host + "/" + Join(segs) == host + "/" + segs[0] + "/" + Join(segs[1..]);
    } else {
      SplitFewer(host, Join(segs));
    }
  }

  /** The three-way split of the crawlers has its third part exactly when two elements of the path survive
      cleaning; then it yields the host, the first element, and the second (followed by the rest where the
      link was not cut). */
  lemma CrawlerSplit(host: string, path: string)
    requires CheckResource(host, path).Accepted?
    ensures var segs := Surviving(path); var parts := SplitN(Canonical(host, path).value, 3);
      if |segs| >= 2 then
        parts == [host, segs[0], if Cut(CheckResource(host, path).source, segs) then segs[1] else Join(segs[1..])]
      else |parts| == 2
  {
    AcceptedHost(host, path);
    LowerHost(host);
    CanonicalForm(host, path);
    SplitForm(host, CheckResource(host, path).source, Surviving(path));
  }

  lemma FormOfFirstTwo(host: string, source: Source, a: seq<string>, b: seq<string>)
    requires Cut(source, a) && |b| >= 2 && a[..2] == b[..2]
    ensures Form(host, source, a) == Form(host, source, b)
  {
    assert a[0] == a[..2][0] && a[1] == a[..2][1] && b[0] == b[..2][0] && b[1] == b[..2][1];
  }

  /** Two accepted links with the same first two surviving elements share one canonical form. */
  lemma SameResource(host: string, p: string, q: string)
    requires CheckResource(host, p).Accepted? && CheckResource(host, q).Accepted?
    requires |Surviving(p)| >= 2 && |Surviving(q)| >= 2 && Surviving(p)[..2] == Surviving(q)[..2]
    requires SourceOf(host).GitHub? || Surviving(p)[0] == QUESTIONS
    ensures Canonical(host, p) == Canonical(host, q)
  {
    AcceptedHost(host, p);
    AcceptedHost(host, q);
    CanonicalForm(host, p);
    CanonicalForm(host, q);
    FormOfFirstTwo(host, SourceOf(host), Surviving(p), Surviving(q));
  }

  // ---------- ordinary links ----------

  /** No dot elements and no blanks around the path. */
  predicate Ordinary(path: string) {
    Trim(path, IsSpace) == path && forall i :: 0 <= i < |SplitPath(path)| ==> SplitPath(path)[i] !in {".", ".."}
  }

  function NonEmpty(parts: seq<string>): seq<string> {
    if parts == [] then []
    else NonEmpty(parts[..|parts| - 1]) + if parts[|parts| - 1] == "" then [] else [parts[|parts| - 1]]
  }

  lemma {:induction false} ResolveDotless(parts: seq<string>)
    requires forall i :: 0 <= i < |parts| ==> parts[i] !in {".", ".."}
    ensures Resolve(parts) == NonEmpty(parts)
  {
    if parts != [] {
      ResolveDotless(parts[..|parts| - 1]);
    }
  }

  lemma ResolveAfterSlash(s: string, t: string)
    requires s == "/" + t
    ensures Resolve(Split(s)) == Resolve(Split(t))
  {
    SplitRooted(t);
    ResolveSkips("", Split(t));
  }

  lemma HeadSlash(s: string)
    requires s != [] && s[0] == '/'
    ensures s == "/" + s[1..]
  {
  }

  lemma TrimLeftSlash(s: string)
    requires s != [] && s[0] == '/'
    ensures TrimLeft(s, IsSlash) == TrimLeft(s[1..], IsSlash)
  {
  }

  lemma {:induction false} SplitLeadingSlash(s: string)
    ensures Resolve(Split(s)) == Resolve(Split(TrimLeft(s, IsSlash)))
  {
    if s != [] && s[0] == '/' {
      SplitLeadingSlash(s[1..]);
      HeadSlash(s);
      ResolveAfterSlash(s, s[1..]);
      TrimLeftSlash(s);
    }
  }

  lemma {:induction false} SplitEndsInSlash(s: string)
    ensures Split(s + "/") == Split(s) + [""]
  {
    if s == [] {
      assert "" + "/" == "/" && "/"[1..] == "";
    } else {
      SplitEndsInSlash(s[1..]);
      assert (s + "/")[1..] == s[1..] + "/";
    }
  }

  lemma {:induction false} SplitTrailingSlash(s: string)
    ensures Resolve(Split(s)) == Resolve(Split(TrimRight(s, IsSlash)))
  {
    if s != [] && s[|s| - 1] == '/' {
      var t := s[..|s| - 1];
      SplitTrailingSlash(t);
      SplitEndsInSlash(t);
      assert s == t + "/";
      assert (Split(t) + [""])[..|Split(t)|] == Split(t);
    }
  }

  /** Cleaning sees the same elements as splitPath. */
  lemma SegmentsOfPath(p: string)
    ensures Segments(p) == Resolve(SplitPath(p))
  {
    SplitRooted(p);
    ResolveSkips("", Split(p));
    SplitLeadingSlash(p);
    SplitTrailingSlash(TrimLeft(p, IsSlash));
    if Trim(p, IsSlash) == "" {
      assert Split("") == [""];
      ResolveSkips("", []);
      assert [""] + [] == [""];
    }
  }

  lemma {:induction false} FirstAndLast(parts: seq<string>)
    requires |parts| >= 2 && parts[0] != "" && parts[|parts| - 1] != ""
    ensures |NonEmpty(parts)| >= 2 && NonEmpty(parts)[0] == parts[0]
  {
    FirstKept(parts[..|parts| - 1]);
  }

  lemma {:induction false} FirstKept(parts: seq<string>)
    requires parts != [] && parts[0] != ""
    ensures |NonEmpty(parts)| >= 1 && NonEmpty(parts)[0] == parts[0]
  {
    if |parts| > 1 {
      FirstKept(parts[..|parts| - 1]);
    } else {
      assert NonEmpty(parts[..0]) == [];
    }
  }

  lemma {:induction false} SplitEnds(s: string)
    requires s != "" && s[|s| - 1] != '/'
    ensures Split(s)[|Split(s)| - 1] != ""
    ensures s[0] != '/' ==> Split(s)[0] != ""
  {
    if |s| > 1 {
      SplitEnds(s[1..]);
    } else {
      assert Split(s[1..]) == [""];
    }
  }

  lemma SplitPathEnds(p: string)
    requires |SplitPath(p)| >= 2
    ensures SplitPath(p)[0] != "" && SplitPath(p)[|SplitPath(p)| - 1] != ""
  {
    var left := TrimLeft(p, IsSlash);
    var trimmed := TrimRight(left, IsSlash);
    TrimRightPrefix(left, IsSlash);
    assert trimmed[0] == left[0];
    SplitEnds(trimmed);
  }

  lemma OrdinarySegments(p: string)
    requires |SplitPath(p)| >= 2 && forall i :: 0 <= i < |SplitPath(p)| ==> SplitPath(p)[i] !in {".", ".."}
    ensures |Segments(p)| >= 2 && Segments(p)[0] == SplitPath(p)[0]
  {
    SegmentsOfPath(p);
    ResolveDotless(SplitPath(p));
    SplitPathEnds(p);
    FirstAndLast(SplitPath(p));
  }

  lemma AcceptedParts(host: string, path: string)
    requires CheckResource(host, path).Accepted?
    ensures |SplitPath(path)| >= 2
    ensures CheckResource(host, path).source.StackOverflow? ==> SplitPath(path)[0] == QUESTIONS
  {
  }

  // ---------- which links are accepted ----------

  predicate Slashes(s: string) {
    forall i :: 0 <= i < |s| ==> s[i] == '/'
  }

  /** Between the slashes at its ends the path is the element a, a slash, and some rest. */
  predicate Leads(path: string, lead: string, a: string, rest: string, tail: string) {
    && path == lead + (a + "/" + rest) + tail && Slashes(lead) && Slashes(tail)
    && a != "" && NoSlash(a) && rest != "" && rest[|rest| - 1] != '/'
  }

  /** a is the first of at least two elements of the path. */
  ghost predicate FirstOfTwo(path: string, a: string) {
    exists lead, rest, tail :: Leads(path, lead, a, rest, tail)
  }

  lemma TakeParts<T>(s: seq<T>, k: nat)
    requires k <= |s|
    ensures s == s[..k] + s[k..]
  {
  }

  lemma {:induction false} TrimLeftDrops(s: string, i: nat)
    requires i < |s| - |TrimLeft(s, IsSlash)|
    ensures s[i] == '/'
  {
    if i > 0 {
      TrimLeftDrops(s[1..], i - 1);
    }
  }

  lemma {:induction false} TrimRightDrops(s: string, i: nat)
    requires |TrimRight(s, IsSlash)| <= i < |s|
    ensures s[i] == '/'
  {
    if i < |s| - 1 {
      TrimRightDrops(s[..|s| - 1], i);
    }
  }

  /** Trimming takes a block of slashes off either end. */
  lemma TrimParts(path: string) returns (lead: string, tail: string)
    ensures Slashes(lead) && Slashes(tail) && path == lead + Trim(path, IsSlash) + tail
  {
    var left := TrimLeft(path, IsSlash);
    forall i | 0 <= i < |path| - |left|
      ensures path[i] == '/'
    {
      TrimLeftDrops(path, i);
    }
    forall i | |Trim(path, IsSlash)| <= i < |left|
      ensures left[i] == '/'
    {
      TrimRightDrops(left, i);
    }
    TrimLeftSuffix(path, IsSlash);
    TrimRightPrefix(left, IsSlash);
    lead, tail := path[..|path| - |left|], left[|Trim(path, IsSlash)|..];
    TakeParts(path, |path| - |left|);
    TakeParts(left, |Trim(path, IsSlash)|);
    Assoc(lead, Trim(path, IsSlash), tail);
  }

  lemma {:induction false} TrimLeftOf(lead: string, t: string)
    requires Slashes(lead) && t != "" && t[0] != '/'
    ensures TrimLeft(lead + t, IsSlash) == t
  {
    if lead == "" {
      assert lead + t == t;
    } else {
      TrimLeftOf(lead[1..], t);
      assert (lead + t)[1..] == lead[1..] + t;
    }
  }

  lemma {:induction false} TrimRightOf(t: string, tail: string)
    requires Slashes(tail) && t != "" && t[|t| - 1] != '/'
    ensures TrimRight(t + tail, IsSlash) == t
  {
    if tail == "" {
      assert t + tail == t;
    } else {
      var n := |tail| - 1;
      TrimRightOf(t, tail[..n]);
      assert (t + tail)[..|t + tail| - 1] == t + tail[..n];
    }
  }

  /** Slashes at the ends do not matter. */
  lemma TrimOf(path: string, lead: string, t: string, tail: string)
    requires path == lead + t + tail && Slashes(lead) && Slashes(tail)
    requires t != "" && t[0] != '/' && t[|t| - 1] != '/'
    ensures Trim(path, IsSlash) == t
  {
    Assoc(lead, t, tail);
    TrimLeftOf(lead, t + tail);
    TrimRightOf(t, tail);
  }

  lemma LedParts(path: string, lead: string, a: string, rest: string, tail: string)
    requires Leads(path, lead, a, rest, tail)
    ensures SplitPath(path) == [a] + Split(rest)
  {
    var t := a + "/" + rest;
    assert a[0] in a && t[0] == a[0] && t[|t| - 1] == rest[|rest| - 1];
    TrimOf(path, lead, t, tail);
    SplitAt(a, rest);
  }

  lemma LeadsWhen(path: string)
    requires |SplitPath(path)| >= 2
    ensures FirstOfTwo(path, SplitPath(path)[0])
  {
    var t := Trim(path, IsSlash);
    var lead, tail := TrimParts(path);
    var parts := Split(t);
    SplitPathEnds(path);
    JoinSplit(t);
    var rest := Join(parts[1..]);
    assert t == parts[0] + "/" + rest;
    RestEnds(t, parts[0], rest);
    assert Leads(path, lead, parts[0], rest, tail);
  }

  lemma RestEnds(t: string, a: string, rest: string)
    requires t == a + "/" + rest && t[|t| - 1] != '/'
    ensures rest != "" && rest[|rest| - 1] != '/'
  {
    assert t[|a|] == '/' && |t| == |a| + 1 + |rest|;
  }

  /** Which element is first, told from the text of the path. */
  lemma FirstOfTwoIff(path: string, a: string)
    ensures |SplitPath(path)| >= 2 && SplitPath(path)[0] == a <==> FirstOfTwo(path, a)
  {
    if |SplitPath(path)| >= 2 {
      LeadsWhen(path);
    }
    if FirstOfTwo(path, a) {
      var lead, rest, tail :| Leads(path, lead, a, rest, tail);
      LedParts(path, lead, a, rest, tail);
    }
  }

  lemma HostsDiffer()
    ensures GITHUB != STACKOVERFLOW && GITHUB != "" && STACKOVERFLOW != ""
  {
    assert |GITHUB| == 10 && |STACKOVERFLOW| == 17;
  }

  /** Which links are accepted, for every host and path: two elements at least, and on the second host the
      first of them is the fixed word. And which refusal the others get. */
  lemma CheckExact(host: string, path: string)
    ensures CheckResource(host, path) == Accepted(GitHub) <==> host == GITHUB && exists a :: FirstOfTwo(path, a)
    ensures CheckResource(host, path) == Accepted(StackOverflow) <==> host == STACKOVERFLOW && FirstOfTwo(path, QUESTIONS)
    ensures CheckResource(host, path) == Refused(InvalidResource) <==> host != GITHUB && host != STACKOVERFLOW
  {
    HostsDiffer();
    FirstOfTwoIff(path, QUESTIONS);
    if |SplitPath(path)| >= 2 {
      FirstOfTwoIff(path, SplitPath(path)[0]);
    }
    if exists a :: FirstOfTwo(path, a) {
      var a :| FirstOfTwo(path, a);
      FirstOfTwoIff(path, a);
    }
  }

  /** Every accepted ordinary link is cut to host/a/b, and the crawler gets exactly a and b back. */
  lemma OrdinaryLink(host: string, path: string)
    requires CheckResource(host, path).Accepted? && Ordinary(path)
    ensures var segs := Surviving(path);
      && |segs| >= 2 && Normal(segs[0]) && Normal(segs[1])
      && Canonical(host, path) == Some(host + "/" + segs[0] + "/" + segs[1])
      && SplitN(Canonical(host, path).value, 3) == [host, segs[0], segs[1]]
  {
    AcceptedParts(host, path);
    OrdinarySegments(path);
    assert Surviving(path) == Segments(path);
    CanonicalForm(host, path);
    CrawlerSplit(host, path);
  }

  lemma TrimNothing(p: string, cut: char -> bool)
    requires p != "" && !cut(p[0]) && !cut(p[|p| - 1])
    ensures Trim(p, cut) == p
  {
    assert TrimLeft(p, cut) == p;
  }

  lemma SplitTwo(a: string, b: string)
    requires NoSlash(a) && NoSlash(b)
    ensures Split(a + "/" + b) == [a, b]
  {
    SplitAt(a, b);
    SplitNone(b);
  }

  /** "a/b" starts and ends in neither slash nor, if b does not, blank. */
  lemma JoinedEnds(a: string, b: string, j: string)
    requires a != "" && b != "" && NoSlash(a) && NoSlash(b) && j == a + "/" + b
    ensures j != "" && j[0] != '/' && j[|j| - 1] != '/' && j[|j| - 1] == b[|b| - 1]
  {
    assert a[0] in a && b[|b| - 1] in b;
  }

  /** "/a/b" is a path without blanks around it whose parts are a and b. */
  lemma TwoParts(a: string, b: string, path: string)
    requires a != "" && b != "" && NoSlash(a) && NoSlash(b) && !IsSpace(b[|b| - 1])
    requires path == "/" + (a + "/" + b)
    ensures SplitPath(path) == [a, b] && Trim(path, IsSpace) == path
  {
    var j := a + "/" + b;
    JoinedEnds(a, b, j);
    TrimLeadingSlash(j);
    SplitTwo(a, b);
    assert path[0] == '/' && path[|path| - 1] == j[|j| - 1];
    TrimNothing(path, IsSpace);
  }

  lemma ResolveTwo(a: string, b: string)
    requires Normal(a) && b == ".."
    ensures Resolve([a, b]) == []
  {
    assert [a, b][..1] == [a] && [a][..0] == [];
    assert Resolve([a]) == [a];
  }

  lemma TwoPartsAccepted(path: string, a: string, b: string)
    requires SplitPath(path) == [a, b]
    ensures CheckResource(GITHUB, path).Accepted?
  {
    var parts := SplitPath(path);
    assert |parts| == 2;
  }

  lemma NothingSurvives(path: string, a: string, b: string)
    requires Normal(a) && b == ".." && SplitPath(path) == [a, b] && Trim(path, IsSpace) == path
    ensures Surviving(path) == []
  {
    SegmentsOfPath(path);
    ResolveTwo(a, b);
  }

  lemma DotDotParts(a: string, b: string, path: string)
    requires Normal(a) && b == ".." && path == "/" + (a + "/" + b)
    ensures SplitPath(path) == [a, b] && Trim(path, IsSpace) == path
  {
    TwoParts(a, b, path);
  }

  /** For every a the path "/a/.." is accepted although nothing of it survives, so by CrawlerSplit the
      crawler finds no third part. */
  lemma DotDotIsAccepted(a: string, dots: string, path: string)
    requires Normal(a) && dots == ".." && path == "/" + (a + "/" + dots)
    ensures CheckResource(GITHUB, path).Accepted? && Surviving(path) == []
  {
    DotDotParts(a, dots, path);
    TwoPartsAccepted(path, a, dots);
    NothingSurvives(path, a, dots);
  }
}
