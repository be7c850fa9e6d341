/** The bot's conversation with each chat: a three-state automaton kept in a map, and the scrapper calls it
    makes along the way. */
module Conversation {
  import opened Records
  import LinkText

  // ---------- parseInput ----------

  datatype Command = Start | Help | Track | Untrack | List | AddTags | ClearTags | Cancel | Url | Tags | Unknown

  datatype Input = Input(cmd: Command, args: seq<string>)

  function CommandOf(name: string): Command {
    if name == "start" then Start else if name == "help" then Help else if name == "track" then Track
    else if name == "untrack" then Untrack else if name == "list" then List else if name == "addtags" then AddTags
    else if name == "cleartags" then ClearTags else if name == "cancel" then Cancel else if name == "url" then Url
    else if name == "tags" then Tags else Unknown
  }

  /** Length of the longest prefix without blanks. */
  function WordLength(s: string): (n: nat)
    ensures n <= |s| && (forall i :: 0 <= i < n ==> !LinkText.IsSpace(s[i])) && (n < |s| ==> LinkText.IsSpace(s[n]))
  {
    if s == [] || LinkText.IsSpace(s[0]) then 0 else 1 + WordLength(s[1..])
  }

  /** strings.Fields. */
  function Fields(s: string): (words: seq<string>)
    ensures forall i :: 0 <= i < |words| ==> words[i] != [] && forall j :: 0 <= j < |words[i]| ==> !LinkText.IsSpace(words[i][j])
    decreases |s|
  {
    if s == [] then []
    else if LinkText.IsSpace(s[0]) then Fields(s[1..])
    else [s[..WordLength(s)]] + Fields(s[WordLength(s)..])
  }

  function TrimSlash(s: string): string {
    if s != [] && s[0] == '/' then s[1..] else s
  }

  function ParseInput(text: string): Input {
    var parts := Fields(text);
    if parts == [] || TrimSlash(parts[0]) == [] then Input(Unknown, [])
    else Input(CommandOf(LinkText.ToLower(TrimSlash(parts[0]))), parts[1..])
  }

  predicate Word(w: string) {
    w != [] && forall i :: 0 <= i < |w| ==> !LinkText.IsSpace(w[i])
  }

  /** The words of a message with a blank between them. */
  function Line(words: seq<string>): string {
    if words == [] then [] else if |words| == 1 then words[0] else words[0] + [' '] + Line(words[1..])
  }

  lemma {:induction false} WordLengthOf(w: string, rest: string)
    requires forall i :: 0 <= i < |w| ==> !LinkText.IsSpace(w[i])
    requires rest == [] || LinkText.IsSpace(rest[0])
    ensures WordLength(w + rest) == |w|
  {
    if w == [] {
      assert w + rest == rest;
    } else {
      assert (w + rest)[1..] == w[1..] + rest;
      WordLengthOf(w[1..], rest);
    }
  }

  lemma FieldsFirst(w: string, rest: string)
    requires Word(w) && (rest == [] || LinkText.IsSpace(rest[0]))
    ensures Fields(w + rest) == [w] + Fields(rest)
  {
    WordLengthOf(w, rest);
    assert (w + rest)[..|w|] == w && (w + rest)[|w|..] == rest;
  }

  lemma FieldsOfOne(w: string)
    requires Word(w)
    ensures Fields(Line([w])) == [w]
  {
    FieldsFirst(w, []);
    assert w + [] == w;
  }

  lemma LineOfMore(w: string, more: seq<string>)
    requires more != []
    ensures Line([w] + more) == w + ([' '] + Line(more))
  {
    assert ([w] + more)[1..] == more;
    Assoc(w, [' '], Line(more));
  }

  lemma FieldsAfterBlank(s: string)
    ensures Fields([' '] + s) == Fields(s)
  {
    assert ([' '] + s)[1..] == s;
  }

  lemma FieldsOfMore(w: string, more: seq<string>)
    requires Word(w) && more != [] && Fields(Line(more)) == more
    ensures Fields(Line([w] + more)) == [w] + more
  {
    var tail := [' '] + Line(more);
    LineOfMore(w, more);
    FieldsAfterBlank(Line(more));
    FieldsFirst(w, tail);
  }

  lemma {:induction false} FieldsOfLine(words: seq<string>)
    requires forall i :: 0 <= i < |words| ==> Word(words[i])
    ensures Fields(Line(words)) == words
  {
    if |words| == 1 {
      FieldsOfOne(words[0]);
      assert [words[0]] == words;
    } else if |words| > 1 {
      FieldsOfLine(words[1..]);
      FieldsOfMore(words[0], words[1..]);
      assert [words[0]] + words[1..] == words;
    }
  }

  lemma ParsedFrom(text: string, first: string, args: seq<string>)
    requires Fields(text) == [first] + args && TrimSlash(first) != []
    ensures ParseInput(text) == Input(CommandOf(LinkText.ToLower(TrimSlash(first))), args)
  {
    assert ([first] + args)[1..] == args;
  }

  /** The slash is optional. */
  function Typed(name: string, slash: bool): string {
    if slash then ['/'] + name else name
  }

  lemma TypedWord(name: string, slash: bool)
    requires Word(name) && name[0] != '/'
    ensures Word(Typed(name, slash)) && TrimSlash(Typed(name, slash)) == name
  {
    assert (['/'] + name)[1..] == name;
  }

  /** A command typed with or without its slash, in any case, and its arguments are read back. */
  lemma CommandIsRead(name: string, slash: bool, args: seq<string>)
    requires Word(name) && name[0] != '/' && forall i :: 0 <= i < |args| ==> Word(args[i])
    ensures ParseInput(Line([Typed(name, slash)] + args)) == Input(CommandOf(LinkText.ToLower(name)), args)
  {
    TypedWord(name, slash);
    FieldsOfLine([Typed(name, slash)] + args);
    ParsedFrom(Line([Typed(name, slash)] + args), Typed(name, slash), args);
  }

  /** The word that stands for a command. */
  function NameOf(c: Command): string
    requires !c.Unknown?
  {
    match c
    case Start => "start"
    case Help => "help"
    case Track => "track"
    case Untrack => "untrack"
    case List => "list"
    case AddTags => "addtags"
    case ClearTags => "cleartags"
    case Cancel => "cancel"
    case Url => "url"
    case Tags => "tags"
  }

  /** Every command is read from its own word alone, and every other word is no command. */
  lemma CommandOfExact(name: string, c: Command)
    requires !c.Unknown?
    ensures CommandOf(name) == c <==> name == NameOf(c)
  {
    WordsDiffer();
  }

  lemma WordsDiffer()
    ensures forall a: Command, b: Command :: !a.Unknown? && !b.Unknown? && NameOf(a) == NameOf(b) ==> a == b
  {
    assert |"start"| == 5 && |"help"| == 4 && |"track"| == 5 && |"untrack"| == 7 && |"list"| == 4;
    assert |"addtags"| == 7 && |"cleartags"| == 9 && |"cancel"| == 6 && |"url"| == 3 && |"tags"| == 4;
    assert "start"[0] == 's' && "track"[0] == 't' && "help"[0] == 'h' && "list"[0] == 'l' && "tags"[0] == 't';
    assert "untrack"[0] == 'u' && "addtags"[0] == 'a';
  }

  /** w is the word with some of its letters in upper case. */
  predicate Cased(w: string, word: string) {
    |w| == |word| && forall i :: 0 <= i < |w| ==> w[i] == word[i] || w[i] as int == word[i] as int - 32
  }

  predicate Lower(word: string) {
    word != "" && forall i :: 0 <= i < |word| ==> 'a' <= word[i] <= 'z'
  }

  lemma NamesAreLower(c: Command)
    requires !c.Unknown?
    ensures Lower(NameOf(c))
  {
  }

  /** Every command is read, in any case, with or without its slash, with its arguments; and no other word of
      small letters is one, in any case. */
  lemma EveryWordIsRead(word: string, w: string, slash: bool, args: seq<string>)
    requires Lower(word) && Cased(w, word) && forall i :: 0 <= i < |args| ==> Word(args[i])
    ensures ParseInput(Line([Typed(w, slash)] + args)) == Input(CommandOf(word), args)
    ensures forall c: Command :: !c.Unknown? ==> (CommandOf(word) == c <==> word == NameOf(c))
  {
    CasedIsWord(w, word);
    CommandIsRead(w, slash, args);
    forall c: Command | !c.Unknown?
      ensures CommandOf(word) == c <==> word == NameOf(c)
    {
      CommandOfExact(word, c);
    }
  }

  lemma CasedIsWord(w: string, word: string)
    requires Lower(word) && Cased(w, word)
    ensures Word(w) && w[0] != '/' && LinkText.ToLower(w) == word
  {
    forall i | 0 <= i < |w|
      ensures !LinkText.IsSpace(w[i]) && LinkText.LowerChar(w[i]) == word[i]
    {
      assert w[i] == word[i] || 'A' <= w[i] <= 'Z';
    }
  }

  /** And a command's own word is such a word. */
  lemma EveryCommandIsRead(c: Command, w: string, slash: bool, args: seq<string>)
    requires !c.Unknown? && Cased(w, NameOf(c)) && forall i :: 0 <= i < |args| ==> Word(args[i])
    ensures ParseInput(Line([Typed(w, slash)] + args)) == Input(c, args)
  {
    NamesAreLower(c);
    EveryWordIsRead(NameOf(c), w, slash, args);
  }

  /** A message without words, or whose first word is a lone slash, is no command. */
  lemma NothingIsUnknown(text: string)
    requires Fields(text) == [] || Fields(text)[0] == ['/']
    ensures ParseInput(text) == Input(Unknown, [])
  {
    assert ['/'][1..] == [];
  }

  // ---------- one step of one chat ----------

  datatype State = Available | AwaitLink | AwaitTags

  datatype ChatState = ChatState(state: State, url: string, tags: seq<string>)

  const FRESH := ChatState(Available, "", [])

  datatype Call =
    | RegisterChat(chat: int)
    | TrackLink(chat: int, link: string, tags: seq<string>)
    | UntrackLink(chat: int, link: string)
    | ListLinks(chat: int)
    | AddLinkTags(chat: int, link: string, tags: seq<string>)
    | ClearLinkTags(chat: int, link: string)

  predicate BadUrl(m: Input) {
    m.cmd.Url? && |m.args| != 1
  }

  predicate GoodUrl(m: Input) {
    m.cmd.Url? && |m.args| == 1
  }

  /** The session after a message; None means that it is removed. It does not depend on the scrapper. */
  function Next(s: ChatState, m: Input): Option<ChatState> {
    match s.state
    case Available =>
      if m.cmd.Track? then Some(ChatState(AwaitLink, "", [])) else if m.cmd.Start? then None else Some(s)
    case AwaitLink =>
      if GoodUrl(m) then Some(ChatState(AwaitTags, m.args[0], s.tags)) else if BadUrl(m) then Some(s) else None
    case AwaitTags => None
  }

  /** The scrapper call that a message triggers. */
  function CallOf(chat: int, s: ChatState, m: Input): seq<Call> {
    match s.state
    case Available =>
      (match m.cmd
       case Start => [RegisterChat(chat)]
       case Untrack => if |m.args| == 1 then [UntrackLink(chat, m.args[0])] else []
       case List => [ListLinks(chat)]
       case AddTags => if |m.args| >= 2 then [AddLinkTags(chat, m.args[0], m.args[1..])] else []
       case ClearTags => if |m.args| == 1 then [ClearLinkTags(chat, m.args[0])] else []
       case _ => [])
    case AwaitLink => []
    case AwaitTags => if m.cmd.Tags? then [TrackLink(chat, s.url, m.args)] else []
  }

  // ---------- the bot ----------

  function Session(states: map<int, ChatState>, chat: int): ChatState {
    if chat in states then states[chat] else FRESH
  }

  /** A chat in the default session may or may not have an entry. */
  class ChatStates {
    var state: map<int, ChatState>

    constructor ()
      ensures state == map[]
    {
      state := map[];
    }

    method Get(chat: int) returns (s: ChatState)
      ensures s == Session(state, chat)
    {
      s := if chat in state then state[chat] else ChatState(Available, "", []);
    }

    method StartTracking(chat: int)
      modifies this
      ensures state == old(state)[chat := ChatState(AwaitLink, "", [])]
    {
      state := state[chat := ChatState(AwaitLink, "", [])];
    }

    method SetURL(chat: int, url: string)
      modifies this
      ensures state == old(state)[chat := Session(old(state), chat).(state := AwaitTags, url := url)]
    {
      var s := Get(chat);
      state := state[chat := s.(url := url, state := AwaitTags)];
    }

    method SetTags(chat: int, tags: seq<string>)
      modifies this
      ensures state == old(state)[chat := Session(old(state), chat).(tags := tags)]
    {
      var s := Get(chat);
      state := state[chat := s.(tags := tags)];
    }

    method Remove(chat: int)
      modifies this
      ensures state == old(state) - {chat}
    {
      state := state - {chat};
    }
  }

  /** What one message does to the sessions. */
  ghost predicate Moves(before: map<int, ChatState>, after: map<int, ChatState>, chat: int, m: Input) {
    && (forall c :: c != chat ==> Session(after, c) == Session(before, c))
    && Session(after, chat) == (match Next(Session(before, chat), m) case Some(s) => s case None => FRESH)
  }

  class CommandUseCase {
    const states: ChatStates
    var calls: seq<Call>

    constructor (states: ChatStates)
      ensures this.states == states && calls == []
    {
      this.states := states;
      calls := [];
    }

    /** Handle; accepted tells whether the scrapper reports success. */
    method Handle(text: string, chat: int, accepted: bool)
      modifies this`calls, states
      ensures Moves(old(states.state), states.state, chat, ParseInput(text))
      ensures calls == old(calls) + CallOf(chat, Session(old(states.state), chat), ParseInput(text))
    {
      var session := states.Get(chat);
      var m := ParseInput(text);
      match session.state
      case AwaitLink => AwaitLinkHandle(chat, m);
      case AwaitTags => AwaitTagsHandle(chat, m, accepted);
      case Available => AvailableHandle(chat, m);
    }

    method AvailableHandle(chat: int, m: Input)
      requires Session(states.state, chat).state.Available?
      modifies this`calls, states
      ensures Moves(old(states.state), states.state, chat, m)
      ensures Session(states.state, chat) ==
        if m.cmd.Track? then ChatState(AwaitLink, "", []) else if m.cmd.Start? then FRESH else Session(old(states.state), chat)
      ensures calls == old(calls) + CallOf(chat, Session(old(states.state), chat), m)
    {
      match m.cmd
      case Start =>
        states.Remove(chat);
        calls := calls + [RegisterChat(chat)];
      case Track => states.StartTracking(chat);
      case Untrack =>
        if |m.args| == 1 {
          calls := calls + [UntrackLink(chat, m.args[0])];
        }
      case List => calls := calls + [ListLinks(chat)];
      case AddTags =>
        if |m.args| >= 2 {
          calls := calls + [AddLinkTags(chat, m.args[0], m.args[1..])];
        }
      case ClearTags =>
        if |m.args| == 1 {
          calls := calls + [ClearLinkTags(chat, m.args[0])];
        }
      case _ =>
    }

    method AwaitLinkHandle(chat: int, m: Input)
      requires Session(states.state, chat).state.AwaitLink?
      modifies states
      ensures Moves(old(states.state), states.state, chat, m)
      ensures Session(states.state, chat) ==
        if !m.cmd.Url? then FRESH
        else if |m.args| == 1 then ChatState(AwaitTags, m.args[0], Session(old(states.state), chat).tags)
        else Session(old(states.state), chat)
      ensures calls == old(calls)
    {
      if m.cmd.Url? {
        if |m.args| == 1 {
          states.SetURL(chat, m.args[0]);
        }
      } else {
        states.Remove(chat);
      }
    }

    /** The session ends whether or not the scrapper accepts the link. */
    method AwaitTagsHandle(chat: int, m: Input, accepted: bool)
      requires Session(states.state, chat).state.AwaitTags?
      modifies this`calls, states
      ensures Moves(old(states.state), states.state, chat, m)
      ensures Session(states.state, chat) == FRESH
      ensures calls == old(calls) + if m.cmd.Tags? then [TrackLink(chat, Session(old(states.state), chat).url, m.args)] else []
      ensures calls == old(calls) + CallOf(chat, Session(old(states.state), chat), m)
    {
      if m.cmd.Tags? {
        states.SetTags(chat, m.args);
        var session := states.Get(chat);
        calls := calls + [TrackLink(chat, session.url, session.tags)];
        if !accepted {
          states.Remove(chat);
          return;
        }
      }
      states.Remove(chat);
    }
  }

  // ---------- histories of one chat ----------

  function NextSession(s: ChatState, m: Input): ChatState {
    match Next(s, m) case Some(t) => t case None => FRESH
  }

  /** The session after the messages h, starting from s. */
  function Run(s: ChatState, h: seq<Input>): ChatState {
    if h == [] then s else NextSession(Run(s, h[..|h| - 1]), h[|h| - 1])
  }

  lemma {:induction false} RunConcat(s: ChatState, a: seq<Input>, b: seq<Input>)
    ensures Run(s, a + b) == Run(Run(s, a), b)
  {
    if b == [] {
      assert a + b == a;
    } else {
      var n := |b| - 1;
      RunConcat(s, a, b[..n]);
      assert (a + b)[..|a + b| - 1] == a + b[..n];
    }
  }

  /** The pieces an idle history is made of: a message other than track; track, malformed url commands and
      anything that is no url; or track, malformed url commands, a url and any message. */
  datatype Episode =
    | Plain(m: Input)
    | Aborted(start: Input, bads: seq<Input>, last: Input)
    | Full(start: Input, bads: seq<Input>, url: Input, last: Input)

  predicate AllBad(bads: seq<Input>) {
    forall i :: 0 <= i < |bads| ==> BadUrl(bads[i])
  }

  predicate Proper(e: Episode) {
    match e
    case Plain(m) => !m.cmd.Track?
    case Aborted(start, bads, last) => start.cmd.Track? && AllBad(bads) && !last.cmd.Url?
    case Full(start, bads, url, last) => start.cmd.Track? && AllBad(bads) && GoodUrl(url)
  }

  /** Track and the malformed url commands after it. */
  function Opening(start: Input, bads: seq<Input>): seq<Input> {
    [start] + bads
  }

  function Messages(e: Episode): seq<Input> {
    match e
    case Plain(m) => [m]
    case Aborted(start, bads, last) => Opening(start, bads) + [last]
    case Full(start, bads, url, last) => Opening(start, bads) + [url] + [last]
  }

  function Concat(es: seq<Episode>): seq<Input> {
    if es == [] then [] else Concat(es[..|es| - 1]) + Messages(es[|es| - 1])
  }

  predicate AllProper(es: seq<Episode>) {
    forall i :: 0 <= i < |es| ==> Proper(es[i])
  }

  ghost predicate Idle(h: seq<Input>) {
    exists es: seq<Episode> :: AllProper(es) && h == Concat(es)
  }

  lemma IdleExtends(p: seq<Input>, e: Episode)
    requires Idle(p) && Proper(e)
    ensures Idle(p + Messages(e))
  {
    var es: seq<Episode> :| AllProper(es) && p == Concat(es);
    var more := es + [e];
    assert more[..|es|] == es;
    assert p + Messages(e) == Concat(more);
  }

  lemma IdleEmpty()
    ensures Idle([])
  {
    var none: seq<Episode> := [];
    assert Concat(none) == [];
  }

  /** The history ends in an open tracking dialogue: p is idle, then track and malformed urls. */
  ghost predicate Dialogue(h: seq<Input>, p: seq<Input>, start: Input, bads: seq<Input>) {
    Idle(p) && start.cmd.Track? && AllBad(bads) && h == p + Opening(start, bads)
  }

  ghost predicate Tracking(h: seq<Input>) {
    exists p, start, bads :: Dialogue(h, p, start, bads)
  }

  /** The dialogue goes on with a well-formed url. */
  ghost predicate AskedBy(h: seq<Input>, g: seq<Input>, url: Input, u: string) {
    Tracking(g) && GoodUrl(url) && url.args[0] == u && h == g + [url]
  }

  ghost predicate Asked(h: seq<Input>, u: string) {
    exists g, url :: AskedBy(h, g, url, u)
  }

  /** After a bad url the waiting session is as before. */
  lemma {:induction false} BadsKeep(s: ChatState, bads: seq<Input>)
    requires s.state.AwaitLink? && AllBad(bads)
    ensures Run(s, bads) == s
  {
    if bads != [] {
      BadsKeep(s, bads[..|bads| - 1]);
    }
  }

  lemma RunOne(s: ChatState, m: Input)
    ensures Run(s, [m]) == NextSession(s, m)
  {
    assert [m][..0] == [];
  }

  lemma RunThen(s: ChatState, h: seq<Input>, m: Input)
    ensures Run(s, h + [m]) == NextSession(Run(s, h), m)
  {
    RunConcat(s, h, [m]);
    RunOne(Run(s, h), m);
  }

  const WAITING := ChatState(AwaitLink, "", [])

  lemma OpeningRun(s: ChatState, start: Input, bads: seq<Input>)
    requires s.state.Available? && start.cmd.Track? && AllBad(bads)
    ensures Run(s, Opening(start, bads)) == WAITING
  {
    RunConcat(s, [start], bads);
    RunOne(s, start);
    BadsKeep(WAITING, bads);
  }

  lemma EpisodeRun(e: Episode)
    requires Proper(e)
    ensures Run(FRESH, Messages(e)) == FRESH
  {
    match e
    case Plain(m) => RunOne(FRESH, m);
    case Aborted(start, bads, last) =>
      OpeningRun(FRESH, start, bads);
      RunThen(FRESH, Opening(start, bads), last);
    case Full(start, bads, url, last) =>
      OpeningRun(FRESH, start, bads);
      RunThen(FRESH, Opening(start, bads), url);
      RunThen(FRESH, Opening(start, bads) + [url], last);
  }

  lemma {:induction false} EpisodesRun(es: seq<Episode>)
    requires AllProper(es)
    ensures Run(FRESH, Concat(es)) == FRESH
  {
    if es != [] {
      var n := |es| - 1;
      var before, last := Concat(es[..n]), es[n];
      EpisodesRun(es[..n]);
      EpisodeRun(last);
      RunConcat(FRESH, before, Messages(last));
      assert Concat(es) == before + Messages(last);
    }
  }

  lemma IdleRun(p: seq<Input>)
    requires Idle(p)
    ensures Run(FRESH, p) == FRESH
  {
    var es: seq<Episode> :| AllProper(es) && p == Concat(es);
    EpisodesRun(es);
  }

  lemma TrackingRun(h: seq<Input>)
    requires Tracking(h)
    ensures Run(FRESH, h) == WAITING
  {
    var p, start, bads :| Dialogue(h, p, start, bads);
    IdleRun(p);
    RunConcat(FRESH, p, Opening(start, bads));
    OpeningRun(FRESH, start, bads);
  }

  lemma AskedRun(h: seq<Input>, u: string)
    requires Asked(h, u)
    ensures Run(FRESH, h) == ChatState(AwaitTags, u, [])
  {
    var g, url :| AskedBy(h, g, url, u);
    TrackingRun(g);
    RunThen(FRESH, g, url);
  }

  /** The shape of a history, told from its session. */
  ghost predicate Shaped(h: seq<Input>, s: ChatState) {
    match s.state
    case Available => Idle(h) && s == FRESH
    case AwaitLink => Tracking(h) && s == WAITING
    case AwaitTags => Asked(h, s.url)
  }

  /** Every history is idle, in a dialogue, or waiting for tags, and its session tells which. */
  lemma {:induction false} Shape(h: seq<Input>)
    ensures Shaped(h, Run(FRESH, h))
  {
    if h == [] {
      IdleEmpty();
    } else {
      var n := |h| - 1;
      Shape(h[..n]);
      LastOff(h);
      ShapeStep(h[..n], h[n], Run(FRESH, h[..n]));
    }
  }

  lemma LastOff<T>(h: seq<T>)
    requires h != []
    ensures h[..|h| - 1] + [h[|h| - 1]] == h
  {
  }

  lemma ShapeStep(h: seq<Input>, m: Input, s: ChatState)
    requires Shaped(h, s)
    ensures Shaped(h + [m], NextSession(s, m))
  {
    match s.state
    case Available =>
      if m.cmd.Track? {
        assert Opening(m, []) == [m];
        assert Dialogue(h + [m], h, m, []);
      } else {
        IdleExtends(h, Plain(m));
      }
    case AwaitLink =>
      if BadUrl(m) {
        TrackingExtends(h, m);
      } else if GoodUrl(m) {
        assert AskedBy(h + [m], h, m, m.args[0]);
      } else {
        TrackingEnds(h, m);
      }
    case AwaitTags => AskedEnds(h, m, s.url);
  }

  lemma TrackingExtends(h: seq<Input>, m: Input)
    requires Tracking(h) && BadUrl(m)
    ensures Tracking(h + [m])
  {
    var p, start, bads :| Dialogue(h, p, start, bads);
    Assoc(p, Opening(start, bads), [m]);
    Assoc([start], bads, [m]);
    assert Dialogue(h + [m], p, start, bads + [m]);
  }

  lemma TrackingEnds(h: seq<Input>, m: Input)
    requires Tracking(h) && !m.cmd.Url?
    ensures Idle(h + [m])
  {
    var p, start, bads :| Dialogue(h, p, start, bads);
    Assoc(p, Opening(start, bads), [m]);
    IdleExtends(p, Aborted(start, bads, m));
  }

  lemma AskedEnds(h: seq<Input>, m: Input, u: string)
    requires Asked(h, u)
    ensures Idle(h + [m])
  {
    var g, url :| AskedBy(h, g, url, u);
    var p, start, bads :| Dialogue(g, p, start, bads);
    Assoc(p, Opening(start, bads), [url]);
    Assoc(p, Opening(start, bads) + [url], [m]);
    IdleExtends(p, Full(start, bads, url, m));
  }

  /** A chat is available exactly after a history of complete episodes. */
  lemma AvailableIff(h: seq<Input>)
    ensures Run(FRESH, h).state.Available? <==> Idle(h)
  {
    Shape(h);
    if Idle(h) {
      IdleRun(h);
    }
  }

  /** A chat awaiting tags holds the url it was given last. */
  lemma AwaitTagsIff(h: seq<Input>, u: string)
    ensures Run(FRESH, h).state.AwaitTags? && Run(FRESH, h).url == u <==> Asked(h, u)
  {
    Shape(h);
    if Asked(h, u) {
      AskedRun(h, u);
    }
  }

  /** TrackLink(u, ts) is called by message m exactly when the chat's messages so far are an idle history,
      then track, then malformed url commands, then url u, and m is tags ts. */
  lemma TrackCallIff(chat: int, h: seq<Input>, m: Input, u: string, ts: seq<string>)
    ensures TrackLink(chat, u, ts) in CallOf(chat, Run(FRESH, h), m) <==> Asked(h, u) && m == Input(Tags, ts)
  {
    AwaitTagsIff(h, u);
  }

  /** The other calls: an available chat makes them, by the very command with the right arguments. */
  lemma CallsIff(chat: int, s: ChatState, m: Input, link: string, tags: seq<string>)
    ensures var calls := CallOf(chat, s, m);
      && |calls| <= 1
      && (RegisterChat(chat) in calls <==> s.state.Available? && m.cmd.Start?)
      && (ListLinks(chat) in calls <==> s.state.Available? && m.cmd.List?)
      && (UntrackLink(chat, link) in calls <==> s.state.Available? && m == Input(Untrack, [link]))
      && (ClearLinkTags(chat, link) in calls <==> s.state.Available? && m == Input(ClearTags, [link]))
      && (AddLinkTags(chat, link, tags) in calls <==> s.state.Available? && tags != [] && m == Input(AddTags, [link] + tags))
      && forall call :: call in calls ==> call.chat == chat
  {
    if m.args == [link] + tags {
      assert m.args[1..] == tags;
    }
    if m.args != [] && m.args[0] == link && m.args[1..] == tags {
      assert m.args == [link] + tags;
    }
    if |m.args| == 1 && m.args[0] == link {
      assert m.args == [link];
    }
  }

  // ---------- all chats together ----------

  datatype Message = Message(chat: int, input: Input)

  /** The messages of one chat. */
  function Of(all: seq<Message>, chat: int): seq<Input> {
    if all == [] then []
    else Of(all[..|all| - 1], chat) + if all[|all| - 1].chat == chat then [all[|all| - 1].input] else []
  }

  /** trace[k] are the sessions before message k. */
  ghost predicate Talks(trace: seq<map<int, ChatState>>, all: seq<Message>) {
    && |trace| == |all| + 1 && trace[0] == map[]
    && forall k :: 0 <= k < |all| ==> Moves(trace[k], trace[k + 1], all[k].chat, all[k].input)
  }

  /** A chat's session depends on its own messages only. */
  lemma {:induction false} SessionOfOwn(trace: seq<map<int, ChatState>>, all: seq<Message>, k: nat, chat: int)
    requires Talks(trace, all) && k <= |all|
    ensures Session(trace[k], chat) == Run(FRESH, Of(all[..k], chat))
  {
    if k > 0 {
      SessionOfOwn(trace, all, k - 1, chat);
      var m := all[k - 1];
      assert all[..k][..|all[..k]| - 1] == all[..k - 1];
      assert Moves(trace[k - 1], trace[k - 1 + 1], m.chat, m.input);
      if m.chat == chat {
        RunThen(FRESH, Of(all[..k - 1], chat), m.input);
      } else {
        assert Of(all[..k], chat) == Of(all[..k - 1], chat);
      }
    }
  }

  /** In every run of the bot a TrackLink call happens exactly at the end of such a dialogue of its chat. */
  lemma TrackOnlyAfterDialogue(trace: seq<map<int, ChatState>>, all: seq<Message>, k: nat, u: string, ts: seq<string>)
    requires Talks(trace, all) && k < |all|
    ensures var m := all[k];
      TrackLink(m.chat, u, ts) in CallOf(m.chat, Session(trace[k], m.chat), m.input) <==>
      Asked(Of(all[..k], m.chat), u) && m.input == Input(Tags, ts)
  {
    SessionOfOwn(trace, all, k, all[k].chat);
    TrackCallIff(all[k].chat, Of(all[..k], all[k].chat), all[k].input, u, ts);
  }

  /** And the other calls exactly for a chat whose history is idle. */
  lemma CommandsOnlyWhenIdle(trace: seq<map<int, ChatState>>, all: seq<Message>, k: nat, link: string, tags: seq<string>)
    requires Talks(trace, all) && k < |all|
    ensures var m := all[k]; var calls := CallOf(m.chat, Session(trace[k], m.chat), m.input);
      var idle := Idle(Of(all[..k], m.chat));
      && (RegisterChat(m.chat) in calls <==> idle && m.input.cmd.Start?)
      && (ListLinks(m.chat) in calls <==> idle && m.input.cmd.List?)
      && (UntrackLink(m.chat, link) in calls <==> idle && m.input == Input(Untrack, [link]))
      && (ClearLinkTags(m.chat, link) in calls <==> idle && m.input == Input(ClearTags, [link]))
      && (AddLinkTags(m.chat, link, tags) in calls <==> idle && tags != [] && m.input == Input(AddTags, [link] + tags))
  {
    SessionOfOwn(trace, all, k, all[k].chat);
    AvailableIff(Of(all[..k], all[k].chat));
    CallsIff(all[k].chat, Session(trace[k], all[k].chat), all[k].input, link, tags);
  }
}
