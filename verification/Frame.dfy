/** The bytes and the fields on the wire: the 5-byte header in front of the Avro payload, and the field maps
    the producers write and the consumers read. Avro itself is an opaque payload. */
module Frame {
  import opened Records
  import BotInbox

  type Byte = b: int | 0 <= b < 256

  const MAGIC: Byte := 0
  const HEADER := 5
  const WORD := 0x1_0000_0000

  // ---------- the header ----------

  /** Big-endian bytes of a 32-bit word. */
  function BigEndian(n: nat): (s: seq<Byte>)
    requires n < WORD
    ensures |s| == 4
  {
    [n / 0x100_0000, n / 0x1_0000 % 0x100, n / 0x100 % 0x100, n % 0x100]
  }

  function Uint32(s: seq<Byte>): (n: nat)
    requires |s| == 4
    ensures n < WORD
  {
    var a: int, b: int, c: int, d: int := s[0], s[1], s[2], s[3];
    a * 0x100_0000 + b * 0x1_0000 + c * 0x100 + d
  }

  /** Go's conversion uint32(n). */
  function ToUint32(n: int): nat {
    n % WORD
  }

  function Framed(schemaId: int, data: seq<Byte>): seq<Byte> {
    [MAGIC] + BigEndian(ToUint32(schemaId)) + data
  }

  /** Publish up to WriteMessages: the buffer is filled in place. */
  method Publish(schemaId: int, data: seq<Byte>) returns (payload: array<Byte>)
    ensures fresh(payload) && payload[..] == Framed(schemaId, data)
    ensures payload.Length == 5 + |data| && payload[0] == 0 && payload[5..] == data
  {
    payload := new Byte[HEADER + |data|](_ => 0);
    payload[0] := MAGIC;
    PutUint32(payload, 1, ToUint32(schemaId));
    ghost var header := payload[..HEADER];
    assert header == [MAGIC] + BigEndian(ToUint32(schemaId));
    for i := 0 to |data|
      invariant payload[..HEADER] == header
      invariant payload[HEADER..HEADER + i] == data[..i]
    {
      payload[HEADER + i] := data[i];
      assert payload[HEADER..HEADER + i + 1] == payload[HEADER..HEADER + i] + [data[i]];
    }
    assert payload[..] == payload[..HEADER] + payload[HEADER..HEADER + |data|];
    assert data[..|data|] == data;
  }

  /** binary.BigEndian.PutUint32(a[at:at+4], n). */
  method PutUint32(a: array<Byte>, at: nat, n: nat)
    requires at + 4 <= a.Length && n < WORD
    modifies a
    ensures a[at..at + 4] == BigEndian(n)
    ensures forall i :: 0 <= i < a.Length && !(at <= i < at + 4) ==> a[i] == old(a[i])
  {
    var w := BigEndian(n);
    a[at], a[at + 1], a[at + 2], a[at + 3] := w[0], w[1], w[2], w[3];
  }

  datatype Header = TooShort | WrongMagic | Header(schemaId: int, data: seq<Byte>)

  /** The first part of both decodeMessage functions. */
  function Unframe(value: seq<Byte>): Header {
    if |value| < HEADER then TooShort
    else if value[0] != MAGIC then WrongMagic
    else Header(Uint32(value[1..HEADER]), value[HEADER..])
  }

  /** The highest byte comes first. */
  lemma BigEndianExact(n: nat)
    requires n < WORD
    ensures var w: seq<int> := BigEndian(n); n == 0x100_0000 * w[0] + 0x1_0000 * w[1] + 0x100 * w[2] + w[3]
  {
    var a, b, c := n / 0x100_0000, n / 0x1_0000, n / 0x100;
    assert b / 0x100 == a && c / 0x100 == b;
  }

  lemma WordRoundTrip(n: nat)
    requires n < WORD
    ensures Uint32(BigEndian(n)) == n
  {
    var a, b, c := n / 0x100_0000, n / 0x1_0000, n / 0x100;
    assert b / 0x100 == a && c / 0x100 == b;
  }

  lemma BytesRoundTrip(s: seq<Byte>)
    requires |s| == 4
    ensures BigEndian(Uint32(s)) == s
  {
    var n := Uint32(s);
    var a: int, b: int, c: int := s[0], s[1], s[2];
    assert n / 0x100_0000 == a;
    assert n / 0x1_0000 == a * 0x100 + b;
    assert n / 0x100 == a * 0x1_0000 + b * 0x100 + c;
  }

  /** The consumer reads back the payload, and the very schema id exactly when it fits 32 bits. */
  lemma FrameRoundTrip(schemaId: int, data: seq<Byte>)
    ensures Unframe(Framed(schemaId, data)) == Header(ToUint32(schemaId), data)
    ensures Unframe(Framed(schemaId, data)) == Header(schemaId, data) <==> 0 <= schemaId < WORD
  {
    var value := Framed(schemaId, data);
    assert value[1..HEADER] == BigEndian(ToUint32(schemaId));
    assert value[HEADER..] == data;
    WordRoundTrip(ToUint32(schemaId));
  }

  /** Whatever the consumer accepts is the frame of what it reads. */
  lemma UnframeInverse(value: seq<Byte>)
    requires Unframe(value).Header?
    ensures var h := Unframe(value); Framed(h.schemaId, h.data) == value
  {
    BytesRoundTrip(value[1..HEADER]);
    Pieces(value, HEADER);
  }

  lemma Pieces<T>(s: seq<T>, k: nat)
    requires 1 <= k <= |s|
    ensures [s[0]] + s[1..k] + s[k..] == s
  {
  }

  // ---------- the fields ----------

  /** The dynamic values of the Avro codec. */
  datatype Native = Long(n: int) | Text(s: string) | Array(items: seq<Native>) | Null

  type Fields = map<string, Native>

  function Longs(ns: seq<int>): (items: seq<Native>)
    ensures |items| == |ns|
  {
    seq(|ns|, i requires 0 <= i < |ns| => Long(ns[i]))
  }

  function PriorityText(p: Priority): string {
    match p
    case High => "HIGH"
    case Medium => "MEDIUM"
    case Low => "LOW"
    case Unranked => ""
  }

  /** mapResourceShotToAvro of the agent's producer. */
  method MapProcessed(p: Processed) returns (m: Fields)
    ensures m == ProcessedFields(p)
    ensures m.Keys == {"id", "url", "description", "chat_ids", "priority"}
    ensures m["id"] == Long(p.id) && m["url"] == Text(p.link) && m["description"] == Text(p.description)
    ensures m["chat_ids"].Array? && |m["chat_ids"].items| == |p.chats|
    ensures forall i :: 0 <= i < |p.chats| ==> m["chat_ids"].items[i] == Long(p.chats[i])
    ensures m["priority"] ==
      match p.priority case High => Text("HIGH") case Medium => Text("MEDIUM") case Low => Text("LOW") case Unranked => Text("")
  {
    var chatIds := [];
    for i := 0 to |p.chats|
      invariant chatIds == Longs(p.chats[..i])
    {
      chatIds := chatIds + [Long(p.chats[i])];
    }
    assert p.chats[..|p.chats|] == p.chats;
    m := map["id" := Long(p.id), "url" := Text(p.link), "description" := Text(p.description),
             "chat_ids" := Array(chatIds), "priority" := Text(PriorityText(p.priority))];
  }

  function ProcessedFields(p: Processed): Fields {
    map["id" := Long(p.id), "url" := Text(p.link), "description" := Text(p.description),
        "chat_ids" := Array(Longs(p.chats)), "priority" := Text(PriorityText(p.priority))]
  }

  function LongAt(m: Fields, key: string): Option<int> {
    if key in m && m[key].Long? then Some(m[key].n) else None
  }

  function TextAt(m: Fields, key: string): Option<string> {
    if key in m && m[key].Text? then Some(m[key].s) else None
  }

  function ReadLongs(items: seq<Native>): Option<seq<int>> {
    if items == [] then Some([])
    else
      match (ReadLongs(items[..|items| - 1]), items[|items| - 1])
      case (Some(ns), Long(n)) => Some(ns + [n])
      case _ => None
  }

  function LongsAt(m: Fields, key: string): Option<seq<int>> {
    if key in m && m[key].Array? then ReadLongs(m[key].items) else None
  }

  /** mapAvroMsg of the bot. */
  function ReadUpdate(m: Fields): Option<BotInbox.Update> {
    match (LongAt(m, "id"), TextAt(m, "url"), TextAt(m, "description"), LongsAt(m, "chat_ids"))
    case (Some(id), Some(url), Some(text), Some(chats)) => Some(BotInbox.Update(id, url, text, chats))
    case _ => None
  }

  lemma {:induction false} LongsRoundTrip(ns: seq<int>)
    ensures ReadLongs(Longs(ns)) == Some(ns)
  {
    if ns != [] {
      var n := |ns| - 1;
      LongsRoundTrip(ns[..n]);
      assert Longs(ns)[..n] == Longs(ns[..n]);
      assert ns == ns[..n] + [ns[n]];
    }
  }

  /** The bot reads the id, link, text and chats that the agent published. */
  lemma ProcessedRoundTrip(p: Processed)
    ensures ReadUpdate(ProcessedFields(p)) == Some(BotInbox.Update(p.id, p.link, p.description, p.chats))
  {
    LongsRoundTrip(p.chats);
  }

  // ---------- the raw leg ----------

  const SECOND := 1_000_000_000

  /** time.RFC3339 has no fraction: a time in nanoseconds is written as the second it lies in. */
  function Seconds(t: int): int {
    t / SECOND
  }

  /** A text for every second, read back by parse. */
  ghost predicate Bijective(format: int -> string, parse: string -> Option<int>) {
    forall s :: parse(format(s)) == Some(s)
  }

  /** mapResourceShotToAvro of the scrapper's producer. */
  function RawFields(u: RawUpdate, format: int -> string): Fields {
    map["id" := Long(u.id), "url" := Text(u.link), "event_type" := Text(u.eventType), "description" := Text(u.description),
        "author" := Text(u.author), "chat_ids" := Array(Longs(u.chats)), "updated_at" := Text(format(Seconds(u.updatedAt)))]
  }

  /** mapAvroMsg of the agent; the time comes back in nanoseconds. */
  function ReadRaw(m: Fields, parse: string -> Option<int>): Option<RawUpdate> {
    match (LongAt(m, "id"), TextAt(m, "url"), TextAt(m, "description"), TextAt(m, "author"), TextAt(m, "event_type"))
    case (Some(id), Some(url), Some(text), Some(author), Some(event)) =>
      (match (TextAt(m, "updated_at"), LongsAt(m, "chat_ids"))
       case (Some(stamp), Some(chats)) =>
         if parse(stamp).Some? then Some(RawUpdate(id, url, event, text, author, chats, parse(stamp).value * SECOND)) else None
       case _ => None)
    case _ => None
  }

  /** The agent reads back the whole update, its time cut to the second; so the very update exactly when
      the time is a whole second. */
  lemma RawRoundTrip(u: RawUpdate, format: int -> string, parse: string -> Option<int>)
    requires Bijective(format, parse)
    ensures ReadRaw(RawFields(u, format), parse) == Some(u.(updatedAt := u.updatedAt - u.updatedAt % SECOND))
    ensures ReadRaw(RawFields(u, format), parse) == Some(u) <==> u.updatedAt % SECOND == 0
  {
    LongsRoundTrip(u.chats);
    assert parse(format(Seconds(u.updatedAt))) == Some(Seconds(u.updatedAt));
  }

  /** A chat list with anything but numbers in it is refused as a whole. */
  lemma RefusedIff(m: Fields)
    ensures ReadUpdate(m).Some? <==>
      && LongAt(m, "id").Some? && TextAt(m, "url").Some? && TextAt(m, "description").Some?
      && "chat_ids" in m && m["chat_ids"].Array? && forall i :: 0 <= i < |m["chat_ids"].items| ==> m["chat_ids"].items[i].Long?
  {
    if "chat_ids" in m && m["chat_ids"].Array? {
      ReadLongsIff(m["chat_ids"].items);
    }
  }

  /** The agent refuses exactly maps with a missing or mistyped field or chat, or a time it cannot parse. */
  lemma RawRefusedIff(m: Fields, parse: string -> Option<int>)
    ensures ReadRaw(m, parse).Some? <==>
      && LongAt(m, "id").Some? && TextAt(m, "url").Some? && TextAt(m, "description").Some? && TextAt(m, "author").Some?
      && TextAt(m, "event_type").Some? && TextAt(m, "updated_at").Some? && parse(TextAt(m, "updated_at").value).Some?
      && "chat_ids" in m && m["chat_ids"].Array? && forall i :: 0 <= i < |m["chat_ids"].items| ==> m["chat_ids"].items[i].Long?
  {
    if "chat_ids" in m && m["chat_ids"].Array? {
      ReadLongsIff(m["chat_ids"].items);
    }
  }

  lemma {:induction false} ReadLongsIff(items: seq<Native>)
    ensures ReadLongs(items).Some? <==> forall i :: 0 <= i < |items| ==> items[i].Long?
  {
    if items != [] {
      var n := |items| - 1;
      ReadLongsIff(items[..n]);
      assert forall i :: 0 <= i < n ==> items[..n][i] == items[i];
    }
  }
}
