/** The records that travel through the pipeline, and text helpers shared by its stages. */
module Records {

  datatype Option<+T> = None | Some(value: T)

  /** A crawled change as it sits in the scrapper outbox, on the raw topic and in the agent inbox. */
  datatype RawUpdate = RawUpdate(id: int, link: string, eventType: string, description: string,
                                 author: string, chats: seq<int>, updatedAt: int)

  /** Consumers accept an update only if somebody is to be told about it. */
  predicate Valid(u: RawUpdate) {
    u.chats != []
  }

  /** The source's Priority is a string; Unranked stands for every string but the three constants. */
  datatype Priority = High | Medium | Low | Unranked

  function Weight(p: Priority): nat {
    match p
    case High => 3
    case Medium => 2
    case Low => 1
    case Unranked => 0
  }

  /** An update that passed the filter, or the group record of one chat. */
  datatype Processed = Processed(id: int, link: string, description: string, chats: seq<int>, priority: Priority)

  /** Go visits the keys of a map in an arbitrary order. */
  method AnyKey<K>(keys: set<K>) returns (k: K)
    requires keys != {}
    ensures k in keys
  {
    k :| k in keys;
  }

  lemma AnyOf<T>(s: set<T>) returns (x: T)
    requires s != {}
    ensures x in s
  {
    x :| x in s;
  }

  lemma VisitOne<K>(all: set<K>, keys: set<K>, k: K)
    requires k in keys && keys <= all
    ensures all - (keys - {k}) == (all - keys) + {k}
  {
  }

  function Min(a: int, b: int): int {
    if a < b then a else b
  }

  function Repeat<T>(x: T, n: nat): (r: seq<T>)
    ensures |r| == n && forall k :: 0 <= k < n ==> r[k] == x
  {
    if n == 0 then [] else Repeat(x, n - 1) + [x]
  }

  function WithoutKey<V>(m: map<nat, V>, k: nat): map<nat, V> {
    map x | x in m && x != k :: m[x]
  }

  lemma Assoc<T>(a: seq<T>, b: seq<T>, c: seq<T>)
    ensures a + b + c == a + (b + c)
  {
  }

  function AllTrue(n: nat): seq<bool> {
    seq(n, _ => true)
  }

  function Elements(ids: seq<nat>): set<nat> {
    if ids == [] then {} else Elements(ids[..|ids| - 1]) + {ids[|ids| - 1]}
  }

  lemma {:induction false} ElementsOf(ids: seq<nat>, id: nat)
    ensures id in Elements(ids) <==> id in ids
  {
    if ids != [] {
      var n := |ids| - 1;
      ElementsOf(ids[..n], id);
      assert ids == ids[..n] + [ids[n]];
    }
  }

  lemma {:induction false} ElementsCount(ids: seq<nat>, s: set<nat>)
    requires forall i, j :: 0 <= i < j < |ids| ==> ids[i] != ids[j]
    requires forall i :: 0 <= i < |ids| ==> ids[i] in s
    ensures |s - Elements(ids)| == |s| - |ids|
  {
    if ids != [] {
      var n := |ids| - 1;
      ElementsCount(ids[..n], s);
      ElementsOf(ids[..n], ids[n]);
      assert s - Elements(ids) == (s - Elements(ids[..n])) - {ids[n]};
    } else {
      assert s - {} == s;
    }
  }

  function Digit(d: nat): (c: char)
    requires d < 10
    ensures '0' <= c <= '9' && c as int == '0' as int + d
  {
    ('0' as int + d) as char
  }

  function NatText(n: nat): (s: string)
    ensures s != []
    ensures forall i :: 0 <= i < |s| ==> '0' <= s[i] <= '9'
  {
    if n < 10 then [Digit(n)] else NatText(n / 10) + [Digit(n % 10)]
  }

  /** strconv.Itoa and the %d verb. */
  function Itoa(n: int): string {
    if n < 0 then "-" + NatText(-n) else NatText(n)
  }

  /** The number that decimal digits denote. */
  function ValueOf(s: string): int {
    if s == [] then 0 else 10 * ValueOf(s[..|s| - 1]) + (s[|s| - 1] as int - '0' as int)
  }

  /** The digits denote the number, without a leading zero. */
  lemma {:induction false} NatTextValue(n: nat)
    ensures ValueOf(NatText(n)) == n
    ensures n > 0 ==> NatText(n)[0] != '0'
  {
    if n >= 10 {
      NatTextValue(n / 10);
      var s := NatText(n);
      assert s[..|s| - 1] == NatText(n / 10);
    }
  }

  lemma NatTextInjective(a: nat, b: nat)
    requires NatText(a) == NatText(b)
    ensures a == b
  {
    NatTextValue(a);
    NatTextValue(b);
  }

  lemma ItoaInjective(a: int, b: int)
    requires Itoa(a) == Itoa(b)
    ensures a == b
  {
    var s, t := Itoa(a), Itoa(b);
    assert s[0] == t[0];
    if a < 0 && b < 0 {
      assert s[1..] == NatText(-a) && t[1..] == NatText(-b);
      NatTextInjective(-a, -b);
    } else if a >= 0 && b >= 0 {
      NatTextInjective(a, b);
    }
  }
}
