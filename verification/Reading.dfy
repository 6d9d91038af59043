/**
 * A reader of JSON text, by the grammar of RFC 8259, that knows nothing of the printer: no white space is skipped,
 * and a number that is not an integer keeps its text.
 */
module Reader {
  import opened Common
  import Decimal
  import Escaping
  import Text
  import Utf8
  import C = Canonical

  // ---------------------------------------------------------------- string literals (section 7)

  function HexValue(c: char): int {
    if '0' <= c <= '9' then c as int - '0' as int
    else if 'a' <= c <= 'f' then c as int - 'a' as int + 10
    else if 'A' <= c <= 'F' then c as int - 'A' as int + 10
    else -1
  }

  /** The character a two-character escape stands for. */
  function Named(c: char): Option<char> {
    if c == '"' || c == '\\' || c == '/' then Some(c)
    else if c == 'b' then Some(8 as char)
    else if c == 'f' then Some(12 as char)
    else if c == 'n' then Some(10 as char)
    else if c == 'r' then Some(13 as char)
    else if c == 't' then Some(9 as char)
    else None
  }

  /** The code point of `\uXXXX`, or -1. Surrogates stand for no character of their own. */
  function Unicode(s: string): int {
    if |s| < 6 || s[0] != '\\' || s[1] != 'u' then -1
    else if HexValue(s[2]) < 0 || HexValue(s[3]) < 0 || HexValue(s[4]) < 0 || HexValue(s[5]) < 0 then -1
    else ((HexValue(s[2]) * 16 + HexValue(s[3])) * 16 + HexValue(s[4])) * 16 + HexValue(s[5])
  }

  /** One character of a literal, and what follows it. */
  function Character(s: string): (r: Option<(char, string)>)
    ensures r.Some? ==> |r.value.1| < |s|
  {
    if s == "" || s[0] == '"' || s[0] as int < 32 then None
    else if s[0] != '\\' then Some((s[0], s[1..]))
    else if |s| > 1 && Named(s[1]).Some? then Some((Named(s[1]).value, s[2..]))
    else
      var n := Unicode(s);
      if 0 <= n < 0xD800 || 0xE000 <= n < 0x10000 then Some((n as char, s[6..])) else None
  }

  /** A literal after its opening quote. */
  function Literal(s: string): (r: Option<(string, string)>)
    ensures r.Some? ==> |r.value.1| < |s|
    decreases |s|
  {
    if s == "" then None
    else if s[0] == '"' then Some(("", s[1..]))
    else
      var first := Character(s);
      if first.None? then None
      else
        var more := Literal(first.value.1);
        if more.None? then None else Some(([first.value.0] + more.value.0, more.value.1))
  }

  lemma CharacterReads(c: char, rest: string)
    ensures Escaping.Char(c)[0] != '"' && Character(Escaping.Char(c) + rest) == Some((c, rest))
  {
    var s := Escaping.Char(c) + rest;
    assert s[|Escaping.Char(c)|..] == rest;
    if !Escaping.Raw(c) && Escaping.Short(c) == "" {
      var n := c as int;
      assert n < 32 && s[2] == '0' && s[3] == '0' && s[4] == Escaping.HEX[n / 16] && s[5] == Escaping.HEX[n % 16];
      HexReads(n / 16);
      HexReads(n % 16);
      assert s[1] == 'u' && Named('u').None?;
    }
  }

  lemma HexReads(d: nat)
    requires d < 16
    ensures HexValue(Escaping.HEX[d]) == d
  {}

  /** What must be escaped is, by its short name if it has one, else by four lower-case digits; nothing else is. */
  lemma EscapesWhatItMust(c: char)
    ensures |Escaping.Char(c)| ==
            (if c != '"' && c != '\\' && c as int >= 32 then 1
             else if c == '"' || c == '\\' || c as int in {8, 9, 10, 12, 13} then 2 else 6)
    ensures |Escaping.Char(c)| > 1 ==> forall i :: 0 <= i < |Escaping.Char(c)| ==> !('A' <= Escaping.Char(c)[i] <= 'F')
  {
    if |Escaping.Char(c)| == 6 {
      var n := c as int;
      LowerCase(n / 16);
      LowerCase(n % 16);
    }
  }

  lemma LowerCase(d: nat)
    requires d < 16
    ensures !('A' <= Escaping.HEX[d] <= 'F')
  {}

  /** A quoted string is read as that string, whatever follows it. */
  lemma {:induction false} LiteralReads(s: string, rest: string)
    ensures Literal(Escaping.Body(s, rest)) == Some((s, rest))
    decreases |s|
  {
    if s == "" {
      assert ("\"" + rest)[1..] == rest;
    } else {
      CharacterReads(s[0], Escaping.Body(s[1..], rest));
      LiteralReads(s[1..], rest);
      assert s == [s[0]] + s[1..];
    }
  }

  // ---------------------------------------------------------------- values (sections 3 to 6)

  /** How far a scalar reaches: to the next separator or closing bracket. */
  function Reach(s: string): (n: nat)
    ensures n <= |s|
  {
    if s == "" || s[0] == ',' || s[0] == ']' || s[0] == '}' then 0 else 1 + Reach(s[1..])
  }

  function Scalar(t: string): Option<C.Json> {
    if t == "" then None
    else if t == "null" then Some(C.Null)
    else if t == "true" then Some(C.Bool(true))
    else if t == "false" then Some(C.Bool(false))
    else if Decimal.IsInteger(t) then Some(C.Int(Decimal.IntegerOf(t)))
    else Some(C.Float(t))
  }

  function Value(s: string): (r: Option<(C.Json, string)>)
    ensures r.Some? ==> |r.value.1| < |s|
    decreases |s|, 0
  {
    if s == "" then None
    else if s[0] == '"' then
      var t := Literal(s[1..]);
      if t.None? then None else Some((C.Str(t.value.0), t.value.1))
    else if s[0] == '[' then
      var items := if |s| > 1 && s[1] == ']' then Some((C.Nil, s[2..])) else Items(s[1..]);
      if items.None? then None else Some((C.Array(items.value.0), items.value.1))
    else if s[0] == '{' then
      var ms := if |s| > 1 && s[1] == '}' then Some((C.End, s[2..])) else Members(s[1..]);
      if ms.None? then None else Some((C.Object(ms.value.0), ms.value.1))
    else
      var n := Reach(s);
      var v := Scalar(s[..n]);
      if v.None? then None else Some((v.value, s[n..]))
  }

  /** One value, and then the closing bracket or a comma and more. */
  function Items(s: string): (r: Option<(C.Items, string)>)
    ensures r.Some? ==> |r.value.1| < |s|
    decreases |s|, 1
  {
    var head := Value(s);
    if head.None? || head.value.1 == "" then None
    else
      var after := head.value.1;
      if after[0] == ']' then Some((C.Item(head.value.0, C.Nil), after[1..]))
      else if after[0] != ',' then None
      else
        var tail := Items(after[1..]);
        if tail.None? then None else Some((C.Item(head.value.0, tail.value.0), tail.value.1))
  }

  /** One key, a colon and its value, and then the closing brace or a comma and more. */
  function Members(s: string): (r: Option<(C.Members, string)>)
    ensures r.Some? ==> |r.value.1| < |s|
    decreases |s|, 1
  {
    if s == "" || s[0] != '"' then None
    else
      var key := Literal(s[1..]);
      if key.None? || key.value.1 == "" || key.value.1[0] != ':' then None
      else
        var value := Value(key.value.1[1..]);
        if value.None? || value.value.1 == "" then None
        else
          var after := value.value.1;
          if after[0] == '}' then Some((C.Member(key.value.0, value.value.0, C.End), after[1..]))
          else if after[0] != ',' then None
          else
            var rest := Members(after[1..]);
            if rest.None? then None else Some((C.Member(key.value.0, value.value.0, rest.value.0), rest.value.1))
  }

  // ---------------------------------------------------------------- reading what is printed

  lemma {:induction false} ReachIs(a: string, rest: string)
    requires (forall i :: 0 <= i < |a| ==> !C.Closes(a[i])) && C.Ends(rest)
    ensures Reach(a + rest) == |a|
    decreases |a|
  {
    if a == "" {
      assert a + rest == rest;
    } else {
      assert (a + rest)[1..] == a[1..] + rest;
      ReachIs(a[1..], rest);
    }
  }

  lemma ScalarReads(v: C.Json)
    requires C.IsAtom(v) && C.Valid(v)
    ensures Scalar(C.Atom(v)) == Some(v)
  {
    match v {
      case Int(n) =>
        Decimal.IntReads(n);
        C.IntPlain(n);
        assert C.Numeral(C.Atom(v)[0]);
      case Float(r) =>
        var i :| 0 <= i < |r| && !C.Numeral(r[i]);
        NotInteger(r, i);
      case _ =>
    }
  }

  lemma NotInteger(r: string, i: nat)
    requires i < |r| && !C.Numeral(r[i])
    ensures !Decimal.IsInteger(r)
  {
    assert !Decimal.IsDigit(r[i]);
    if r[0] == '-' { assert r[1..][i - 1] == r[i]; }
  }

  lemma AtomReads(v: C.Json, rest: string)
    requires C.IsAtom(v) && C.Valid(v) && C.Ends(rest)
    ensures Value(C.Atom(v) + rest) == Some((v, rest))
  {
    var a := C.Atom(v);
    C.AtomPlain(v);
    ScalarReads(v);
    ReachIs(a, rest);
    assert (a + rest)[0] == a[0] && C.ShapeAt(a[0]) == C.Scalar;
    assert (a + rest)[..|a|] == a && (a + rest)[|a|..] == rest;
  }

  /** The text printed for a value is read as that value, and the reader stops where the value does. */
  lemma {:induction false} PrintedReads(v: C.Json, rest: string)
    requires C.Valid(v) && C.Ends(rest)
    ensures Value(C.Write(v, rest)) == Some((v, rest))
    decreases v, 0
  {
    match v {
      case Str(t) =>
        LiteralReads(t, rest);
        assert C.Write(v, rest)[1..] == Escaping.Body(t, rest);
      case Array(items) =>
        assert C.Write(v, rest)[1..] == C.WriteItems(items, rest);
        ListReads(items, rest);
      case Object(ms) =>
        assert C.Write(v, rest)[1..] == C.WriteMembers(ms, rest);
        KeyedReads(ms, rest);
      case _ => AtomReads(v, rest);
    }
  }

  lemma {:induction false} ListReads(items: C.Items, rest: string)
    requires C.ValidItems(items)
    ensures var s := C.WriteItems(items, rest);
            s != "" && (if items.Nil? then s[0] == ']' && s[1..] == rest else s[0] != ']' && Items(s) == Some((items, rest)))
    decreases items, 1
  {
    if items.Item? {
      C.FirstShows(items.head, C.MoreItems(items.tail, rest));
      ItemsRead(items, rest);
    }
  }

  lemma {:induction false} ItemsRead(items: C.Items, rest: string)
    requires C.ValidItems(items) && items.Item?
    ensures Items(C.WriteItems(items, rest)) == Some((items, rest))
    decreases items, 0
  {
    var after := C.MoreItems(items.tail, rest);
    PrintedReads(items.head, after);
    if items.tail.Item? {
      assert after[1..] == C.WriteItems(items.tail, rest);
      ItemsRead(items.tail, rest);
    } else {
      assert after[1..] == rest;
    }
  }

  lemma {:induction false} KeyedReads(ms: C.Members, rest: string)
    requires C.ValidMembers(ms)
    ensures var s := C.WriteMembers(ms, rest);
            s != "" && (if ms.End? then s[0] == '}' && s[1..] == rest else s[0] == '"' && Members(s) == Some((ms, rest)))
    decreases ms, 1
  {
    if ms.Member? { MembersRead(ms, rest); }
  }

  lemma {:induction false} MembersRead(ms: C.Members, rest: string)
    requires C.ValidMembers(ms) && ms.Member?
    ensures C.WriteMembers(ms, rest)[0] == '"' && Members(C.WriteMembers(ms, rest)) == Some((ms, rest))
    decreases ms, 0
  {
    var after := C.MoreMembers(ms.rest, rest);
    var value := C.Write(ms.value, after);
    var s := C.WriteMembers(ms, rest);
    assert s[1..] == Escaping.Body(ms.key, ":" + value);
    LiteralReads(ms.key, ":" + value);
    assert (":" + value)[1..] == value;
    PrintedReads(ms.value, after);
    if ms.rest.Member? {
      assert after[1..] == C.WriteMembers(ms.rest, rest);
      MembersRead(ms.rest, rest);
    } else {
      assert after[1..] == rest;
    }
  }

  // ---------------------------------------------------------------- bytes (RFC 3629, section 4)

  predicate Tail(b: int) { 0x80 <= b <= 0xBF }

  /** The byte sequences that are one character, by the table of the standard: shortest forms, no surrogates. */
  predicate OneCharacter(b: seq<int>) {
    || (|b| == 1 && 0 <= b[0] <= 0x7F)
    || (|b| == 2 && 0xC2 <= b[0] <= 0xDF && Tail(b[1]))
    || (|b| == 3 && Tail(b[1]) && Tail(b[2])
        && ((b[0] == 0xE0 && b[1] >= 0xA0) || 0xE1 <= b[0] <= 0xEC || (b[0] == 0xED && b[1] <= 0x9F) || 0xEE <= b[0] <= 0xEF))
    || (|b| == 4 && Tail(b[1]) && Tail(b[2]) && Tail(b[3])
        && ((b[0] == 0xF0 && b[1] >= 0x90) || 0xF1 <= b[0] <= 0xF3 || (b[0] == 0xF4 && b[1] <= 0x8F)))
  }

  /** The code point in the free bits of a lead byte and its continuation bytes. */
  function CodePoint(b: seq<int>): int {
    if |b| == 1 then b[0]
    else if |b| == 2 then b[0] % 0x20 * 0x40 + b[1] % 0x40
    else if |b| == 3 then b[0] % 0x10 * 0x1000 + b[1] % 0x40 * 0x40 + b[2] % 0x40
    else if |b| == 4 then b[0] % 0x08 * 0x40000 + b[1] % 0x40 * 0x1000 + b[2] % 0x40 * 0x40 + b[3] % 0x40
    else -1
  }

  /** The byte sequences that are text. */
  ghost predicate Spells(bytes: seq<int>, text: string) {
    if text == "" then bytes == []
    else exists n :: 0 < n <= |bytes| && OneCharacter(bytes[..n]) && CodePoint(bytes[..n]) == text[0] as int
                     && Spells(bytes[n..], text[1..])
  }

  lemma CharSpells(c: char)
    ensures OneCharacter(Utf8.Char(c)) && CodePoint(Utf8.Char(c)) == c as int
  {
    var n := c as int;
    assert 0 <= n < 0xD800 || 0xE000 <= n < 0x110000;
    assert n / 64 / 64 == n / 4096 && n / 4096 / 64 == n / 262144;
    if 2048 <= n < 65536 {
      ThreeBytes(n);
    } else if n >= 65536 {
      FourBytes(n);
    }
  }

  lemma ThreeBytes(n: int)
    requires 2048 <= n < 0xD800 || 0xE000 <= n < 65536
    ensures var a, b, c := 224 + n / 4096, 128 + n / 64 % 64, 128 + n % 64;
            OneCharacter([a, b, c]) && CodePoint([a, b, c]) == n
  {
    assert n / 4096 == n / 64 / 64;
    assert n == n / 64 * 64 + n % 64 && n / 64 == n / 64 / 64 * 64 + n / 64 % 64;
  }

  lemma FourBytes(n: int)
    requires 65536 <= n < 0x110000
    ensures var a, b, c, d := 240 + n / 262144, 128 + n / 4096 % 64, 128 + n / 64 % 64, 128 + n % 64;
            OneCharacter([a, b, c, d]) && CodePoint([a, b, c, d]) == n
  {
    var p, q, r := n / 64, n / 4096, n / 262144;
    assert q == p / 64 && r == q / 64;
    assert n == p * 64 + n % 64 && p == q * 64 + p % 64 && q == r * 64 + q % 64;
  }

  lemma {:induction false} EncodingSpells(s: string)
    ensures Spells(Utf8.Encode(s), s)
    decreases |s|
  {
    if s != "" {
      var b := Utf8.Char(s[0]);
      CharSpells(s[0]);
      EncodingSpells(s[1..]);
      assert Utf8.Encode(s)[..|b|] == b && Utf8.Encode(s)[|b|..] == Utf8.Encode(s[1..]);
    }
  }

  // ---------------------------------------------------------------- the order of keys

  /** Code point by code point, a proper prefix first. */
  ghost predicate Earlier(a: string, b: string) {
    exists i :: 0 <= i <= |a| && i <= |b| && a[..i] == b[..i] && i < |b| && (i == |a| || a[i] as int < b[i] as int)
  }

  lemma {:induction false} LessIsEarlier(a: string, b: string)
    ensures Text.Less(a, b) <==> Earlier(a, b)
    decreases |a|
  {
    if a == "" || b == "" {
      if b != "" { assert a[..0] == b[..0]; }
    } else if a[0] != b[0] {
      EarlierHead(a, b);
    } else {
      LessIsEarlier(a[1..], b[1..]);
      EarlierTail(a, b);
    }
  }

  lemma EarlierHead(a: string, b: string)
    requires a != "" && b != "" && a[0] != b[0]
    ensures Earlier(a, b) <==> a[0] as int < b[0] as int
  {
    assert a[..0] == b[..0];
    forall i | 0 < i <= |a| && i <= |b| ensures a[..i] != b[..i] {
      assert a[..i][0] != b[..i][0];
    }
  }

  lemma EarlierTail(a: string, b: string)
    requires a != "" && b != "" && a[0] == b[0]
    ensures Earlier(a, b) <==> Earlier(a[1..], b[1..])
  {
    if Earlier(a, b) {
      var i :| 0 <= i <= |a| && i <= |b| && a[..i] == b[..i] && i < |b| && (i == |a| || a[i] as int < b[i] as int);
      assert i > 0;
      assert a[1..][..i - 1] == a[..i][1..] && b[1..][..i - 1] == b[..i][1..];
    }
    if Earlier(a[1..], b[1..]) {
      var c, d := a[1..], b[1..];
      var i :| 0 <= i <= |c| && i <= |d| && c[..i] == d[..i] && i < |d| && (i == |c| || c[i] as int < d[i] as int);
      assert a[..i + 1] == [a[0]] + c[..i] && b[..i + 1] == [b[0]] + d[..i];
    }
  }

  /** The keys of every object in the value come in that order. */
  ghost predicate KeysAscend(v: C.Json)
    decreases v, 0
  {
    match v
    case Array(items) => ItemsAscend(items)
    case Object(ms) => MembersAscend(ms)
    case _ => true
  }

  ghost predicate ItemsAscend(items: C.Items)
    decreases items, 0
  {
    items.Item? ==> KeysAscend(items.head) && ItemsAscend(items.tail)
  }

  ghost predicate MembersAscend(ms: C.Members)
    decreases ms, 0
  {
    ms.Member? ==> KeysAscend(ms.value) && MembersAscend(ms.rest) && (ms.rest.Member? ==> Earlier(ms.key, ms.rest.key))
  }

  lemma {:induction false} OrderedAscends(ms: C.Members)
    requires C.ValidMembers(ms) && C.Ordered(ms) && forall k :: k in C.Keys(ms) ==> KeysAscend(C.Get(ms, k))
    ensures MembersAscend(ms)
  {
    if ms.Member? {
      assert ms.key in C.Keys(ms) && C.Get(ms, ms.key) == ms.value;
      forall k | k in C.Keys(ms.rest) ensures KeysAscend(C.Get(ms.rest, k)) {
        assert k in C.Keys(ms) && C.Get(ms, k) == C.Get(ms.rest, k);
      }
      OrderedAscends(ms.rest);
      if ms.rest.Member? {
        assert ms.rest.key in C.Keys(ms.rest);
        LessIsEarlier(ms.key, ms.rest.key);
      }
    }
  }

  /** What is printed is the value itself, with its keys in order. */
  lemma {:induction false} NormalMeaning(v: C.Json)
    requires C.Valid(v)
    ensures C.Normal(C.Normal(v)) == C.Normal(v) && KeysAscend(C.Normal(v))
    decreases v, 1
  {
    match v {
      case Array(items) => NormalItemsMeaning(items);
      case Object(ms) =>
        var normal := C.NormalMembers(ms);
        NormalMembersMeaning(ms);
        C.NormalMembersFacts(ms);
        C.SortFacts(normal);
        C.ObjectsSort(C.Sort(normal), ms);
        OrderedAscends(C.Sort(normal));
      case _ =>
    }
  }

  lemma {:induction false} NormalItemsMeaning(items: C.Items)
    requires C.ValidItems(items)
    ensures C.NormalItems(C.NormalItems(items)) == C.NormalItems(items) && ItemsAscend(C.NormalItems(items))
    decreases items, 0
  {
    if items.Item? {
      NormalMeaning(items.head);
      NormalItemsMeaning(items.tail);
    }
  }

  lemma {:induction false} NormalMembersMeaning(ms: C.Members)
    requires C.ValidMembers(ms)
    ensures forall k :: k in C.Keys(ms) ==>
              C.Normal(C.Normal(C.Get(ms, k))) == C.Normal(C.Get(ms, k)) && KeysAscend(C.Normal(C.Get(ms, k)))
    decreases ms, 0
  {
    if ms.Member? {
      NormalMeaning(ms.value);
      NormalMembersMeaning(ms.rest);
      assert forall k :: k in C.Keys(ms.rest) ==> C.Get(ms, k) == C.Get(ms.rest, k);
    }
  }

  /**
   * The bytes that are hashed are the text of the value: they spell text that is read, to its end, as the same
   * value with its keys in code point order.
   */
  lemma CanonicalReads(v: C.Json)
    requires C.Valid(v)
    ensures exists text :: Spells(C.Canonical(v), text) && Value(text) == Some((C.Normal(v), ""))
    ensures C.Same(C.Normal(v), v) && KeysAscend(C.Normal(v))
  {
    var text := C.Print(C.Normal(v));
    C.NormalFacts(v);
    NormalMeaning(v);
    C.NormalExactly(C.Normal(v), v);
    EncodingSpells(text);
    PrintedReads(C.Normal(v), "");
  }
}

/** The hashed bytes of a ledger record, read (prayas/ledger/chain.py). */
module Records {
  import opened Common
  import opened Columns
  import opened Chain
  import C = Canonical
  import R = Reader

  lemma {:induction false} AgreesGet(a: C.Members, b: C.Members, key: string)
    requires C.Agrees(a, b) && key in C.Keys(a)
    ensures key in C.Keys(b) && C.Same(C.Get(a, key), C.Get(b, key))
  {
    if key != a.key { AgreesGet(a.rest, b, key); }
  }

  /** `v` is the object a reader makes of these bytes. */
  ghost predicate ReadAs(bytes: seq<int>, v: C.Json) {
    exists text :: R.Spells(bytes, text) && R.Value(text) == Some((v, ""))
  }

  /**
   * What is hashed is the JSON text of the record: an object with the names of the hashed columns, in order, as its
   * keys, and under each the column's value.
   */
  lemma HashReads(k: Codec, r: Row) returns (v: C.Json)
    requires Sound(k) && ValidRow(r)
    ensures Hasher(k)(r) == k.sha(Bytes(k, r)) && ReadAs(Bytes(k, r), v) && v.Object? && R.KeysAscend(v)
    ensures forall n :: n in C.Keys(v.members) <==> exists f :: Name(f) == n
    ensures forall f :: C.Same(C.Get(v.members, Name(f)), At(k, r, f))
  {
    var body := Body(k, r, HASHED_FIELDS);
    AllDistinct();
    BodyValid(k, r, HASHED_FIELDS);
    R.CanonicalReads(C.Object(body));
    v := C.Normal(C.Object(body));
    BodyHolds(k, r);
    SameBody(k, r, v.members);
  }

  lemma BodyHolds(k: Codec, r: Row)
    ensures forall n :: n in C.Keys(Body(k, r, HASHED_FIELDS)) <==> exists f :: Name(f) == n
    ensures forall f :: Name(f) in C.Keys(Body(k, r, HASHED_FIELDS)) && C.Get(Body(k, r, HASHED_FIELDS), Name(f)) == At(k, r, f)
  {
    forall f ensures f in HASHED_FIELDS { ListedOnce(f); }
    forall f ensures Name(f) in C.Keys(Body(k, r, HASHED_FIELDS)) && C.Get(Body(k, r, HASHED_FIELDS), Name(f)) == At(k, r, f) {
      BodyGet(k, r, HASHED_FIELDS, f);
    }
    forall n ensures n in C.Keys(Body(k, r, HASHED_FIELDS)) <==> exists f :: Name(f) == n {
      BodyKeys(k, r, HASHED_FIELDS, n);
    }
  }

  lemma SameBody(k: Codec, r: Row, ms: C.Members)
    requires C.Keys(ms) == C.Keys(Body(k, r, HASHED_FIELDS)) && C.Agrees(ms, Body(k, r, HASHED_FIELDS))
    ensures forall f :: Name(f) in C.Keys(ms) && C.Same(C.Get(ms, Name(f)), At(k, r, f))
  {
    BodyHolds(k, r);
    forall f ensures Name(f) in C.Keys(ms) && C.Same(C.Get(ms, Name(f)), At(k, r, f)) {
      AgreesGet(ms, Body(k, r, HASHED_FIELDS), Name(f));
    }
  }

  /** Tenant, number and link come from the append; a column the record does not give is null. */
  lemma ColumnsAre(k: Codec, r: Row)
    ensures At(k, r, TenantId) == C.Str(r.tenant) && At(k, r, ChainSeq) == C.Int(r.no) && At(k, r, PrevHash) == C.Str(r.prev)
    ensures forall f :: !Assigned(f) ==> At(k, r, f) == if f in r.cells then Normalise(k, f, r.cells[f]) else C.Null
  {}
}
