/** How one character is written inside a string literal (RFC 8259, section 7; shortest forms, lower-case hex). */
module Escaping {

  const HEX: string := "0123456789abcdef"

  predicate Raw(c: char) { c as int >= 32 && c != '"' && c != '\\' }

  function Short(c: char): string {
    if c == '"' then "\""
    else if c == '\\' then "\\"
    else if c == '\n' then "n"
    else if c == '\r' then "r"
    else if c == '\t' then "t"
    else if c as int == 8 then "b"
    else if c as int == 12 then "f"
    else ""
  }

  function Char(c: char): (r: string)
    ensures r != "" && r[0] != '"'
    ensures Raw(c) <==> r[0] != '\\'
  {
    if Raw(c) then [c]
    else if Short(c) != "" then "\\" + Short(c)
    else ['\\', 'u', '0', '0', HEX[c as int / 16], HEX[c as int % 16]]
  }

  /** The escapes form a prefix code, so text cannot be read in two ways. */
  lemma CharDecodes(c: char, d: char, x: string, y: string)
    requires Char(c) + x == Char(d) + y
    ensures c == d && x == y
  {
    var s := Char(c) + x;
    assert s == Char(d) + y;
    assert s[0] == Char(c)[0] == Char(d)[0];
    if !Raw(c) {
      assert s[1] == Char(c)[1] == Char(d)[1];
      if Short(c) == "" {
        assert s[4] == Char(c)[4] == Char(d)[4] && s[5] == Char(c)[5] == Char(d)[5];
        HexDistinct(c as int / 16, d as int / 16);
        HexDistinct(c as int % 16, d as int % 16);
      }
    }
    SameHead(Char(c), Char(d), x, y);
  }

  lemma HexDistinct(i: nat, j: nat)
    requires i < 16 && j < 16 && HEX[i] == HEX[j]
    ensures i == j
  {}

  /** The rest of a string literal after its opening quote, followed by `rest`. */
  function Body(s: string, rest: string): (r: string)
    ensures r != "" && (r[0] == '"' <==> s == "")
  {
    if s == "" then "\"" + rest else Char(s[0]) + Body(s[1..], rest)
  }

  function Quote(s: string, rest: string): string { "\"" + Body(s, rest) }

  lemma {:induction false} BodyDecodes(s: string, t: string, x: string, y: string)
    requires Body(s, x) == Body(t, y)
    ensures s == t && x == y
    decreases |s|
  {
    if s == "" {
      SameHead("\"", "\"", x, y);
    } else {
      CharDecodes(s[0], t[0], Body(s[1..], x), Body(t[1..], y));
      BodyDecodes(s[1..], t[1..], x, y);
      assert s == [s[0]] + s[1..] && t == [t[0]] + t[1..];
    }
  }

  lemma QuoteDecodes(s: string, t: string, x: string, y: string)
    requires Quote(s, x) == Quote(t, y)
    ensures s == t && x == y
  {
    SameHead("\"", "\"", Body(s, x), Body(t, y));
    BodyDecodes(s, t, x, y);
  }

  lemma SameHead(p: string, q: string, x: string, y: string)
    requires |p| == |q| && p + x == q + y
    ensures p == q && x == y
  {
    var s := p + x;
    assert s == q + y;
    assert p == s[..|p|] && q == s[..|p|] && x == s[|p|..] && y == s[|p|..];
  }
}

/** The UTF-8 form of text (RFC 3629, section 3). */
module Utf8 {

  function Char(c: char): (r: seq<int>)
    ensures r != []
  {
    var n := c as int;
    if n < 128 then [n]
    else if n < 2048 then [192 + n / 64, 128 + n % 64]
    else if n < 65536 then [224 + n / 4096, 128 + n / 64 % 64, 128 + n % 64]
    else [240 + n / 262144, 128 + n / 4096 % 64, 128 + n / 64 % 64, 128 + n % 64]
  }

  function Encode(s: string): seq<int> {
    if s == "" then [] else Char(s[0]) + Encode(s[1..])
  }

  /** The code point that a lead byte and its continuation bytes spell. */
  function Value(b: seq<int>): int {
    if |b| == 1 then b[0]
    else if |b| == 2 then (b[0] - 192) * 64 + (b[1] - 128)
    else if |b| == 3 then ((b[0] - 224) * 64 + (b[1] - 128)) * 64 + (b[2] - 128)
    else if |b| == 4 then (((b[0] - 240) * 64 + (b[1] - 128)) * 64 + (b[2] - 128)) * 64 + (b[3] - 128)
    else 0
  }

  function Length(lead: int): int {
    if lead < 128 then 1 else if lead < 224 then 2 else if lead < 240 then 3 else 4
  }

  lemma CharFacts(c: char)
    ensures Value(Char(c)) == c as int && |Char(c)| == Length(Char(c)[0])
  {
    var n := c as int;
    assert n / 64 / 64 == n / 4096 && n / 4096 / 64 == n / 262144;
  }

  lemma CharDecodes(c: char, d: char, x: seq<int>, y: seq<int>)
    requires Char(c) + x == Char(d) + y
    ensures c == d && x == y
  {
    CharFacts(c);
    CharFacts(d);
    SameHead(Char(c), Char(d), x, y);
    assert c as int == d as int;
  }

  lemma SameHead(p: seq<int>, q: seq<int>, x: seq<int>, y: seq<int>)
    requires p != [] && q != [] && |p| == Length(p[0]) && |q| == Length(q[0]) && p + x == q + y
    ensures p == q && x == y
  {
    var s := p + x;
    assert s == q + y && s[0] == p[0] == q[0];
    assert p == s[..|p|] && q == s[..|p|] && x == s[|p|..] && y == s[|p|..];
  }

  lemma {:induction false} EncodeInjective(s: string, t: string)
    requires Encode(s) == Encode(t)
    ensures s == t
  {
    if s != "" {
      CharDecodes(s[0], t[0], Encode(s[1..]), Encode(t[1..]));
      EncodeInjective(s[1..], t[1..]);
      assert s == [s[0]] + s[1..] && t == [t[0]] + t[1..];
    }
  }
}

/**
 * The canonical printer of the audit ledger (prayas/ledger/canonical.py): compact JSON, keys sorted at
 * every level, nothing escaped that need not be. Objects keep the insertion order of the source's dicts;
 * a float carries the text its language prints for it.
 */
module Canonical {
  import Decimal
  import Escaping
  import Text
  import Utf8

  datatype Json =
    | Null
    | Bool(value: bool)
    | Int(n: int)
    | Float(repr: string)
    | Str(s: string)
    | Array(items: Items)
    | Object(members: Members)

  datatype Items = Nil | Item(head: Json, tail: Items)

  datatype Members = End | Member(key: string, value: Json, rest: Members)

  // ---------------------------------------------------------------- printing

  /** The text of `v`, followed by `rest`. */
  function Write(v: Json, rest: string): string
    decreases v, 0
  {
    match v
    case Array(items) => "[" + WriteItems(items, rest)
    case Object(ms) => "{" + WriteMembers(ms, rest)
    case Str(s) => Escaping.Quote(s, rest)
    case _ => Atom(v) + rest
  }

  function WriteItems(items: Items, rest: string): string
    decreases items, 1
  {
    if items.Nil? then "]" + rest else Write(items.head, MoreItems(items.tail, rest))
  }

  function MoreItems(items: Items, rest: string): string
    decreases items, 1
  {
    if items.Nil? then "]" + rest else "," + Write(items.head, MoreItems(items.tail, rest))
  }

  function WriteMembers(ms: Members, rest: string): string
    decreases ms, 1
  {
    if ms.End? then "}" + rest
    else Escaping.Quote(ms.key, ":" + Write(ms.value, MoreMembers(ms.rest, rest)))
  }

  function MoreMembers(ms: Members, rest: string): string
    decreases ms, 1
  {
    if ms.End? then "}" + rest
    else "," + Escaping.Quote(ms.key, ":" + Write(ms.value, MoreMembers(ms.rest, rest)))
  }

  function Print(v: Json): string { Write(v, "") }

  predicate IsAtom(v: Json) { v.Null? || v.Bool? || v.Int? || v.Float? }

  function Atom(v: Json): string
    requires IsAtom(v)
  {
    match v
    case Null => "null"
    case Bool(b) => if b then "true" else "false"
    case Int(n) => Decimal.Int(n)
    case Float(r) => r
  }

  // ---------------------------------------------------------------- sorting keys

  function Insert(key: string, value: Json, ms: Members): Members {
    if ms.End? || Text.Less(key, ms.key) then Member(key, value, ms)
    else Member(ms.key, ms.value, Insert(key, value, ms.rest))
  }

  function Sort(ms: Members): Members {
    if ms.End? then End else Insert(ms.key, ms.value, Sort(ms.rest))
  }

  function Normal(v: Json): Json {
    match v
    case Array(items) => Array(NormalItems(items))
    case Object(ms) => Object(Sort(NormalMembers(ms)))
    case _ => v
  }

  function NormalItems(items: Items): Items {
    if items.Nil? then Nil else Item(Normal(items.head), NormalItems(items.tail))
  }

  function NormalMembers(ms: Members): Members {
    if ms.End? then End else Member(ms.key, Normal(ms.value), NormalMembers(ms.rest))
  }

  /** The bytes that are hashed. */
  function Canonical(v: Json): seq<int> { Utf8.Encode(Print(Normal(v))) }

  // ---------------------------------------------------------------- which values exist

  predicate Numeral(c: char) { '0' <= c <= '9' || c == '-' }

  predicate FloatChar(c: char) {
    Numeral(c) || c == '.' || c == '+' || c == 'e' || c == 'I' || c == 'N' || c == 'a' || c == 'n'
    || c == 'f' || c == 'i' || c == 't' || c == 'y'
  }

  /** Every float is printed with a point, an exponent or a name, so never as an integer's digits. */
  predicate FloatText(r: string) {
    && r != "" && (Numeral(r[0]) || r[0] == 'N' || r[0] == 'I')
    && (forall i :: 0 <= i < |r| ==> FloatChar(r[i]))
    && exists i :: 0 <= i < |r| && !Numeral(r[i])
  }

  function Keys(ms: Members): set<string> {
    if ms.End? then {} else {ms.key} + Keys(ms.rest)
  }

  /** A dict holds each key once. */
  predicate Valid(v: Json) {
    match v
    case Float(r) => FloatText(r)
    case Array(items) => ValidItems(items)
    case Object(ms) => ValidMembers(ms)
    case _ => true
  }

  predicate ValidItems(items: Items) {
    items.Nil? || (Valid(items.head) && ValidItems(items.tail))
  }

  predicate ValidMembers(ms: Members) {
    ms.End? || (Valid(ms.value) && ms.key !in Keys(ms.rest) && ValidMembers(ms.rest))
  }

  // ---------------------------------------------------------------- one reading of printed text

  datatype Shape = Scalar | Quoted | Listed | Keyed

  function ShapeOf(v: Json): Shape {
    match v
    case Str(_) => Quoted
    case Array(_) => Listed
    case Object(_) => Keyed
    case _ => Scalar
  }

  function ShapeAt(c: char): Shape {
    if c == '"' then Quoted else if c == '[' then Listed else if c == '{' then Keyed else Scalar
  }

  predicate Closes(c: char) { c == ',' || c == ']' || c == '}' }

  predicate Plain(s: string) {
    forall i :: 0 <= i < |s| ==> ShapeAt(s[i]) == Scalar && !Closes(s[i])
  }

  /** Text that can follow a printed value. */
  predicate Ends(r: string) { r == "" || Closes(r[0]) }

  lemma IntPlain(n: int)
    ensures Decimal.Int(n) != "" && forall i :: 0 <= i < |Decimal.Int(n)| ==> Numeral(Decimal.Int(n)[i])
  {
    var k: nat := if n < 0 then -n else n;
    var s := Decimal.Nat(k);
    forall i | 0 <= i < |s| ensures Numeral(s[i]) {
      assert s[i] in Decimal.DIGITS;
    }
  }

  lemma AtomPlain(v: Json)
    requires IsAtom(v) && Valid(v)
    ensures Atom(v) != "" && Plain(Atom(v))
  {
    match v {
      case Int(n) => IntPlain(n);
      case Float(r) =>
        forall i | 0 <= i < |r| ensures ShapeAt(r[i]) == Scalar && !Closes(r[i]) {
          assert FloatChar(r[i]);
        }
      case _ =>
    }
  }

  /** The constants, the integers and the floats are told apart by their letters. */
  datatype AtomKind = Word(initial: char) | Whole | Fraction

  ghost function KindOf(a: string): AtomKind
    requires a != ""
  {
    if a[0] == 'n' || a[0] == 't' || a[0] == 'f' then Word(a[0])
    else if forall i :: 0 <= i < |a| ==> Numeral(a[i]) then Whole
    else Fraction
  }

  lemma AtomKinds(v: Json)
    requires IsAtom(v) && Valid(v)
    ensures Atom(v) != ""
    ensures KindOf(Atom(v)) == match v
                               case Null => Word('n')
                               case Bool(b) => Word(if b then 't' else 'f')
                               case Int(_) => Whole
                               case Float(_) => Fraction
  {
    match v {
      case Int(n) =>
        IntPlain(n);
        assert Numeral(Decimal.Int(n)[0]);
      case _ =>
    }
  }

  lemma AtomInjective(v: Json, w: Json)
    requires IsAtom(v) && IsAtom(w) && Valid(v) && Valid(w) && Atom(v) == Atom(w)
    ensures v == w
  {
    AtomKinds(v);
    AtomKinds(w);
    if v.Int? { Decimal.IntInjective(v.n, w.n); }
  }

  lemma AtomDecodes(a: string, b: string, x: string, y: string)
    requires Plain(a) && Plain(b) && Ends(x) && Ends(y) && a + x == b + y
    ensures a == b && x == y
  {
    NotShorter(a, b, x, y);
    NotShorter(b, a, y, x);
    Escaping.SameHead(a, b, x, y);
  }

  lemma NotShorter(a: string, b: string, x: string, y: string)
    requires Plain(b) && Ends(x) && a + x == b + y
    ensures |a| >= |b|
  {
    var s := b + y;
    assert forall i :: 0 <= i < |b| ==> s[i] == b[i];
    if x != "" {
      assert (a + x)[|a|] == x[0];
      assert Closes(s[|a|]);
    } else {
      assert |a + x| == |a|;
    }
  }

  lemma FirstShows(v: Json, rest: string)
    requires Valid(v)
    ensures var s := Write(v, rest); s != "" && ShapeAt(s[0]) == ShapeOf(v) && !Closes(s[0])
  {
    if IsAtom(v) {
      AtomPlain(v);
      assert (Atom(v) + rest)[0] == Atom(v)[0];
    }
  }

  /** Printed values can be told apart, and told from what follows them. */
  lemma {:induction false} Decodes(v: Json, w: Json, x: string, y: string)
    requires Valid(v) && Valid(w) && Ends(x) && Ends(y) && Write(v, x) == Write(w, y)
    ensures v == w && x == y
    decreases v, 0
  {
    FirstShows(v, x);
    FirstShows(w, y);
    assert ShapeOf(v) == ShapeOf(w);
    match v {
      case Str(t) => Escaping.QuoteDecodes(t, w.s, x, y);
      case Array(items) =>
        Escaping.SameHead("[", "[", WriteItems(items, x), WriteItems(w.items, y));
        ItemsDecode(items, w.items, x, y);
      case Object(ms) =>
        Escaping.SameHead("{", "{", WriteMembers(ms, x), WriteMembers(w.members, y));
        MembersDecode(ms, w.members, x, y);
      case _ =>
        AtomPlain(v);
        AtomPlain(w);
        AtomDecodes(Atom(v), Atom(w), x, y);
        AtomInjective(v, w);
    }
  }

  lemma {:induction false} ItemsDecode(a: Items, b: Items, x: string, y: string)
    requires ValidItems(a) && ValidItems(b) && WriteItems(a, x) == WriteItems(b, y)
    ensures a == b && x == y
    decreases a, 1
  {
    if a.Item? { FirstShows(a.head, MoreItems(a.tail, x)); }
    if b.Item? { FirstShows(b.head, MoreItems(b.tail, y)); }
    if a.Item? {
      Decodes(a.head, b.head, MoreItems(a.tail, x), MoreItems(b.tail, y));
      MoreItemsDecode(a.tail, b.tail, x, y);
    } else {
      Escaping.SameHead("]", "]", x, y);
    }
  }

  lemma {:induction false} MoreItemsDecode(a: Items, b: Items, x: string, y: string)
    requires ValidItems(a) && ValidItems(b) && MoreItems(a, x) == MoreItems(b, y)
    ensures a == b && x == y
    decreases a, 1
  {
    assert MoreItems(a, x)[0] == MoreItems(b, y)[0];
    if a.Item? {
      Escaping.SameHead(",", ",", Write(a.head, MoreItems(a.tail, x)), Write(b.head, MoreItems(b.tail, y)));
      Decodes(a.head, b.head, MoreItems(a.tail, x), MoreItems(b.tail, y));
      MoreItemsDecode(a.tail, b.tail, x, y);
    } else {
      Escaping.SameHead("]", "]", x, y);
    }
  }

  lemma {:induction false} MembersDecode(a: Members, b: Members, x: string, y: string)
    requires ValidMembers(a) && ValidMembers(b) && WriteMembers(a, x) == WriteMembers(b, y)
    ensures a == b && x == y
    decreases a, 2
  {
    assert WriteMembers(a, x)[0] == WriteMembers(b, y)[0];
    if a.Member? {
      MemberDecodes(a, b, x, y);
    } else {
      Escaping.SameHead("}", "}", x, y);
    }
  }

  lemma {:induction false} MoreMembersDecode(a: Members, b: Members, x: string, y: string)
    requires ValidMembers(a) && ValidMembers(b) && MoreMembers(a, x) == MoreMembers(b, y)
    ensures a == b && x == y
    decreases a, 2
  {
    assert MoreMembers(a, x)[0] == MoreMembers(b, y)[0];
    if a.Member? {
      Escaping.SameHead(",", ",", WriteMembers(a, x), WriteMembers(b, y));
      MemberDecodes(a, b, x, y);
    } else {
      Escaping.SameHead("}", "}", x, y);
    }
  }

  lemma {:induction false} MemberDecodes(a: Members, b: Members, x: string, y: string)
    requires ValidMembers(a) && ValidMembers(b) && a.Member? && b.Member? && WriteMembers(a, x) == WriteMembers(b, y)
    ensures a == b && x == y
    decreases a, 1
  {
    var p, q := Write(a.value, MoreMembers(a.rest, x)), Write(b.value, MoreMembers(b.rest, y));
    Escaping.QuoteDecodes(a.key, b.key, ":" + p, ":" + q);
    Escaping.SameHead(":", ":", p, q);
    Decodes(a.value, b.value, MoreMembers(a.rest, x), MoreMembers(b.rest, y));
    MoreMembersDecode(a.rest, b.rest, x, y);
  }

  // ---------------------------------------------------------------- the reference: equal up to key order

  function Get(ms: Members, key: string): Json
    requires key in Keys(ms)
  {
    if key == ms.key then ms.value else Get(ms.rest, key)
  }

  /** Two values say the same: scalars and array positions agree, and objects agree key by key. */
  predicate Same(v: Json, w: Json)
    decreases v
  {
    match v
    case Array(a) => w.Array? && SameItems(a, w.items)
    case Object(a) => w.Object? && Keys(a) == Keys(w.members) && Agrees(a, w.members)
    case _ => v == w
  }

  predicate SameItems(a: Items, b: Items)
    decreases a
  {
    if a.Nil? then b.Nil? else b.Item? && Same(a.head, b.head) && SameItems(a.tail, b.tail)
  }

  predicate Agrees(a: Members, b: Members)
    decreases a
  {
    a.End? || (a.key in Keys(b) && Same(a.value, Get(b, a.key)) && Agrees(a.rest, b))
  }

  // ---------------------------------------------------------------- sorting forgets insertion order

  predicate Ordered(ms: Members) {
    ms.End? || ((forall k :: k in Keys(ms.rest) ==> Text.Less(ms.key, k)) && Ordered(ms.rest))
  }

  lemma {:induction false} InsertFacts(key: string, value: Json, ms: Members)
    requires ValidMembers(ms) && Ordered(ms) && key !in Keys(ms) && Valid(value)
    ensures var r := Insert(key, value, ms);
            ValidMembers(r) && Ordered(r) && Keys(r) == Keys(ms) + {key}
            && (forall k :: k in Keys(r) ==> Get(r, k) == if k == key then value else Get(ms, k))
  {
    if ms.Member? {
      Text.LessTrichotomy(key, ms.key);
      if Text.Less(key, ms.key) {
        forall k | k in Keys(ms) ensures Text.Less(key, k) {
          if k != ms.key { Text.LessTransitive(key, ms.key, k); }
        }
      } else {
        InsertFacts(key, value, ms.rest);
      }
    }
  }

  lemma {:induction false} SortFacts(ms: Members)
    requires ValidMembers(ms)
    ensures ValidMembers(Sort(ms)) && Ordered(Sort(ms)) && Keys(Sort(ms)) == Keys(ms)
    ensures forall k :: k in Keys(ms) ==> Get(Sort(ms), k) == Get(ms, k)
  {
    if ms.Member? {
      SortFacts(ms.rest);
      InsertFacts(ms.key, ms.value, Sort(ms.rest));
    }
  }

  lemma {:induction false} OrderedUnique(a: Members, b: Members)
    requires ValidMembers(a) && ValidMembers(b) && Ordered(a) && Ordered(b) && Keys(a) == Keys(b)
    requires forall k :: k in Keys(a) ==> Get(a, k) == Get(b, k)
    ensures a == b
  {
    if a.Member? {
      assert a.key in Keys(a) && a.key in Keys(b) && b.key in Keys(a);
      Text.LessTrichotomy(a.key, b.key);
      assert a.key == b.key;
      assert Keys(a.rest) == Keys(a) - {a.key} && Keys(b.rest) == Keys(b) - {a.key};
      assert Get(a, a.key) == Get(b, a.key);
      forall k | k in Keys(a.rest) ensures Get(a.rest, k) == Get(b.rest, k) {
        assert Get(a, k) == Get(b, k);
      }
      OrderedUnique(a.rest, b.rest);
    }
  }

  lemma {:induction false} NormalFacts(v: Json)
    requires Valid(v)
    ensures Valid(Normal(v))
    decreases v
  {
    match v {
      case Array(items) => NormalItemsFacts(items);
      case Object(ms) =>
        NormalMembersFacts(ms);
        SortFacts(NormalMembers(ms));
      case _ =>
    }
  }

  lemma {:induction false} NormalItemsFacts(items: Items)
    requires ValidItems(items)
    ensures ValidItems(NormalItems(items))
    decreases items
  {
    if items.Item? {
      NormalFacts(items.head);
      NormalItemsFacts(items.tail);
    }
  }

  lemma {:induction false} NormalMembersFacts(ms: Members)
    requires ValidMembers(ms)
    ensures ValidMembers(NormalMembers(ms)) && Keys(NormalMembers(ms)) == Keys(ms)
    ensures forall k :: k in Keys(ms) ==> Get(NormalMembers(ms), k) == Normal(Get(ms, k)) && Valid(Get(ms, k))
    decreases ms
  {
    if ms.Member? {
      NormalFacts(ms.value);
      NormalMembersFacts(ms.rest);
    }
  }

  /** Sorted members are equal exactly when they hold the same values under the same keys. */
  lemma SortExactly(c: Members, d: Members)
    requires ValidMembers(c) && ValidMembers(d)
    ensures Sort(c) == Sort(d) <==> Keys(c) == Keys(d) && forall k :: k in Keys(c) ==> Get(c, k) == Get(d, k)
  {
    SortFacts(c);
    SortFacts(d);
    if Keys(c) == Keys(d) && forall k :: k in Keys(c) ==> Get(c, k) == Get(d, k) {
      OrderedUnique(Sort(c), Sort(d));
    }
    if Sort(c) == Sort(d) {
      forall k | k in Keys(c) ensures Get(c, k) == Get(d, k) {
        assert Get(Sort(c), k) == Get(Sort(d), k);
      }
    }
  }

  lemma ObjectsSort(a: Members, b: Members)
    requires ValidMembers(a) && ValidMembers(b)
    ensures Normal(Object(a)) == Normal(Object(b))
        <==> Keys(a) == Keys(b) && forall k :: k in Keys(a) ==> Normal(Get(a, k)) == Normal(Get(b, k))
  {
    var c, d := NormalMembers(a), NormalMembers(b);
    NormalMembersFacts(a);
    NormalMembersFacts(b);
    SortExactly(c, d);
    SortedObjects(a, b);
  }

  lemma SortedObjects(a: Members, b: Members)
    ensures Normal(Object(a)) == Normal(Object(b)) <==> Sort(NormalMembers(a)) == Sort(NormalMembers(b))
  {}

  lemma {:induction false} NormalExactly(v: Json, w: Json)
    requires Valid(v) && Valid(w)
    ensures Normal(v) == Normal(w) <==> Same(v, w)
    decreases v, 1
  {
    match v {
      case Array(a) => if w.Array? { ItemsExactly(a, w.items); }
      case Object(a) =>
        if w.Object? && Keys(a) == Keys(w.members) {
          ObjectsSort(a, w.members);
          MembersExactly(a, w.members);
          assert Normal(v) == Normal(w) <==> Same(v, w);
        } else if w.Object? {
          ObjectsSort(a, w.members);
        }
      case _ =>
    }
  }

  lemma {:induction false} ItemsExactly(a: Items, b: Items)
    requires ValidItems(a) && ValidItems(b)
    ensures NormalItems(a) == NormalItems(b) <==> SameItems(a, b)
    decreases a, 0
  {
    if a.Item? && b.Item? {
      NormalExactly(a.head, b.head);
      ItemsExactly(a.tail, b.tail);
    }
  }

  lemma {:induction false} MembersExactly(a: Members, b: Members)
    requires ValidMembers(a) && ValidMembers(b) && Keys(a) <= Keys(b)
    ensures Agrees(a, b) <==> forall k :: k in Keys(a) ==> Normal(Get(a, k)) == Normal(Get(b, k))
    decreases a, 0
  {
    if a.Member? {
      NormalMembersFacts(b);
      NormalExactly(a.value, Get(b, a.key));
      MembersExactly(a.rest, b);
      assert a.key in Keys(a) && Get(a, a.key) == a.value;
      assert forall k :: k in Keys(a.rest) ==> k in Keys(a) && Get(a, k) == Get(a.rest, k);
    }
  }

  /**
   * Equal canonical bytes mean equal values, and equal values give equal bytes whatever order their
   * dicts were filled in.
   */
  lemma CanonicalExactly(v: Json, w: Json)
    requires Valid(v) && Valid(w)
    ensures Canonical(v) == Canonical(w) <==> Same(v, w)
  {
    NormalExactly(v, w);
    if Canonical(v) == Canonical(w) {
      NormalFacts(v);
      NormalFacts(w);
      Utf8.EncodeInjective(Print(Normal(v)), Print(Normal(w)));
      Decodes(Normal(v), Normal(w), "", "");
    }
  }
}
