/** Decimal notation of integers, shared by the key derivation and the canonical printer. */
module Decimal {

  const DIGITS: string := "0123456789"

  predicate IsDigits(s: string) { forall i :: 0 <= i < |s| ==> s[i] in DIGITS }

  function Nat(n: nat): (s: string)
    ensures s != "" && IsDigits(s)
    ensures |s| > 1 ==> s[0] != '0'
  {
    if n < 10 then [DIGITS[n]] else Nat(n / 10) + [DIGITS[n % 10]]
  }

  function Int(n: int): string {
    if n < 0 then "-" + Nat(-n) else Nat(n)
  }

  lemma DigitsDistinct(i: nat, j: nat)
    requires i < 10 && j < 10 && DIGITS[i] == DIGITS[j]
    ensures i == j
  {}

  lemma NatLength(n: nat)
    ensures n < 10 <==> |Nat(n)| == 1
  {
    if n >= 10 { assert |Nat(n / 10)| >= 1; }
  }

  lemma {:induction false} NatInjective(m: nat, n: nat)
    requires Nat(m) == Nat(n)
    ensures m == n
  {
    NatLength(m);
    NatLength(n);
    if m < 10 {
      DigitsDistinct(m, n);
    } else {
      var a, b := Nat(m), Nat(n);
      assert a[..|a| - 1] == Nat(m / 10) && b[..|b| - 1] == Nat(n / 10);
      assert a[|a| - 1] == DIGITS[m % 10] && b[|b| - 1] == DIGITS[n % 10];
      DigitsDistinct(m % 10, n % 10);
      NatInjective(m / 10, n / 10);
    }
  }

  // ---------------------------------------------------------------- reading decimals

  predicate IsDigit(c: char) { '0' <= c <= '9' }

  /** Positional notation, read without reference to how it is written. */
  function NumberOf(s: string): int {
    if s == "" then 0 else 10 * NumberOf(s[..|s| - 1]) + (s[|s| - 1] as int - '0' as int)
  }

  function IntegerOf(s: string): int {
    if s != "" && s[0] == '-' then -NumberOf(s[1..]) else NumberOf(s)
  }

  /** An optional sign and digits without a leading zero. */
  predicate IsInteger(s: string) {
    if s != "" && s[0] == '-' then Digits(s[1..]) else Digits(s)
  }

  predicate Digits(t: string) {
    t != "" && (forall i :: 0 <= i < |t| ==> IsDigit(t[i])) && (|t| > 1 ==> t[0] != '0')
  }

  lemma DigitReads(d: nat)
    requires d < 10
    ensures IsDigit(DIGITS[d]) && DIGITS[d] as int - '0' as int == d
  {}

  lemma {:induction false} NatReads(n: nat)
    ensures NumberOf(Nat(n)) == n && forall i :: 0 <= i < |Nat(n)| ==> IsDigit(Nat(n)[i])
  {
    DigitReads(n % 10);
    if n >= 10 {
      NatReads(n / 10);
      var init, last := Nat(n / 10), [DIGITS[n % 10]];
      assert (init + last)[..|init|] == init;
    } else {
      assert [DIGITS[n]][..0] == "";
    }
  }

  /** The text written for an integer is read as that integer. */
  lemma IntReads(n: int)
    ensures IsInteger(Int(n)) && IntegerOf(Int(n)) == n
  {
    NatReads(if n < 0 then -n else n);
    if n < 0 {
      assert Int(n)[1..] == Nat(-n);
    } else {
      assert IsDigit(Nat(n)[0]);
    }
  }

  lemma SignShows(n: int)
    ensures Int(n) != "" && (Int(n)[0] == '-' <==> n < 0)
  {
    if n >= 0 {
      assert Nat(n)[0] in DIGITS && '-' !in DIGITS;
    }
  }

  lemma IntInjective(m: int, n: int)
    requires Int(m) == Int(n)
    ensures m == n
  {
    SignShows(m);
    SignShows(n);
    if m < 0 {
      assert Int(m)[1..] == Nat(-m) && Int(n)[1..] == Nat(-n);
      NatInjective(-m, -n);
    } else {
      NatInjective(m, n);
    }
  }
}

/** The idempotency key (prayas/executor/idempotency.py). SHA-256 is a parameter of the derivation. */
module IdemKey {
  import opened Common
  import Decimal

  datatype Identity = Identity(cycle: string, seqNo: int, kind: string, amount: int)

  predicate WellFormed(id: Identity) {
    id.amount >= 0 && id.seqNo >= 0 && id.cycle != "" && id.kind != ""
  }

  function Raw(id: Identity): string
    requires WellFormed(id)
  {
    id.cycle + ":" + Decimal.Nat(id.seqNo) + ":" + id.kind + ":" + Decimal.Nat(id.amount)
  }

  /** The text reads, from left to right, as cycle, sequence number, kind and amount, a colon between each two. */
  ghost predicate Reads(s: string, id: Identity) {
    exists i, j, k ::
      && 0 <= i < j < k < |s| && s[i] == ':' && s[j] == ':' && s[k] == ':'
      && s[..i] == id.cycle && s[j + 1..k] == id.kind
      && Decimal.IsInteger(s[i + 1..j]) && Decimal.IntegerOf(s[i + 1..j]) == id.seqNo
      && Decimal.IsInteger(s[k + 1..]) && Decimal.IntegerOf(s[k + 1..]) == id.amount
  }

  lemma Cut(c: string, n: string, k: string, a: string)
    ensures var s := c + ":" + n + ":" + k + ":" + a;
            var i := |c|;
            var j := i + 1 + |n|;
            var l := j + 1 + |k|;
            && 0 <= i < j < l < |s| && s[i] == ':' && s[j] == ':' && s[l] == ':'
            && s[..i] == c && s[i + 1..j] == n && s[j + 1..l] == k && s[l + 1..] == a
  {}

  lemma RawReads(id: Identity)
    requires WellFormed(id)
    ensures Reads(Raw(id), id)
  {
    Decimal.IntReads(id.seqNo);
    Decimal.IntReads(id.amount);
    JoinedReads(id, Decimal.Nat(id.seqNo), Decimal.Nat(id.amount));
  }

  lemma JoinedReads(id: Identity, n: string, a: string)
    requires Decimal.IsInteger(n) && Decimal.IntegerOf(n) == id.seqNo
    requires Decimal.IsInteger(a) && Decimal.IntegerOf(a) == id.amount
    ensures Reads(id.cycle + ":" + n + ":" + id.kind + ":" + a, id)
  {
    var i := |id.cycle|;
    var j := i + 1 + |n|;
    Cut(id.cycle, n, id.kind, a);
    ReadsAt(id.cycle + ":" + n + ":" + id.kind + ":" + a, id, i, j, j + 1 + |id.kind|);
  }

  lemma ReadsAt(s: string, id: Identity, i: nat, j: nat, k: nat)
    requires i < j < k < |s| && s[i] == ':' && s[j] == ':' && s[k] == ':' && s[..i] == id.cycle && s[j + 1..k] == id.kind
    requires Decimal.IsInteger(s[i + 1..j]) && Decimal.IntegerOf(s[i + 1..j]) == id.seqNo
    requires Decimal.IsInteger(s[k + 1..]) && Decimal.IntegerOf(s[k + 1..]) == id.amount
    ensures Reads(s, id)
  {}

  /** The key is the digest of a text that reads as the identity; a malformed identity has none. */
  lemma KeyIsDigestOf(digest: string -> string, id: Identity)
    ensures Derive(digest, id).Some? <==> id.cycle != "" && id.kind != "" && id.seqNo >= 0 && id.amount >= 0
    ensures Derive(digest, id).Some? ==> exists s :: Reads(s, id) && Derive(digest, id) == Some("prayas_" + digest(s))
  {
    if Derive(digest, id).Some? { RawReads(id); }
  }

  /** `None` is the source's ValueError, which aborts the transaction asking for the key. */
  function Derive(digest: string -> string, id: Identity): Option<string> {
    if WellFormed(id) then Some("prayas_" + digest(Raw(id))) else None
  }

  lemma LastColonAt(x: string, u: string)
    requires ':' !in u
    ensures var s := x + ":" + u; s[|x|] == ':' && forall i :: |x| < i < |s| ==> s[i] != ':'
  {
    var s := x + ":" + u;
    forall i | |x| < i < |s| ensures s[i] != ':' {
      assert s[i] == u[i - |x| - 1];
    }
  }

  /** Splitting at the last colon is unambiguous when nothing after it contains one. */
  lemma LastColon(x: string, u: string, y: string, v: string)
    requires x + ":" + u == y + ":" + v
    requires ':' !in u && ':' !in v
    ensures x == y && u == v
  {
    LastColonAt(x, u);
    LastColonAt(y, v);
    var s, t := x + ":" + u, y + ":" + v;
    assert |x| == |y|;
    assert s[..|x|] == x && t[..|y|] == y;
    assert s[|x| + 1..] == u && t[|y| + 1..] == v;
  }

  lemma DigitsHaveNoColon(n: nat)
    ensures ':' !in Decimal.Nat(n)
  {
    assert ':' !in Decimal.DIGITS;
  }

  /** `longer` reads as `shorter` behind a numeric segment, so a cycle id can swallow the difference. */
  ghost predicate Shadows(longer: string, shorter: string) {
    || (exists n: nat :: longer == Decimal.Nat(n) + ":" + shorter)
    || (exists p: string, n: nat :: longer == p + ":" + Decimal.Nat(n) + ":" + shorter)
  }

  ghost predicate Collide(a: Identity, b: Identity) {
    WellFormed(a) && WellFormed(b) && a != b && Raw(a) == Raw(b)
  }

  /** Parsing from the right: the amounts agree, and the kinds are nested suffixes. */
  lemma AmountsAgree(a: Identity, b: Identity)
    requires WellFormed(a) && WellFormed(b) && Raw(a) == Raw(b)
    ensures a.amount == b.amount
    ensures a.cycle + ":" + Decimal.Nat(a.seqNo) + ":" + a.kind == b.cycle + ":" + Decimal.Nat(b.seqNo) + ":" + b.kind
  {
    var x := a.cycle + ":" + Decimal.Nat(a.seqNo) + ":" + a.kind;
    var y := b.cycle + ":" + Decimal.Nat(b.seqNo) + ":" + b.kind;
    DigitsHaveNoColon(a.amount);
    DigitsHaveNoColon(b.amount);
    assert Raw(a) == x + ":" + Decimal.Nat(a.amount) && Raw(b) == y + ":" + Decimal.Nat(b.amount);
    LastColon(x, Decimal.Nat(a.amount), y, Decimal.Nat(b.amount));
    Decimal.NatInjective(a.amount, b.amount);
  }

  lemma HeadsAgree(c: string, m: nat, d: string, n: nat)
    requires c + ":" + Decimal.Nat(m) == d + ":" + Decimal.Nat(n)
    ensures c == d && m == n
  {
    DigitsHaveNoColon(m);
    DigitsHaveNoColon(n);
    LastColon(c, Decimal.Nat(m), d, Decimal.Nat(n));
    Decimal.NatInjective(m, n);
  }

  /** A collision whose second kind is the longer one is a shadowed kind. */
  lemma CollisionShadows(a: Identity, b: Identity)
    requires Collide(a, b) && |a.kind| <= |b.kind|
    ensures Shadows(b.kind, a.kind)
  {
    AmountsAgree(a, b);
    var ha, hb := a.cycle + ":" + Decimal.Nat(a.seqNo), b.cycle + ":" + Decimal.Nat(b.seqNo);
    var s := ha + ":" + a.kind;
    assert s == hb + ":" + b.kind;
    if |a.kind| == |b.kind| {
      assert s[|s| - |a.kind|..] == a.kind && s[|s| - |a.kind|..] == b.kind;
      assert s[..|s| - |a.kind| - 1] == ha && s[..|s| - |a.kind| - 1] == hb;
      HeadsAgree(a.cycle, a.seqNo, b.cycle, b.seqNo);
      assert false;
    } else {
      var cut := |b.kind| - |a.kind| - 1;
      assert b.kind == s[|hb| + 1..];
      assert s[|ha|] == ':' && |ha| == |hb| + 1 + cut;
      var q := b.kind[..cut];
      assert b.kind[cut] == ':' && b.kind[cut + 1..] == s[|ha| + 1..] == a.kind;
      assert b.kind == q + ":" + a.kind;
      assert ha == s[..|ha|] == hb + ":" + q;
      SuffixSegment(a.cycle, a.seqNo, hb, q);
      if q != Decimal.Nat(a.seqNo) {
        var p :| q == p + ":" + Decimal.Nat(a.seqNo);
        assert b.kind == p + ":" + Decimal.Nat(a.seqNo) + ":" + a.kind;
      }
    }
  }

  lemma SuffixSegment(c: string, n: nat, h: string, q: string)
    requires c + ":" + Decimal.Nat(n) == h + ":" + q
    ensures q == Decimal.Nat(n) || exists p :: q == p + ":" + Decimal.Nat(n)
  {
    var d, s := Decimal.Nat(n), h + ":" + q;
    DigitsHaveNoColon(n);
    LastColonAt(c, d);
    assert s[|h|] == ':';
    if |q| == |d| {
      assert s[|s| - |d|..] == d && s[|s| - |q|..] == q;
    } else {
      var p := q[..|q| - |d| - 1];
      assert s[|s| - |d|..] == d && q[|q| - |d|..] == s[|s| - |d|..];
      assert s[|s| - |d| - 1] == ':' && q[|q| - |d| - 1] == ':';
      assert q == p + ":" + d;
    }
  }

  lemma Reassociate(c: string, one: string, n: string, k: string, z: string)
    ensures (c + ":" + one) + ":" + n + ":" + k + ":" + z == c + ":" + one + ":" + (n + ":" + k) + ":" + z
  {}

  lemma ReassociateLonger(c: string, one: string, p: string, n: string, k: string, z: string)
    ensures (c + ":" + one + ":" + p) + ":" + n + ":" + k + ":" + z ==
            c + ":" + one + ":" + (p + ":" + n + ":" + k) + ":" + z
  {}

  /** Conversely a shadowed kind always collides with some identity of the shorter kind. */
  lemma ShadowCollides(longer: string, shorter: string) returns (a: Identity, b: Identity)
    requires Shadows(longer, shorter) && shorter != ""
    ensures a.kind == shorter && b.kind == longer && Collide(a, b)
  {
    b := Identity("c", 1, longer, 0);
    var one, z := Decimal.Nat(1), Decimal.Nat(0);
    if n: nat :| longer == Decimal.Nat(n) + ":" + shorter {
      a := Identity("c" + ":" + one, n, shorter, 0);
      Reassociate("c", one, Decimal.Nat(n), shorter, z);
    } else {
      var p: string, n: nat :| longer == p + ":" + Decimal.Nat(n) + ":" + shorter;
      a := Identity("c" + ":" + one + ":" + p, n, shorter, 0);
      ReassociateLonger("c", one, p, Decimal.Nat(n), shorter, z);
    }
  }

  /** Exactly which action vocabularies make the key text unambiguous. */
  lemma UnambiguousExactlyWhen(kinds: set<string>)
    requires "" !in kinds
    ensures (forall a: Identity, b: Identity :: a.kind in kinds && b.kind in kinds ==> !Collide(a, b)) <==>
            (forall k, l :: k in kinds && l in kinds ==> !Shadows(l, k))
  {
    if k, l :| k in kinds && l in kinds && Shadows(l, k) {
      var a, b := ShadowCollides(l, k);
    }
    if a: Identity, b: Identity :| a.kind in kinds && b.kind in kinds && Collide(a, b) {
      if |a.kind| <= |b.kind| { CollisionShadows(a, b); } else { CollisionShadows(b, a); }
    }
  }

  lemma ShadowHasColon(longer: string, shorter: string)
    requires Shadows(longer, shorter)
    ensures ':' in longer
  {
    if n: nat :| longer == Decimal.Nat(n) + ":" + shorter {
      assert longer[|Decimal.Nat(n)|] == ':';
    } else {
      var p: string, n: nat :| longer == p + ":" + Decimal.Nat(n) + ":" + shorter;
      assert longer[|p|] == ':';
    }
  }

  /** In particular, kinds without colons: there the key text determines cycle, sequence, kind and amount. */
  lemma ColonFreeKindsAreUnambiguous(a: Identity, b: Identity)
    requires WellFormed(a) && WellFormed(b) && Raw(a) == Raw(b)
    requires ':' !in a.kind && ':' !in b.kind
    ensures a == b
  {
    if a != b {
      var s, l := if |a.kind| <= |b.kind| then a else b, if |a.kind| <= |b.kind| then b else a;
      CollisionShadows(s, l);
      ShadowHasColon(l.kind, s.kind);
    }
  }
}
