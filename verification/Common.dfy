/** Small shared vocabulary: optional values, and the code-point order of strings. */
module Common {

  datatype Option<+T> = None | Some(value: T)

  /** A finite set mapped one-to-one into 1..n has at most n elements. */
  lemma {:induction false} InjectionBound<T>(s: set<T>, rank: map<T, int>, n: nat)
    requires s <= rank.Keys
    requires forall x :: x in s ==> 1 <= rank[x] <= n
    requires forall x, y :: x in s && y in s && rank[x] == rank[y] ==> x == y
    ensures |s| <= n
  {
    if n == 0 {
      assert s == {} by {
        if x :| x in s { assert false; }
      }
    } else if top :| top in s && rank[top] == n {
      InjectionBound(s - {top}, rank, n - 1);
    } else {
      InjectionBound(s, rank, n - 1);
    }
  }
}

/** Strings are compared the way the source's language compares them: code point by code point. */
module Text {

  predicate Less(a: string, b: string) {
    if b == "" then false
    else if a == "" then true
    else a[0] < b[0] || (a[0] == b[0] && Less(a[1..], b[1..]))
  }

  ghost predicate Ascending(s: seq<string>) {
    forall i, j :: 0 <= i < j < |s| ==> Less(s[i], s[j])
  }

  lemma {:induction false} LessTrichotomy(a: string, b: string)
    ensures Less(a, b) || a == b || Less(b, a)
    ensures !(Less(a, b) && Less(b, a))
    ensures !Less(a, a)
  {
    if a != "" && b != "" {
      LessTrichotomy(a[1..], b[1..]);
      assert a == [a[0]] + a[1..] && b == [b[0]] + b[1..];
    }
    LessIrreflexive(a);
  }

  lemma {:induction false} LessIrreflexive(a: string)
    ensures !Less(a, a)
  {
    if a != "" { LessIrreflexive(a[1..]); }
  }

  lemma {:induction false} LessTransitive(a: string, b: string, c: string)
    requires Less(a, b) && Less(b, c)
    ensures Less(a, c)
  {
    if a != "" && a[0] == b[0] && b[0] == c[0] {
      LessTransitive(a[1..], b[1..], c[1..]);
    }
  }
}

/** Products and quotients of reals, one small fact at a time. */
module Reals {

  lemma NonNegative(x: real, y: real)
    requires x >= 0.0 && y >= 0.0
    ensures x * y >= 0.0
  {}

  lemma BothPositive(x: real, y: real, z: real)
    requires x > 0.0 && y > 0.0 && z == x * y
    ensures z > 0.0
  {}

  lemma Larger(x: real, y: real, z: real)
    requires x > 0.0 && y > z
    ensures x * y > x * z
  {}

  lemma Divides(x: real, d: real, q: real)
    requires d != 0.0 && x == q * d
    ensures x / d == q
  {}
}
