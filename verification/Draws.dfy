/**
 * Drawing without replacement, by counting: of `a + b` units `d` are drawn, and `j` of them are among the first `a`
 * in `Ways(a, j) * Ways(b, d - j)` ways. The reference for the log-rank test's expectations and variances.
 */
module Draws {
  import opened Reals

  /** The number of ways to choose `k` out of `n`. */
  function Ways(n: nat, k: nat): nat {
    if k == 0 then 1 else if n == 0 then 0 else Ways(n - 1, k - 1) + Ways(n - 1, k)
  }

  /** One, `j` or `j * (j - 1)`: what is summed for the number of ways and its first two factorial moments. */
  function Weight(p: nat, j: int): int { if p == 0 then 1 else if p == 1 then j else j * (j - 1) }

  function Term(a: nat, b: nat, d: nat, j: nat, x: int): int
    requires j <= d
  {
    Ways(a, j) * Ways(b, d - j) * x
  }

  function Moment(a: nat, b: nat, d: nat, p: nat, k: nat): int
    requires k <= d
  {
    (if k == 0 then 0 else Moment(a, b, d, p, k - 1)) + Term(a, b, d, k, Weight(p, k))
  }

  /** The same with one more of the first kind drawn than counted. */
  function Shifted(a: nat, b: nat, d: nat, p: nat, k: nat): int
    requires k <= d
  {
    (if k == 0 then 0 else Shifted(a, b, d, p, k - 1)) + Term(a, b, d, k, Weight(p, k + 1))
  }

  lemma Distribute(u: int, v: int, w: int, x: int)
    ensures (u + v) * w * x == u * w * x + v * w * x
  {}

  /** One more unit of the first kind is either drawn or not. */
  lemma {:induction false} OneMoreUnit(a: nat, b: nat, d: nat, p: nat, k: nat)
    requires k <= d
    ensures Moment(a + 1, b, d, p, k) == Moment(a, b, d, p, k) + if k == 0 then 0 else Shifted(a, b, d - 1, p, k - 1)
  {
    if k > 0 {
      OneMoreUnit(a, b, d, p, k - 1);
      Distribute(Ways(a, k - 1), Ways(a, k), Ways(b, d - k), Weight(p, k));
    }
  }

  lemma {:induction false} NoneOfTheFirst(b: nat, d: nat, p: nat, k: nat)
    requires k <= d
    ensures Moment(0, b, d, p, k) == Ways(b, d) * Weight(p, 0)
  {
    if k > 0 { NoneOfTheFirst(b, d, p, k - 1); }
  }

  /** `j + 1` is `j` and one; `(j + 1) * j` is `j * (j - 1)` and twice `j`. */
  lemma ShiftedTerm(w: int, j: int)
    ensures w * Weight(1, j + 1) == w * Weight(1, j) + w * Weight(0, j)
    ensures w * Weight(2, j + 1) == w * Weight(2, j) + 2 * (w * Weight(1, j))
  {
    assert (j + 1) * j == j * (j - 1) + 2 * j;
    assert w * (j * (j - 1) + 2 * j) == w * (j * (j - 1)) + w * (2 * j);
  }

  lemma {:induction false} ShiftedIs(a: nat, b: nat, d: nat, k: nat)
    requires k <= d
    ensures Shifted(a, b, d, 0, k) == Moment(a, b, d, 0, k)
    ensures Shifted(a, b, d, 1, k) == Moment(a, b, d, 1, k) + Moment(a, b, d, 0, k)
    ensures Shifted(a, b, d, 2, k) == Moment(a, b, d, 2, k) + 2 * Moment(a, b, d, 1, k)
  {
    if k > 0 { ShiftedIs(a, b, d, k - 1); }
    ShiftedTerm(Ways(a, k) * Ways(b, d - k), k);
    assert Weight(0, k + 1) == Weight(0, k);
  }

  function Choose(n: int, k: int): nat { if n < 0 || k < 0 then 0 else Ways(n, k) }

  lemma Pascal(n: nat, k: int)
    ensures Choose(n + 1, k) == Choose(n, k) + Choose(n, k - 1)
  {}

  /** All the ways, summed by how many are of the first kind. */
  lemma {:induction false} AllWays(a: nat, b: nat, d: nat)
    ensures Moment(a, b, d, 0, d) == Ways(a + b, d)
    decreases a
  {
    if a == 0 {
      NoneOfTheFirst(b, d, 0, d);
    } else {
      OneMoreUnit(a - 1, b, d, 0, d);
      AllWays(a - 1, b, d);
      if d > 0 {
        ShiftedIs(a - 1, b, d - 1, d - 1);
        AllWays(a - 1, b, d - 1);
      }
    }
  }

  lemma {:induction false} FirstMoment(a: nat, b: nat, d: nat)
    ensures Moment(a, b, d, 1, d) == a * Choose(a + b - 1, d - 1)
    decreases a
  {
    if a == 0 {
      NoneOfTheFirst(b, d, 1, d);
    } else {
      OneMoreUnit(a - 1, b, d, 1, d);
      FirstMoment(a - 1, b, d);
      if d > 0 {
        ShiftedIs(a - 1, b, d - 1, d - 1);
        FirstMoment(a - 1, b, d - 1);
        AllWays(a - 1, b, d - 1);
        if a + b > 1 { Pascal(a + b - 2, d - 1); }
        FirstStep(a, Choose(a + b - 2, d - 1), Choose(a + b - 2, d - 2), Choose(a + b - 1, d - 1));
      }
    }
  }

  lemma FirstStep(a: int, x: int, y: int, z: int)
    requires a == 1 || z == x + y
    ensures (a - 1) * x + ((a - 1) * y + z) == a * z
  {
    if a != 1 { assert (a - 1) * x + (a - 1) * y == (a - 1) * (x + y); }
  }

  lemma {:induction false} SecondMoment(a: nat, b: nat, d: nat)
    ensures Moment(a, b, d, 2, d) == a * (a - 1) * Choose(a + b - 2, d - 2)
    decreases a
  {
    if a == 0 {
      NoneOfTheFirst(b, d, 2, d);
    } else if d == 0 {
      OneMoreUnit(a - 1, b, d, 2, d);
      SecondMoment(a - 1, b, d);
    } else {
      SecondMoment(a - 1, b, d);
      SecondMoment(a - 1, b, d - 1);
      FirstMoment(a - 1, b, d - 1);
      if a + b > 2 { Pascal(a + b - 3, d - 2); }
      SecondNext(a, b, d, Choose(a + b - 3, d - 2), Choose(a + b - 3, d - 3), Choose(a + b - 2, d - 2));
    }
  }

  lemma SecondNext(a: nat, b: nat, d: nat, x: int, y: int, z: int)
    requires a > 0 && d > 0 && (a + b <= 2 || z == x + y) && (a + b <= 2 ==> x == 0 && y == 0)
    requires Moment(a - 1, b, d, 2, d) == (a - 1) * (a - 2) * x
    requires Moment(a - 1, b, d - 1, 2, d - 1) == (a - 1) * (a - 2) * y && Moment(a - 1, b, d - 1, 1, d - 1) == (a - 1) * z
    ensures Moment(a, b, d, 2, d) == a * (a - 1) * z
  {
    OneMoreUnit(a - 1, b, d, 2, d);
    ShiftedIs(a - 1, b, d - 1, d - 1);
    SecondStep(a, b, x, y, z);
  }

  lemma SecondStep(a: int, b: int, x: int, y: int, z: int)
    requires a >= 1 && b >= 0 && (a + b <= 2 || z == x + y) && (a + b <= 2 ==> x == 0 && y == 0)
    ensures (a - 1) * (a - 2) * x + ((a - 1) * (a - 2) * y + 2 * ((a - 1) * z)) == a * (a - 1) * z
  {
    if a > 2 || (a == 2 && b > 0) {
      assert (a - 1) * (a - 2) * x + (a - 1) * (a - 2) * y == (a - 1) * (a - 2) * (x + y);
      assert (a - 1) * (a - 2) * z + 2 * ((a - 1) * z) == (a - 1) * a * z;
    }
  }

  lemma {:induction false} WaysPositive(n: nat, k: nat)
    requires k <= n
    ensures Ways(n, k) > 0
  {
    if k > 0 { WaysPositive(n - 1, k - 1); }
  }

  /** Choosing `k` of `n` and marking one of them is marking one and choosing the rest. */
  lemma {:induction false} Absorb(n: nat, k: nat)
    requires n > 0 && k > 0
    ensures k * Ways(n, k) == n * Ways(n - 1, k - 1)
    decreases n
  {
    if n > 1 {
      Absorb(n - 1, k);
      if k > 1 { Absorb(n - 1, k - 1); }
      AbsorbStep(n, k, Ways(n - 1, k - 1), Ways(n - 1, k), if k > 1 then Ways(n - 2, k - 2) else 0, Ways(n - 2, k - 1));
    }
  }

  lemma AbsorbStep(n: int, k: int, x: int, y: int, u: int, v: int)
    requires k * y == (n - 1) * v && (k - 1) * x == (n - 1) * u && x == u + v
    ensures k * (x + y) == n * x
  {
    assert k * (x + y) == (k - 1) * x + x + k * y;
    assert (n - 1) * u + (n - 1) * v == (n - 1) * (u + v);
  }

  // ---------------------------------------------------------------- mean and variance of the number drawn

  /** The ways with `j` of the first kind. */
  function Count(a: nat, b: nat, d: nat, j: nat): real
    requires j <= d
  {
    (Ways(a, j) * Ways(b, d - j)) as real
  }

  /** The sum of `j`, over all ways. */
  function Sum(a: nat, b: nat, d: nat, k: nat): real
    requires k <= d
  {
    (if k == 0 then 0.0 else Sum(a, b, d, k - 1)) + Count(a, b, d, k) * k as real
  }

  /** The sum of the squared distance of `j` from `e`, over all ways. */
  function Spread(a: nat, b: nat, d: nat, e: real, k: nat): real
    requires k <= d
  {
    (if k == 0 then 0.0 else Spread(a, b, d, e, k - 1)) + Count(a, b, d, k) * ((k as real - e) * (k as real - e))
  }

  function Mean(a: nat, b: nat, d: nat): real {
    if Ways(a + b, d) == 0 then 0.0 else Sum(a, b, d, d) / Ways(a + b, d) as real
  }

  function Variance(a: nat, b: nat, d: nat): real {
    if Ways(a + b, d) == 0 then 0.0 else Spread(a, b, d, Mean(a, b, d), d) / Ways(a + b, d) as real
  }

  lemma {:induction false} SumIs(a: nat, b: nat, d: nat, k: nat)
    requires k <= d
    ensures Sum(a, b, d, k) == Moment(a, b, d, 1, k) as real
  {
    if k > 0 { SumIs(a, b, d, k - 1); }
    Times(Ways(a, k) * Ways(b, d - k), k);
  }

  lemma Times(x: int, y: int)
    ensures (x * y) as real == x as real * y as real
  {}

  /** The squared distances in terms of the moments. */
  function Squares(e: real, m0: real, m1: real, m2: real): real { m2 + m1 - 2.0 * e * m1 + e * e * m0 }

  lemma SquareTerm(w: int, k: int, e: real, t0: int, t1: int, t2: int)
    requires t0 == w && t1 == w * k && t2 == w * (k * (k - 1))
    ensures w as real * ((k as real - e) * (k as real - e)) == Squares(e, t0 as real, t1 as real, t2 as real)
  {
    Times(w, k);
    Times(k, k - 1);
    Times(w, k * (k - 1));
    Expand(w as real, k as real, e);
  }

  lemma Expand(u: real, x: real, e: real)
    ensures u * ((x - e) * (x - e)) == u * (x * (x - 1.0)) + u * x - 2.0 * e * (u * x) + e * e * u
  {
    assert (x - e) * (x - e) == x * (x - 1.0) + x - 2.0 * e * x + e * e;
    Spreads(u, x * (x - 1.0), x, e);
  }

  lemma Spreads(u: real, y: real, x: real, e: real)
    ensures u * (y + x - 2.0 * e * x + e * e) == u * y + u * x - 2.0 * e * (u * x) + e * e * u
  {
    assert u * (2.0 * e * x) == 2.0 * e * (u * x);
  }

  lemma Gather(e: real, m0: real, m1: real, m2: real, t0: real, t1: real, t2: real)
    ensures Squares(e, m0 + t0, m1 + t1, m2 + t2) == Squares(e, m0, m1, m2) + Squares(e, t0, t1, t2)
  {
    assert 2.0 * e * (m1 + t1) == 2.0 * e * m1 + 2.0 * e * t1 && e * e * (m0 + t0) == e * e * m0 + e * e * t0;
  }

  lemma TermSquares(a: nat, b: nat, d: nat, e: real, k: nat, t0: int, t1: int, t2: int)
    requires k <= d && t0 == Term(a, b, d, k, Weight(0, k))
    requires t1 == Term(a, b, d, k, Weight(1, k)) && t2 == Term(a, b, d, k, Weight(2, k))
    ensures Count(a, b, d, k) * ((k as real - e) * (k as real - e)) == Squares(e, t0 as real, t1 as real, t2 as real)
  {
    SquareTerm(Ways(a, k) * Ways(b, d - k), k, e, t0, t1, t2);
  }

  lemma SpreadStep(
    e: real, before: real, more: real, m0: real, m1: real, m2: real, t0: real, t1: real, t2: real,
    n0: real, n1: real, n2: real)
    requires before == Squares(e, m0, m1, m2) && more == Squares(e, t0, t1, t2)
    requires n0 == m0 + t0 && n1 == m1 + t1 && n2 == m2 + t2
    ensures before + more == Squares(e, n0, n1, n2)
  {
    Gather(e, m0, m1, m2, t0, t1, t2);
  }

  lemma SpreadNext(a: nat, b: nat, d: nat, e: real, k: nat, m0: real, m1: real, m2: real, t0: real, t1: real, t2: real)
    requires 0 < k <= d && Spread(a, b, d, e, k - 1) == Squares(e, m0, m1, m2)
    requires Count(a, b, d, k) * ((k as real - e) * (k as real - e)) == Squares(e, t0, t1, t2)
    ensures Spread(a, b, d, e, k) == Squares(e, m0 + t0, m1 + t1, m2 + t2)
  {
    SpreadStep(e, Spread(a, b, d, e, k - 1), Count(a, b, d, k) * ((k as real - e) * (k as real - e)),
               m0, m1, m2, t0, t1, t2, m0 + t0, m1 + t1, m2 + t2);
  }

  /** The moments as reals, so that what is summed stays out of sight. */
  function RealMoment(a: nat, b: nat, d: nat, p: nat, k: nat): real
    requires k <= d
  {
    (if k == 0 then 0.0 else RealMoment(a, b, d, p, k - 1)) + Term(a, b, d, k, Weight(p, k)) as real
  }

  lemma {:induction false} RealMomentIs(a: nat, b: nat, d: nat, p: nat, k: nat)
    requires k <= d
    ensures RealMoment(a, b, d, p, k) == Moment(a, b, d, p, k) as real
  {
    if k > 0 { RealMomentIs(a, b, d, p, k - 1); }
  }

  lemma SpreadFirst(a: nat, b: nat, d: nat, e: real)
    ensures Spread(a, b, d, e, 0)
         == Squares(e, RealMoment(a, b, d, 0, 0), RealMoment(a, b, d, 1, 0), RealMoment(a, b, d, 2, 0))
  {
    TermSquares(a, b, d, e, 0, Term(a, b, d, 0, Weight(0, 0)), Term(a, b, d, 0, Weight(1, 0)), Term(a, b, d, 0, Weight(2, 0)));
  }

  lemma {:induction false} SpreadIs(a: nat, b: nat, d: nat, e: real, k: nat)
    requires k <= d
    ensures Spread(a, b, d, e, k)
         == Squares(e, RealMoment(a, b, d, 0, k), RealMoment(a, b, d, 1, k), RealMoment(a, b, d, 2, k))
    decreases k
  {
    if k == 0 {
      SpreadFirst(a, b, d, e);
    } else {
      SpreadIs(a, b, d, e, k - 1);
      var t0, t1, t2 := Term(a, b, d, k, Weight(0, k)), Term(a, b, d, k, Weight(1, k)), Term(a, b, d, k, Weight(2, k));
      TermSquares(a, b, d, e, k, t0, t1, t2);
      SpreadNext(a, b, d, e, k, RealMoment(a, b, d, 0, k - 1), RealMoment(a, b, d, 1, k - 1), RealMoment(a, b, d, 2, k - 1),
                 t0 as real, t1 as real, t2 as real);
    }
  }

  /** The moments of a draw of `d` from `n = a + b`, cleared of their denominators. */
  lemma MomentsOfDraw(a: nat, b: nat, d: nat, w: nat, m1: int, m2: int)
    requires a + b > 1 && d <= a + b && w == Ways(a + b, d) && m1 == Moment(a, b, d, 1, d) && m2 == Moment(a, b, d, 2, d)
    ensures var n := a + b;
            && w > 0 && n * m1 == a * d * w
            && n * (n - 1) * m2 == a * (a - 1) * (d * (d - 1)) * w
  {
    var n := a + b;
    WaysPositive(n, d);
    FirstMoment(a, b, d);
    SecondMoment(a, b, d);
    if d > 0 { Absorb(n, d); }
    if d > 1 { Absorb(n - 1, d - 1); }
    Clear(a, d, n, w, Choose(n - 1, d - 1), Choose(n - 2, d - 2));
  }

  lemma Clear(a: int, d: int, n: int, w: int, x: int, y: int)
    requires d * w == n * x && (d - 1) * x == (n - 1) * y
    ensures n * (a * x) == a * d * w && n * (n - 1) * (a * (a - 1) * y) == a * (a - 1) * (d * (d - 1)) * w
  {
    assert n * (a * x) == a * (n * x);
    assert a * (d * w) == a * d * w;
    ClearSecond(a * (a - 1), d, n, w, x, y);
  }

  lemma ClearSecond(r: int, d: int, n: int, w: int, x: int, y: int)
    requires d * w == n * x && (d - 1) * x == (n - 1) * y
    ensures n * (n - 1) * (r * y) == r * (d * (d - 1)) * w
  {
    Shuffle(n, n - 1, r, y);
    Shuffle(d - 1, d, r, w);
    assert n * ((d - 1) * x) == (d - 1) * (n * x);
  }

  lemma Shuffle(p: int, q: int, r: int, y: int)
    ensures p * q * (r * y) == r * (p * (q * y)) && r * (p * (q * y)) == r * (q * p) * y
  {
    assert p * q * (r * y) == r * (p * q * y);
    assert p * q * y == p * (q * y);
    assert r * (q * p * y) == r * (q * p) * y;
  }

  /** The three moments, over `w` ways, of a draw with `x = a * d` and `s = a + d`. */
  predicate Cleared(n: real, w: real, x: real, s: real, m0: real, m1: real, m2: real) {
    && n > 1.0 && w > 0.0 && m0 == w && n * m1 == x * w
    && n * (n - 1.0) * m2 == x * (x - s + 1.0) * w
  }

  lemma AsReals(a: int, d: int, n: int, w: int, m1: int, m2: int)
    requires n > 1 && w > 0 && n * m1 == a * d * w && n * (n - 1) * m2 == a * (a - 1) * (d * (d - 1)) * w
    ensures Cleared(n as real, w as real, (a * d) as real, (a + d) as real, w as real, m1 as real, m2 as real)
  {
    Factor(a, d);
    ProductsAsReals(n, w, a * d, a + d, m1, m2);
  }

  lemma ProductsAsReals(n: int, w: int, x: int, s: int, m1: int, m2: int)
    requires n > 1 && w > 0 && n * m1 == x * w && n * (n - 1) * m2 == x * (x - s + 1) * w
    ensures Cleared(n as real, w as real, x as real, s as real, w as real, m1 as real, m2 as real)
  {
    Times(n, m1);
    Times(x, w);
    AsRealProducts(n, n - 1, m2, x, x - s + 1, w);
  }

  lemma AsRealProducts(n: int, c: int, m: int, x: int, y: int, w: int)
    requires n * c * m == x * y * w
    ensures n as real * c as real * m as real == x as real * y as real * w as real
  {
    Times(n * c, m);
    Times(n, c);
    Times(x * y, w);
    Times(x, y);
  }

  lemma Factor(a: int, d: int)
    ensures a * (a - 1) * (d * (d - 1)) == a * d * (a * d - (a + d) + 1)
  {
    assert (a - 1) * (d - 1) == a * d - (a + d) + 1;
    assert a * (a - 1) * (d * (d - 1)) == a * d * ((a - 1) * (d - 1)) by { Regroup(a, a - 1, d, d - 1); }
  }

  lemma Regroup(p: int, q: int, r: int, s: int)
    ensures p * q * (r * s) == p * r * (q * s)
  {
    assert p * q * (r * s) == p * (q * (r * s)) && q * (r * s) == r * (q * s);
    assert p * (r * (q * s)) == p * r * (q * s);
  }

  lemma Cancel(n: real, y: real, z: real)
    requires n > 0.0 && n * y == n * z
    ensures y == z
  {
    Divides(n * y, n, y);
    Divides(n * z, n, z);
  }

  lemma MeanMoment(n: real, w: real, x: real, e: real, m1: real)
    requires n > 0.0 && e * n == x && n * m1 == x * w
    ensures m1 == e * w
  {
    assert n * (e * w) == e * n * w;
    Cancel(n, m1, e * w);
  }

  lemma SquaresAt(e: real, w: real, m1: real, m2: real)
    requires m1 == e * w
    ensures Squares(e, w, m1, m2) == m2 + m1 - e * m1
  {
    assert e * e * w == e * m1;
  }

  /** From the moments to the spread, over the common denominator. */
  lemma SpreadOfMoments(n: real, w: real, x: real, s: real, e: real, m1: real, m2: real)
    requires e * n == x && m1 == e * w && n * m1 == x * w && n * (n - 1.0) * m2 == x * (x - s + 1.0) * w
    ensures n * n * (n - 1.0) * (m2 + m1 - e * m1) == x * (n * n - n * s + x) * w
  {
    TwiceMean(n, w, x, e, m1);
    Expand3(x, s, w);
    Combine(n, n - 1.0, m2, m1, e * m1, x * w, x * (x * w), s);
    Expand4(x, n, s, w);
  }

  lemma TwiceMean(n: real, w: real, x: real, e: real, m1: real)
    requires e * n == x && n * m1 == x * w
    ensures n * (n * (e * m1)) == x * (x * w)
  {
    assert n * (e * m1) == e * (n * m1);
    assert n * (e * (x * w)) == e * n * (x * w);
  }

  lemma Expand3(x: real, s: real, w: real)
    ensures x * (x - s + 1.0) * w == x * (x * w) - s * (x * w) + x * w
  {
    assert x * (x - s + 1.0) == x * x - x * s + x;
    assert (x * x - x * s + x) * w == x * x * w - x * s * w + x * w;
    assert x * s * w == s * (x * w);
  }

  lemma Expand4(x: real, n: real, s: real, w: real)
    ensures x * (n * n - n * s + x) * w == n * n * (x * w) - n * s * (x * w) + x * (x * w)
  {
    var nn, ns := n * n, n * s;
    assert x * (nn - ns + x) == x * nn - x * ns + x * x;
    assert (x * nn - x * ns + x * x) * w == x * nn * w - x * ns * w + x * x * w;
  }

  lemma Combine(n: real, c: real, m2: real, ew: real, eew: real, xw: real, xxw: real, s: real)
    requires c == n - 1.0 && n * ew == xw && n * (n * eew) == xxw
    requires n * c * m2 == xxw - s * xw + xw
    ensures n * n * c * (m2 + ew - eew) == n * n * xw - n * s * xw + xxw
  {
    var p, q, r := n * n * c * m2, n * n * c * ew, n * n * c * eew;
    assert p == n * xxw - n * s * xw + n * xw by { assert p == n * (n * c * m2); assert n * (s * xw) == n * s * xw; }
    assert q == n * n * xw - n * xw by { assert q == n * c * (n * ew); }
    assert r == n * xxw - xxw by { assert r == c * (n * (n * eew)); }
    assert n * n * c * (m2 + ew - eew) == p + q - r;
  }

  lemma MeanFrom(n: real, w: real, x: real, s: real, m0: real, m1: real, m2: real)
    requires Cleared(n, w, x, s, m0, m1, m2)
    ensures m1 / w == x / n
  {
    MeanMoment(n, w, x, x / n, m1);
    Divides(m1, w, x / n);
  }

  lemma VarianceFrom(n: real, w: real, x: real, s: real, m0: real, m1: real, m2: real)
    requires Cleared(n, w, x, s, m0, m1, m2)
    ensures n * n * (n - 1.0) > 0.0 && Squares(x / n, m0, m1, m2) / w == x * (n * n - n * s + x) / (n * n * (n - 1.0))
  {
    var e, q := x / n, n * n * (n - 1.0);
    Denominator(n, q);
    MeanMoment(n, w, x, e, m1);
    SquaresAt(e, w, m1, m2);
    SpreadOfMoments(n, w, x, s, e, m1, m2);
    Cross(q, m2 + m1 - e * m1, x * (n * n - n * s + x), w);
  }

  lemma Denominator(n: real, q: real)
    requires n > 1.0 && q == n * n * (n - 1.0)
    ensures q > 0.0
  {
    BothPositive(n, n, n * n);
    BothPositive(n * n, n - 1.0, q);
  }

  lemma Cross(q: real, k: real, p: real, w: real)
    requires q > 0.0 && w > 0.0 && q * k == p * w
    ensures k / w == p / q
  {
    var r := p / q;
    assert q * (r * w) == q * r * w;
    Cancel(q, k, r * w);
    Divides(k, w, r);
  }

  lemma ClearedMoments(a: nat, b: nat, d: nat, m0: real, m1: real, m2: real)
    requires a + b > 1 && d <= a + b
    requires m0 == RealMoment(a, b, d, 0, d) && m1 == RealMoment(a, b, d, 1, d) && m2 == RealMoment(a, b, d, 2, d)
    ensures Cleared((a + b) as real, Ways(a + b, d) as real, (a * d) as real, (a + d) as real, m0, m1, m2)
  {
    RealMomentIs(a, b, d, 0, d);
    RealMomentIs(a, b, d, 1, d);
    RealMomentIs(a, b, d, 2, d);
    AllWays(a, b, d);
    MomentsCleared(a, b, d, Ways(a + b, d), Moment(a, b, d, 1, d), Moment(a, b, d, 2, d));
  }

  lemma MomentsCleared(a: nat, b: nat, d: nat, w: nat, m1: int, m2: int)
    requires a + b > 1 && d <= a + b && w == Ways(a + b, d) && m1 == Moment(a, b, d, 1, d) && m2 == Moment(a, b, d, 2, d)
    ensures Cleared((a + b) as real, w as real, (a * d) as real, (a + d) as real, w as real, m1 as real, m2 as real)
  {
    MomentsOfDraw(a, b, d, w, m1, m2);
    AsReals(a, d, a + b, w, m1, m2);
  }

  /** The mean number of the first kind among the drawn. */
  lemma MeanIs(a: nat, b: nat, d: nat)
    requires a + b > 1 && d <= a + b
    ensures Ways(a + b, d) > 0 && Mean(a, b, d) == (a * d) as real / (a + b) as real
  {
    var m0, m1, m2 := RealMoment(a, b, d, 0, d), RealMoment(a, b, d, 1, d), RealMoment(a, b, d, 2, d);
    WaysPositive(a + b, d);
    ClearedMoments(a, b, d, m0, m1, m2);
    MeanFrom((a + b) as real, Ways(a + b, d) as real, (a * d) as real, (a + d) as real, m0, m1, m2);
    SumIs(a, b, d, d);
    RealMomentIs(a, b, d, 1, d);
  }

  /** And its variance, about that mean. */
  lemma VarianceIs(a: nat, b: nat, d: nat)
    requires a + b > 1 && d <= a + b
    ensures var n := a + b;
            Ways(n, d) > 0 && n * n * (n - 1) > 0
            && Variance(a, b, d) == (a * b * d * (n - d)) as real / (n * n * (n - 1)) as real
  {
    var m0, m1, m2 := RealMoment(a, b, d, 0, d), RealMoment(a, b, d, 1, d), RealMoment(a, b, d, 2, d);
    MeanIs(a, b, d);
    ClearedMoments(a, b, d, m0, m1, m2);
    VarianceFrom((a + b) as real, Ways(a + b, d) as real, (a * d) as real, (a + d) as real, m0, m1, m2);
    SpreadIs(a, b, d, Mean(a, b, d), d);
    Tops(a, b, d);
    Bottoms(a + b);
  }

  lemma Tops(a: int, b: int, d: int)
    ensures var n := a + b;
            (a * b * d * (n - d)) as real == (a * d) as real * (n as real * n as real - n as real * (a + d) as real + (a * d) as real)
  {
    var n := a + b;
    assert b * (n - d) == n * n - n * (a + d) + a * d;
    assert a * b * d * (n - d) == a * d * (b * (n - d)) by {
      assert a * b * d == a * d * b;
      assert a * d * b * (n - d) == a * d * (b * (n - d));
    }
    var t := n * n - n * (a + d) + a * d;
    assert t as real == n as real * n as real - n as real * (a + d) as real + (a * d) as real;
    assert (a * d * t) as real == (a * d) as real * t as real;
  }

  lemma Bottoms(n: int)
    requires n > 1
    ensures n * n * (n - 1) > 0 && (n * n * (n - 1)) as real == n as real * n as real * (n as real - 1.0)
  {
    assert n * n > 0;
  }
}
