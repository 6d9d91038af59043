/** The Wilson score interval (prayas/inference/nowcast.py) over exact reals; `root` is the square root used. */
module Wilson {
  import opened Reals

  ghost predicate IsRoot(root: real -> real) {
    forall x :: x >= 0.0 ==> root(x) >= 0.0 && root(x) * root(x) == x
  }

  function Centre(p: real, n: real, z: real): real
    requires n > 0.0
  {
    Positive(n, z);
    (p + z * z / (2.0 * n)) / (1.0 + z * z / n)
  }

  function Margin(p: real, n: real, z: real, root: real -> real): real
    requires n > 0.0
  {
    Positive(n, z);
    (z / (1.0 + z * z / n)) * root(p * (1.0 - p) / n + z * z / (4.0 * (n * n)))
  }

  lemma Positive(n: real, z: real)
    requires n > 0.0
    ensures z * z >= 0.0 && z * z / n >= 0.0
  {}

  /** The interval the source returns, clamps included. */
  function Interval(successes: nat, attempts: nat, z: real, root: real -> real): (real, real) {
    if attempts == 0 then (0.0, 1.0)
    else
      var n, p := attempts as real, successes as real / attempts as real;
      var lower, upper := Centre(p, n, z) - Margin(p, n, z, root), Centre(p, n, z) + Margin(p, n, z, root);
      (if lower < 0.0 then 0.0 else lower, if upper > 1.0 then 1.0 else upper)
  }

  // With a = z^2/n and y = z times the root, all bounds follow from y^2 = a p (1 - p) + a^2 / 4.

  ghost predicate Spread(p: real, a: real, y: real) {
    && 0.0 <= p <= 1.0 && a >= 0.0 && y >= 0.0
    && y * y == a * (p * (1.0 - p)) + a * a / 4.0
  }

  lemma BelowCentre(p: real, a: real, y: real)
    requires Spread(p, a, y)
    ensures y <= p + a / 2.0
  {
    var b, pp, ap := p + a / 2.0, p * p, a * p;
    assert b * b == pp + ap + a * a / 4.0;
    assert a * (p * (1.0 - p)) == ap - a * pp;
    NonNegative(p, p);
    NonNegative(a, pp);
    SquareOrder(y, b);
  }

  lemma Mirror(p: real, a: real, y: real)
    requires Spread(p, a, y)
    ensures Spread(1.0 - p, a, y)
  {
    assert (1.0 - p) * (1.0 - (1.0 - p)) == p * (1.0 - p);
  }

  lemma CoversRate(p: real, a: real, y: real)
    requires Spread(p, a, y)
    ensures y >= a * (0.5 - p)
  {
    var q, d := p * (1.0 - p), a * (0.5 - p);
    NonNegative(p, 1.0 - p);
    NonNegative(a, q);
    NonNegative(a, a * q);
    assert (0.5 - p) * (0.5 - p) == 0.25 - q;
    Square(a, 0.5 - p);
    assert d * d == a * a * (0.25 - q) == a * a / 4.0 - a * (a * q) by { assert a * a * q == a * (a * q); }
    if d > 0.0 { SquareOrder(d, y); }
  }

  lemma Square(a: real, x: real)
    ensures (a * x) * (a * x) == a * a * (x * x)
  {}

  lemma ThinSpread(p: real, a: real, y: real)
    requires Spread(p, a, y)
    ensures y >= a / 2.0 - p
  {
    var e, pp, ap := a / 2.0 - p, p * p, a * p;
    if e > 0.0 {
      assert e * e == a * a / 4.0 - ap + pp;
      assert a * (p * (1.0 - p)) == ap - a * pp;
      NonNegative(a, 1.0 - p);
      NonNegative(p, 2.0 * a - ap - p);
      assert p * (2.0 * a - ap - p) == 2.0 * ap - a * pp - pp;
      SquareOrder(e, y);
    }
  }

  lemma SquareOrder(x: real, y: real)
    requires x >= 0.0 && y >= 0.0 && x * x <= y * y
    ensures x <= y
  {
    if x > y { SquareGrows(x, y); }
  }

  lemma SquareGrows(x: real, y: real)
    requires x > y >= 0.0
    ensures x * x > y * y
  {
    Larger(x, x, y);
    NonNegative(x - y, y);
    assert x * y - y * y == (x - y) * y;
  }

  lemma SumOver(x: real, y: real, d: real)
    requires d != 0.0
    ensures x / d + y / d == (x + y) / d && x / d - y / d == (x - y) / d
  {
    Divides(x + y, d, x / d + y / d);
    Divides(x - y, d, x / d - y / d);
  }

  lemma Quotient(x: real, y: real, d: real)
    requires d > 0.0
    ensures x <= y <==> x / d <= y / d
  {}

  /** Centre and margin over the common denominator 1 + a. */
  lemma Shape(p: real, n: real, z: real, root: real -> real) returns (a: real, y: real)
    requires IsRoot(root) && 0.0 <= p <= 1.0 && n > 0.0 && z >= 0.0
    ensures a == z * z / n && Spread(p, a, y)
    ensures Centre(p, n, z) == (p + a / 2.0) / (1.0 + a) && Margin(p, n, z, root) == y / (1.0 + a)
  {
    a := z * z / n;
    Positive(n, z);
    var q := p * (1.0 - p);
    NonNegative(p, 1.0 - p);
    var r := q / n + z * z / (4.0 * (n * n));
    Radicand(q, n, z);
    y := z * root(r);
    RootSpread(p, a, z, r, root(r));
    Halves(z * z, n);
    Scaled(z, root(r), 1.0 + a);
  }

  lemma RootSpread(p: real, a: real, z: real, r: real, s: real)
    requires 0.0 <= p <= 1.0 && a >= 0.0 && z >= 0.0 && s >= 0.0 && s * s == r
    requires z * z * r == a * (p * (1.0 - p)) + a * a / 4.0
    ensures Spread(p, a, z * s)
  {
    NonNegative(z, s);
    Square(z, s);
  }

  lemma Halves(w: real, n: real)
    requires n > 0.0
    ensures w / (2.0 * n) == w / n / 2.0
  {
    Divides(w, 2.0 * n, w / n / 2.0);
  }

  lemma Scaled(z: real, r: real, d: real)
    requires d != 0.0
    ensures (z / d) * r == (z * r) / d
  {
    Divides(z * r, d, (z / d) * r);
  }

  lemma Radicand(q: real, n: real, z: real)
    requires n > 0.0 && q >= 0.0
    ensures q / n + z * z / (4.0 * (n * n)) >= 0.0
    ensures var a := z * z / n; z * z * (q / n + z * z / (4.0 * (n * n))) == a * q + a * a / 4.0
  {
    var w, a := z * z, z * z / n;
    Positive(n, z);
    OverSquare(w, n);
    assert w * (q / n) == a * q;
    assert w * (a / n / 4.0) == a * a / 4.0;
  }

  lemma OverSquare(w: real, n: real)
    requires n > 0.0
    ensures 4.0 * (n * n) > 0.0 && w / (4.0 * (n * n)) == w / n / n / 4.0
  {
    var c := w / n / n;
    SquareGrows(n, 0.0);
    Compose(w, w / n, c, n);
    var x := n * n;
    assert x > 0.0;
    assert w == c * x;
    OverFour(w, x, c);
  }

  lemma OverFour(w: real, x: real, c: real)
    requires x > 0.0 && w == c * x
    ensures w / (4.0 * x) == c / 4.0
  {
    Quarter(c, x);
    Divides(w, 4.0 * x, c / 4.0);
  }

  lemma Compose(w: real, a: real, c: real, n: real)
    requires n > 0.0 && a == w / n && c == a / n
    ensures w == c * (n * n)
  {
    assert w == a * n && a == c * n;
    assert (c * n) * n == c * (n * n);
  }

  lemma Quarter(c: real, x: real)
    ensures (c / 4.0) * (4.0 * x) == c * x
  {}

  /** The clamps never act: the interval lies in [0, 1] and holds the observed rate. */
  lemma IntervalHoldsRate(successes: nat, attempts: nat, z: real, root: real -> real)
    requires IsRoot(root) && z >= 0.0 && 0 < attempts && successes <= attempts
    ensures var n, p := attempts as real, successes as real / attempts as real;
            var i := Interval(successes, attempts, z, root);
            && i == (Centre(p, n, z) - Margin(p, n, z, root), Centre(p, n, z) + Margin(p, n, z, root))
            && 0.0 <= i.0 <= p <= i.1 <= 1.0
  {
    var n, p := attempts as real, successes as real / attempts as real;
    assert 0.0 <= p <= 1.0;
    Bounds(p, n, z, root);
  }

  lemma Bounds(p: real, n: real, z: real, root: real -> real)
    requires IsRoot(root) && 0.0 <= p <= 1.0 && n > 0.0 && z >= 0.0
    ensures 0.0 <= Centre(p, n, z) - Margin(p, n, z, root) <= p <= Centre(p, n, z) + Margin(p, n, z, root) <= 1.0
  {
    var a, y := Shape(p, n, z, root);
    BelowCentre(p, a, y);
    CoversRate(p, a, y);
    Mirror(p, a, y);
    BelowCentre(1.0 - p, a, y);
    CoversRate(1.0 - p, a, y);
    Ends(p, a, y);
  }

  lemma Ends(p: real, a: real, y: real)
    requires a >= 0.0 && y <= p + a / 2.0 && y <= 1.0 - p + a / 2.0 && y >= a * (0.5 - p) && y >= a * (p - 0.5)
    ensures 0.0 <= (p + a / 2.0) / (1.0 + a) - y / (1.0 + a) <= p
    ensures p <= (p + a / 2.0) / (1.0 + a) + y / (1.0 + a) <= 1.0
  {
    var d, c, pd := 1.0 + a, p + a / 2.0, p * (1.0 + a);
    SumOver(c, y, d);
    Divides(pd, d, p);
    Divides(d, d, 1.0);
    Divides(0.0, d, 0.0);
    assert pd == p + a * p;
    Quotient(0.0, c - y, d);
    Quotient(c - y, pd, d);
    Quotient(pd, c + y, d);
    Quotient(c + y, d, d);
  }

  /** Nothing tried, nothing ruled out: exactly the rates there are lie in the interval. */
  lemma IntervalOfNothing(z: real, root: real -> real, x: real)
    ensures var i := Interval(0, 0, z, root); i.0 <= x <= i.1 <==> 0.0 <= x <= 1.0
  {}

  /** The interval is the score interval: the rates from which the observed one is at most z standard errors away. */
  lemma IntervalIsScore(successes: nat, attempts: nat, z: real, root: real -> real, x: real)
    requires IsRoot(root) && z >= 0.0 && 0 < attempts && successes <= attempts
    ensures var n, p := attempts as real, successes as real / attempts as real;
            var i := Interval(successes, attempts, z, root);
            i.0 <= x <= i.1 <==> n * ((x - p) * (x - p)) <= z * z * (x * (1.0 - x))
  {
    var n, p := attempts as real, successes as real / attempts as real;
    IntervalHoldsRate(successes, attempts, z, root);
    ScoreAt(p, n, z, root, x, Centre(p, n, z), Margin(p, n, z, root));
  }

  lemma ScoreAt(p: real, n: real, z: real, root: real -> real, x: real, c: real, m: real)
    requires IsRoot(root) && 0.0 <= p <= 1.0 && n > 0.0 && z >= 0.0 && c == Centre(p, n, z) && m == Margin(p, n, z, root)
    ensures c - m <= x <= c + m <==> n * ((x - p) * (x - p)) <= z * z * (x * (1.0 - x))
  {
    var a, y := Shape(p, n, z, root);
    ScoreOver(p, a, y, x, c, m);
    PerAttempt(n, z, a, x, p);
  }

  lemma PerAttempt(n: real, z: real, a: real, x: real, p: real)
    requires n > 0.0 && a == z * z / n
    ensures n * ((x - p) * (x - p)) <= z * z * (x * (1.0 - x)) <==> (x - p) * (x - p) <= a * (x * (1.0 - x))
  {
    var s, v := (x - p) * (x - p), a * (x * (1.0 - x));
    assert z * z * (x * (1.0 - x)) == n * v by { assert z * z == a * n; }
    assert n * ((x - p) * (x - p)) == n * s;
    if s > v { Larger(n, s, v); }
    if s < v { Larger(n, v, s); }
  }

  lemma ScoreOver(p: real, a: real, y: real, x: real, c: real, m: real)
    requires Spread(p, a, y) && c == (p + a / 2.0) / (1.0 + a) && m == y / (1.0 + a)
    ensures c - m <= x <= c + m <==> (x - p) * (x - p) <= a * (x * (1.0 - x))
  {
    var d, b, e := 1.0 + a, p + a / 2.0, (x - p) * (x - p) - a * (x * (1.0 - x));
    var t := x * d - b;
    SumOver(b, y, d);
    Divides(x * d, d, x);
    Quotient(b - y, x * d, d);
    Quotient(x * d, b + y, d);
    Completed(p, a, y, x, t);
    Within(t, y);
    SignOf(d, e);
  }

  lemma SignOf(d: real, e: real)
    requires d > 0.0
    ensures d * e <= 0.0 <==> e <= 0.0
  {
    if e > 0.0 { BothPositive(d, e, d * e); }
    if e <= 0.0 { NonNegative(d, -e); }
  }

  lemma Within(t: real, y: real)
    requires y >= 0.0
    ensures -y <= t <= y <==> t * t <= y * y
  {
    var m := if t < 0.0 then -t else t;
    assert m * m == t * t;
    if m > y { SquareGrows(m, y); }
    if m < y { SquareGrows(y, m); }
  }

  /** Completing the square. */
  lemma Completed(p: real, a: real, y: real, x: real, t: real)
    requires Spread(p, a, y) && t == x * (1.0 + a) - (p + a / 2.0)
    ensures t * t - y * y == (1.0 + a) * ((x - p) * (x - p) - a * (x * (1.0 - x)))
  {
    var u, v, q := x - p, x - 0.5, x * (1.0 - x);
    assert t == u + a * v;
    SquareSum(u, a, v);
    assert v * v == 0.25 - q;
    assert a * a * (v * v) == a * a / 4.0 - a * a * q;
    assert 2.0 * (u * v) - p * (1.0 - p) == u * u - q;
    assert a * (2.0 * (u * v) - p * (1.0 - p)) == a * (u * u) - a * q;
    assert (1.0 + a) * (u * u - a * q) == u * u + a * (u * u) - a * q - a * a * q by { Over(a, u * u, q); }
  }

  lemma Over(a: real, s: real, q: real)
    ensures (1.0 + a) * (s - a * q) == s + a * s - a * q - a * a * q
  {
    assert a * (s - a * q) == a * s - a * (a * q);
  }

  lemma SquareSum(u: real, a: real, v: real)
    ensures (u + a * v) * (u + a * v) == u * u + a * (2.0 * (u * v)) + a * a * (v * v)
  {
    var w := a * v;
    assert (u + w) * (u + w) == u * u + 2.0 * (u * w) + w * w;
    assert u * w == a * (u * v);
    Square(a, v);
  }

  /** However bad the outcomes, few attempts keep the upper bound high: it is at least z^2 / (n + z^2). */
  lemma ThinSampleStaysHigh(successes: nat, attempts: nat, z: real, root: real -> real)
    requires IsRoot(root) && z >= 0.0 && 0 < attempts && successes <= attempts
    ensures Interval(successes, attempts, z, root).1 >= z * z / (attempts as real + z * z)
  {
    IntervalHoldsRate(successes, attempts, z, root);
    ThinUpper(successes as real / attempts as real, attempts as real, z, root);
  }

  lemma ThinUpper(p: real, n: real, z: real, root: real -> real)
    requires IsRoot(root) && 0.0 <= p <= 1.0 && n > 0.0 && z >= 0.0
    ensures n + z * z > 0.0
    ensures Centre(p, n, z) + Margin(p, n, z, root) >= z * z / (n + z * z)
  {
    var a, y := Shape(p, n, z, root);
    ThinSpread(p, a, y);
    ThinEnd(p, a, y);
    ThinBound(n, z);
  }

  lemma ThinEnd(p: real, a: real, y: real)
    requires a >= 0.0 && y >= a / 2.0 - p
    ensures (p + a / 2.0) / (1.0 + a) + y / (1.0 + a) >= a / (1.0 + a)
  {
    SumOver(p + a / 2.0, y, 1.0 + a);
    Quotient(a, p + a / 2.0 + y, 1.0 + a);
  }

  lemma ThinBound(n: real, z: real)
    requires n > 0.0
    ensures z * z / n >= 0.0 && n + z * z > 0.0
    ensures (z * z / n) / (1.0 + z * z / n) == z * z / (n + z * z)
  {
    Positive(n, z);
    var a := z * z / n;
    assert z * z == a * n;
    assert n + z * z == n * (1.0 + a);
  }
}

/** The change-point detector of one issuer: CUSUM down to an outage, a streak of windows back up. */
module Detector {
  import opened Common
  import opened Reals
  import Wilson

  const RECOVERY_WINDOWS: int := 2

  datatype Window = Window(start: int, attempts: nat, successes: nat)

  /** `upper` is the Wilson upper bound in use; `degradedBelow` is the fraction of the issuer's own baseline. */
  datatype Settings = Settings(degradedBelow: real, slack: real, threshold: real, minAttempts: nat, upper: (nat, nat) -> real)

  ghost predicate ValidSettings(cfg: Settings) { cfg.degradedBelow > 0.0 && cfg.minAttempts >= 1 }

  function Deviation(cfg: Settings, w: Window): real {
    if cfg.degradedBelow == 0.0 then 0.0 else (cfg.degradedBelow - cfg.upper(w.successes, w.attempts)) / cfg.degradedBelow
  }

  predicate Degraded(cfg: Settings, w: Window) {
    w.attempts >= cfg.minAttempts && cfg.upper(w.successes, w.attempts) < cfg.degradedBelow
  }

  datatype State = State(down: real, up: real, since: Option<int>, streak: int, outages: seq<int>)

  const INITIAL: State := State(0.0, 0.0, None, 0, [])

  function Floored(x: real): real { if x < 0.0 then 0.0 else x }

  function Step(cfg: Settings, s: State, w: Window): State {
    var d := Deviation(cfg, w);
    var t := s.(down := Floored(s.down + d - cfg.slack), up := Floored(s.up - d - cfg.slack));
    if s.since.None? then
      if t.down > cfg.threshold && Degraded(cfg, w) then t.(since := Some(w.start), up := 0.0, streak := 0) else t
    else if Degraded(cfg, w) then t.(streak := if s.streak - 1 < 0 then 0 else s.streak - 1)
    else if s.streak + 1 >= RECOVERY_WINDOWS then
      t.(outages := s.outages + [w.start - s.since.value], since := None, down := 0.0, streak := 0)
    else t.(streak := s.streak + 1)
  }

  function Run(cfg: Settings, s: State, ws: seq<Window>): State {
    if ws == [] then s else Step(cfg, Run(cfg, s, ws[..|ws| - 1]), ws[|ws| - 1])
  }

  // ---------------------------------------------------------------- what the sums mean

  function Sum(xs: seq<real>): real {
    if xs == [] then 0.0 else Sum(xs[..|xs| - 1]) + xs[|xs| - 1]
  }

  function Drifts(cfg: Settings, ws: seq<Window>): seq<real> { seq(|ws|, i requires 0 <= i < |ws| => Deviation(cfg, ws[i]) - cfg.slack) }

  function Votes(cfg: Settings, ws: seq<Window>): seq<real> { seq(|ws|, i requires 0 <= i < |ws| => Vote(cfg, ws[i])) }

  function Vote(cfg: Settings, w: Window): real { if Degraded(cfg, w) then -1.0 else 1.0 }

  /** The largest sum of a suffix, the empty one included. */
  ghost predicate LargestSuffix(xs: seq<real>, m: real) {
    && (exists k :: 0 <= k <= |xs| && Sum(xs[k..]) == m)
    && forall k :: 0 <= k <= |xs| ==> Sum(xs[k..]) <= m
  }

  /** Some stretch of consecutive windows adds up to at least `bar`. */
  ghost predicate Reaches(xs: seq<real>, bar: real) {
    exists j, k :: 0 <= j <= k <= |xs| && Sum(xs[j..k]) >= bar
  }

  lemma SumSnoc(xs: seq<real>, x: real, k: nat)
    requires k <= |xs|
    ensures Sum((xs + [x])[k..]) == Sum(xs[k..]) + x
  {
    assert (xs + [x])[k..] == xs[k..] + [x];
    assert (xs[k..] + [x])[..|xs| - k] == xs[k..];
  }

  lemma LargestStep(xs: seq<real>, x: real, m: real)
    requires LargestSuffix(xs, m)
    ensures LargestSuffix(xs + [x], Floored(m + x))
  {
    var ys := xs + [x];
    forall k | 0 <= k <= |ys| ensures Sum(ys[k..]) <= Floored(m + x) {
      if k <= |xs| { SumSnoc(xs, x, k); }
    }
    if m + x < 0.0 {
      assert Sum(ys[|ys|..]) == 0.0;
    } else {
      var k :| 0 <= k <= |xs| && Sum(xs[k..]) == m;
      SumSnoc(xs, x, k);
    }
  }

  lemma LargestEmpty()
    ensures LargestSuffix([], 0.0)
  {
    var xs: seq<real> := [];
    assert Sum(xs[0..]) == 0.0;
  }

  lemma ReachesStep(xs: seq<real>, x: real, bar: real, m: real)
    requires LargestSuffix(xs + [x], m)
    ensures Reaches(xs + [x], bar) <==> Reaches(xs, bar) || m >= bar
  {
    var ys := xs + [x];
    if Reaches(xs, bar) {
      var j, k :| 0 <= j <= k <= |xs| && Sum(xs[j..k]) >= bar;
      assert ys[j..k] == xs[j..k];
    }
    if m >= bar {
      var k :| 0 <= k <= |ys| && Sum(ys[k..]) == m;
      assert ys[k..|ys|] == ys[k..];
    }
    if Reaches(ys, bar) {
      var j, k :| 0 <= j <= k <= |ys| && Sum(ys[j..k]) >= bar;
      if k <= |xs| {
        assert xs[j..k] == ys[j..k];
      } else {
        assert ys[j..k] == ys[j..];
      }
    }
  }

  // ---------------------------------------------------------------- between recoveries

  lemma {:induction false} OutagesGrow(cfg: Settings, s: State, ws: seq<Window>)
    ensures |Run(cfg, s, ws).outages| >= |s.outages|
    ensures ws != [] ==> |Run(cfg, s, ws[..|ws| - 1]).outages| <= |Run(cfg, s, ws).outages|
    decreases |ws|
  {
    if ws != [] { OutagesGrow(cfg, s, ws[..|ws| - 1]); }
  }

  /** No outage ended while these windows were scored. */
  predicate Unrecovered(cfg: Settings, s: State, ws: seq<Window>) {
    |Run(cfg, s, ws).outages| == |s.outages|
  }

  lemma StepDown(cfg: Settings, s: State, w: Window)
    requires Step(cfg, s, w).outages == s.outages || |Step(cfg, s, w).outages| == |s.outages|
    ensures Step(cfg, s, w).down == Floored(s.down + (Deviation(cfg, w) - cfg.slack))
  {}

  /**
   * From a fresh start or a recovery to the next, `cusum_down` is the largest sum of (deviation - slack)
   * over a suffix of the scored windows, or zero.
   */
  lemma {:induction false} CusumIsLargestSuffix(cfg: Settings, s: State, ws: seq<Window>)
    requires s.down == 0.0 && Unrecovered(cfg, s, ws)
    ensures LargestSuffix(Drifts(cfg, ws), Run(cfg, s, ws).down)
    decreases |ws|
  {
    if ws == [] {
      LargestEmpty();
      assert Drifts(cfg, ws) == [];
    } else {
      var init, last := ws[..|ws| - 1], ws[|ws| - 1];
      OutagesGrow(cfg, s, init);
      OutagesGrow(cfg, s, ws);
      CusumIsLargestSuffix(cfg, s, init);
      var x := Deviation(cfg, last) - cfg.slack;
      StepDown(cfg, Run(cfg, s, init), last);
      LargestStep(Drifts(cfg, init), x, Run(cfg, s, init).down);
      DriftsSnoc(cfg, ws);
    }
  }

  lemma DriftsSnoc(cfg: Settings, ws: seq<Window>)
    requires ws != []
    ensures Drifts(cfg, ws) == Drifts(cfg, ws[..|ws| - 1]) + [Deviation(cfg, ws[|ws| - 1]) - cfg.slack]
  {}

  ghost predicate SuffixAbove(xs: seq<real>, bar: real) {
    exists j :: 0 <= j <= |xs| && Sum(xs[j..]) > bar
  }

  /** A confidently degraded window that ends a stretch whose drift exceeds the threshold. */
  ghost predicate Alarm(cfg: Settings, ws: seq<Window>, k: nat) {
    k < |ws| && Degraded(cfg, ws[k])
    && SuffixAbove(Drifts(cfg, ws[..k + 1]), cfg.threshold)
  }

  ghost predicate FirstAlarm(cfg: Settings, ws: seq<Window>, k: nat) {
    Alarm(cfg, ws, k) && forall i: nat :: i < k ==> !Alarm(cfg, ws, i)
  }

  lemma AlarmKnown(cfg: Settings, s: State, ws: seq<Window>)
    requires ws != [] && s.down == 0.0 && Unrecovered(cfg, s, ws)
    ensures Alarm(cfg, ws, |ws| - 1) <==> Degraded(cfg, ws[|ws| - 1]) && Run(cfg, s, ws).down > cfg.threshold
  {
    CusumIsLargestSuffix(cfg, s, ws);
    assert ws[..|ws|] == ws;
    var xs := Drifts(cfg, ws);
    if Alarm(cfg, ws, |ws| - 1) {
      var j :| 0 <= j <= |xs| && Sum(xs[j..]) > cfg.threshold;
      assert Sum(xs[j..]) <= Run(cfg, s, ws).down;
    }
  }

  /** An outage is on exactly when some window raised the alarm, and it dates from the first that did. */
  lemma {:induction false} DeclaredExactly(cfg: Settings, s: State, ws: seq<Window>)
    requires s.down == 0.0 && s.since.None? && Unrecovered(cfg, s, ws)
    ensures Run(cfg, s, ws).since.Some? <==> exists k: nat :: Alarm(cfg, ws, k)
    ensures forall k: nat :: FirstAlarm(cfg, ws, k) ==> Run(cfg, s, ws).since == Some(ws[k].start)
    decreases |ws|
  {
    if ws != [] {
      var n := |ws| - 1;
      var init := ws[..n];
      OutagesGrow(cfg, s, init);
      OutagesGrow(cfg, s, ws);
      DeclaredExactly(cfg, s, init);
      AlarmKnown(cfg, s, ws);
      forall k: nat | k < n ensures Alarm(cfg, ws, k) <==> Alarm(cfg, init, k) {
        assert init[..k + 1] == ws[..k + 1];
      }
      forall k: nat | FirstAlarm(cfg, ws, k) ensures Run(cfg, s, ws).since == Some(ws[k].start) {
        if k < n {
          assert FirstAlarm(cfg, init, k);
        } else {
          assert forall i: nat :: i < n ==> !Alarm(cfg, init, i);
        }
      }
    }
  }

  // ---------------------------------------------------------------- what raises the alarm

  /** How far the upper bounds of the windows from `j` to `k` stay below the degradation line, all together. */
  function Shortfall(cfg: Settings, ws: seq<Window>, j: nat, k: nat): real
    requires j <= k <= |ws|
    decreases k
  {
    if j == k then 0.0
    else Shortfall(cfg, ws, j, k - 1) + (cfg.degradedBelow - cfg.upper(ws[k - 1].successes, ws[k - 1].attempts))
  }

  /** The stretch from `j` to `k` falls short by more than its slack and the threshold. */
  predicate Short(cfg: Settings, ws: seq<Window>, j: nat, k: nat) {
    && j <= k + 1 <= |ws|
    && Shortfall(cfg, ws, j, k + 1) > (cfg.threshold + cfg.slack * (k + 1 - j) as real) * cfg.degradedBelow
  }

  /** A window thick enough and confidently below the line, at the end of such a stretch. */
  ghost predicate Outage(cfg: Settings, ws: seq<Window>, k: nat) {
    && k < |ws| && ws[k].attempts >= cfg.minAttempts && cfg.upper(ws[k].successes, ws[k].attempts) < cfg.degradedBelow
    && exists j: nat :: Short(cfg, ws, j, k)
  }

  /** The sum of what is accumulated, over the line. */
  ghost predicate Accumulates(s: real, line: real, f: real, slack: real, n: real) {
    s * line == f - slack * n * line
  }

  lemma {:induction false} DriftSums(cfg: Settings, ws: seq<Window>, j: nat, k: nat)
    requires ValidSettings(cfg) && j <= k <= |ws|
    ensures Accumulates(Sum(Drifts(cfg, ws[..k])[j..]), cfg.degradedBelow, Shortfall(cfg, ws, j, k), cfg.slack, (k - j) as real)
    decreases k
  {
    if j < k {
      DriftSums(cfg, ws, j, k - 1);
      DriftNext(cfg, ws, j, k, Sum(Drifts(cfg, ws[..k - 1])[j..]), Shortfall(cfg, ws, j, k - 1));
    } else {
      assert Drifts(cfg, ws[..k])[j..] == [];
    }
  }

  lemma DriftNext(cfg: Settings, ws: seq<Window>, j: nat, k: nat, s: real, f: real)
    requires ValidSettings(cfg) && j < k <= |ws|
    requires s == Sum(Drifts(cfg, ws[..k - 1])[j..]) && f == Shortfall(cfg, ws, j, k - 1)
    requires Accumulates(s, cfg.degradedBelow, f, cfg.slack, (k - 1 - j) as real)
    ensures Accumulates(Sum(Drifts(cfg, ws[..k])[j..]), cfg.degradedBelow, Shortfall(cfg, ws, j, k), cfg.slack, (k - j) as real)
  {
    var w := ws[k - 1];
    DriftSumSnoc(cfg, ws, j, k);
    DriftStep(s, cfg.degradedBelow, cfg.upper(w.successes, w.attempts), cfg.slack, f, (k - 1 - j) as real);
  }

  lemma DriftSumSnoc(cfg: Settings, ws: seq<Window>, j: nat, k: nat)
    requires j < k <= |ws|
    ensures Sum(Drifts(cfg, ws[..k])[j..]) == Sum(Drifts(cfg, ws[..k - 1])[j..]) + (Deviation(cfg, ws[k - 1]) - cfg.slack)
  {
    DriftsSnoc(cfg, ws[..k]);
    assert ws[..k][..k - 1] == ws[..k - 1];
    SumSnoc(Drifts(cfg, ws[..k - 1]), Deviation(cfg, ws[k - 1]) - cfg.slack, j);
  }

  lemma DriftStep(s: real, line: real, u: real, slack: real, f: real, n: real)
    requires line > 0.0 && Accumulates(s, line, f, slack, n)
    ensures Accumulates(s + ((line - u) / line - slack), line, f + (line - u), slack, n + 1.0)
  {
    assert (line - u) / line * line == line - u;
    assert slack * (n + 1.0) * line == slack * n * line + slack * line;
  }

  lemma AboveScaled(s: real, bar: real, line: real, f: real, slack: real, n: real)
    requires line > 0.0 && Accumulates(s, line, f, slack, n)
    ensures s > bar <==> f > (bar + slack * n) * line
  {
    assert (bar + slack * n) * line == bar * line + slack * n * line;
    if s > bar { Larger(line, s, bar); }
    if s < bar { Larger(line, bar, s); }
  }

  lemma StretchShort(cfg: Settings, ws: seq<Window>, j: nat, k: nat)
    requires ValidSettings(cfg) && j <= k + 1 <= |ws|
    ensures Sum(Drifts(cfg, ws[..k + 1])[j..]) > cfg.threshold <==> Short(cfg, ws, j, k)
  {
    DriftSums(cfg, ws, j, k + 1);
    AboveScaled(Sum(Drifts(cfg, ws[..k + 1])[j..]), cfg.threshold, cfg.degradedBelow, Shortfall(cfg, ws, j, k + 1), cfg.slack,
                (k + 1 - j) as real);
  }

  lemma AlarmExactly(cfg: Settings, ws: seq<Window>, k: nat)
    requires ValidSettings(cfg)
    ensures Alarm(cfg, ws, k) <==> Outage(cfg, ws, k)
  {
    if k < |ws| {
      var xs := Drifts(cfg, ws[..k + 1]);
      forall j: nat | j <= k + 1 ensures Sum(xs[j..]) > cfg.threshold <==> Short(cfg, ws, j, k) {
        StretchShort(cfg, ws, j, k);
      }
      if SuffixAbove(xs, cfg.threshold) {
        var j :| 0 <= j <= |xs| && Sum(xs[j..]) > cfg.threshold;
        assert Short(cfg, ws, j, k);
      }
      if j: nat :| Short(cfg, ws, j, k) {
        assert Sum(xs[j..]) > cfg.threshold;
      }
    }
  }

  lemma Distribute(d: real, x: real, y: real)
    ensures d * (1.0 - x - y) == d - (x + y) * d
  {}

  /**
   * One thin window cannot declare an outage by itself, however bad: not while z^2 / (n + z^2) is at least
   * (1 - slack - threshold) of the degradation line.
   */
  lemma ThinWindowCannotAlarm(cfg: Settings, s: State, w: Window, z: real, root: real -> real)
    requires ValidSettings(cfg) && cfg.threshold >= 0.0 && Wilson.IsRoot(root) && z >= 0.0
    requires 0 < w.attempts && w.successes <= w.attempts
    requires cfg.upper(w.successes, w.attempts) == Wilson.Interval(w.successes, w.attempts, z, root).1
    requires s.since.None? && s.down == 0.0
    requires z * z / (w.attempts as real + z * z) >= cfg.degradedBelow * (1.0 - cfg.slack - cfg.threshold)
    ensures Step(cfg, s, w).since.None?
  {
    Wilson.ThinSampleStaysHigh(w.successes, w.attempts, z, root);
    ThinDeviation(cfg.degradedBelow, cfg.upper(w.successes, w.attempts), cfg.slack, cfg.threshold);
  }

  lemma ThinDeviation(d: real, u: real, slack: real, threshold: real)
    requires d > 0.0 && u >= d * (1.0 - slack - threshold)
    ensures (d - u) / d <= slack + threshold
  {
    Distribute(d, slack, threshold);
    Wilson.Quotient(d - u, (slack + threshold) * d, d);
    Divides((slack + threshold) * d, d, slack + threshold);
  }

  // ---------------------------------------------------------------- recovery

  lemma {:induction false} StreakIsLargestSuffix(cfg: Settings, s: State, ws: seq<Window>)
    requires s.since.Some? && s.streak == 0 && Unrecovered(cfg, s, ws)
    ensures Run(cfg, s, ws).since == s.since && Run(cfg, s, ws).streak >= 0
    ensures LargestSuffix(Votes(cfg, ws), Run(cfg, s, ws).streak as real)
    decreases |ws|
  {
    if ws == [] {
      LargestEmpty();
      assert Votes(cfg, ws) == [];
    } else {
      var init, last := ws[..|ws| - 1], ws[|ws| - 1];
      OutagesGrow(cfg, s, init);
      OutagesGrow(cfg, s, ws);
      StreakIsLargestSuffix(cfg, s, init);
      LargestStep(Votes(cfg, init), Vote(cfg, last), Run(cfg, s, init).streak as real);
      assert Votes(cfg, ws) == Votes(cfg, init) + [Vote(cfg, last)];
    }
  }

  /**
   * An outage ends exactly when some stretch of windows since its declaration has RECOVERY_WINDOWS more
   * windows that are not confidently degraded than windows that are.
   */
  lemma {:induction false} RecoveredExactly(cfg: Settings, s: State, ws: seq<Window>)
    requires s.since.Some? && s.streak == 0
    ensures !Unrecovered(cfg, s, ws) <==> Reaches(Votes(cfg, ws), RECOVERY_WINDOWS as real)
    decreases |ws|
  {
    if ws == [] {
      forall j, k | 0 <= j <= k <= 0 ensures Sum(Votes(cfg, ws)[j..k]) == 0.0 {}
    } else {
      var init, last := ws[..|ws| - 1], ws[|ws| - 1];
      var xs, x := Votes(cfg, init), Vote(cfg, last);
      assert Votes(cfg, ws) == xs + [x];
      RecoveredExactly(cfg, s, init);
      OutagesGrow(cfg, s, init);
      OutagesGrow(cfg, s, ws);
      if Unrecovered(cfg, s, init) {
        StreakIsLargestSuffix(cfg, s, init);
        var m := Run(cfg, s, init).streak as real;
        LargestStep(xs, x, m);
        ReachesStep(xs, x, RECOVERY_WINDOWS as real, Floored(m + x));
        StreakBelow(cfg, s, init);
      } else {
        StillReaches(xs, x, RECOVERY_WINDOWS as real);
      }
    }
  }

  lemma StillReaches(xs: seq<real>, x: real, bar: real)
    requires Reaches(xs, bar)
    ensures Reaches(xs + [x], bar)
  {
    var j, k :| 0 <= j <= k <= |xs| && Sum(xs[j..k]) >= bar;
    assert (xs + [x])[j..k] == xs[j..k];
  }

  /** While the outage lasts the streak is 0 or 1, so losing one window is losing all of them. */
  lemma {:induction false} StreakBelow(cfg: Settings, s: State, ws: seq<Window>)
    requires s.since.Some? && s.streak == 0 && Unrecovered(cfg, s, ws)
    ensures Run(cfg, s, ws).since == s.since
    ensures Run(cfg, s, ws).streak == if ws != [] && !Degraded(cfg, ws[|ws| - 1]) then 1 else 0
    decreases |ws|
  {
    if ws != [] {
      OutagesGrow(cfg, s, ws[..|ws| - 1]);
      OutagesGrow(cfg, s, ws);
      StreakBelow(cfg, s, ws[..|ws| - 1]);
    }
  }

  ghost predicate TwoInARow(cfg: Settings, ws: seq<Window>) {
    exists k :: 0 <= k < |ws| - 1 && !Degraded(cfg, ws[k]) && !Degraded(cfg, ws[k + 1])
  }

  /**
   * With two recovery windows the decrement never differs from a reset: the outage ends exactly at two
   * consecutive windows that are not confidently degraded. A healthy, a degraded and a healthy window do
   * not end it, so one unlucky window can push recovery to the fourth.
   */
  lemma {:induction false} RecoveryTakesTwoInARow(cfg: Settings, s: State, ws: seq<Window>)
    requires s.since.Some? && s.streak == 0
    ensures !Unrecovered(cfg, s, ws) <==> TwoInARow(cfg, ws)
    decreases |ws|
  {
    if ws != [] {
      var n := |ws| - 1;
      var init := ws[..n];
      RecoveryTakesTwoInARow(cfg, s, init);
      OutagesGrow(cfg, s, init);
      OutagesGrow(cfg, s, ws);
      if Unrecovered(cfg, s, init) {
        StreakBelow(cfg, s, init);
        assert TwoInARow(cfg, ws) <==> n > 0 && !Degraded(cfg, ws[n - 1]) && !Degraded(cfg, ws[n]) by {
          assert forall k :: 0 <= k < n ==> init[k] == ws[k];
        }
      } else {
        var k :| 0 <= k < |init| - 1 && !Degraded(cfg, init[k]) && !Degraded(cfg, init[k + 1]);
        assert !Degraded(cfg, ws[k]) && !Degraded(cfg, ws[k + 1]);
      }
    }
  }

  /** One unlucky window among good ones costs two: the third window is not yet the end, the fourth is. */
  lemma OneUnluckyWindow(cfg: Settings, s: State, a: Window, bad: Window, b: Window, c: Window)
    requires s.since.Some? && s.streak == 0
    requires !Degraded(cfg, a) && Degraded(cfg, bad) && !Degraded(cfg, b) && !Degraded(cfg, c)
    ensures Unrecovered(cfg, s, [a, bad, b]) && !Unrecovered(cfg, s, [a, bad, b, c])
  {
    RecoveryTakesTwoInARow(cfg, s, [a, bad, b]);
    RecoveryTakesTwoInARow(cfg, s, [a, bad, b, c]);
    assert !Degraded(cfg, [a, bad, b, c][2]) && !Degraded(cfg, [a, bad, b, c][3]);
  }
}

/** The bucketed index behind the detector: open windows, the last 288 closed ones, and trailing counts. */
module Tracking {
  import opened Common
  import opened Detector

  const CLOSED_HISTORY: nat := 288

  /** Times are whole microseconds; window boundaries are found on whole seconds, rounded toward zero. */
  const SECOND: int := 1000000

  function Truncated(at: int): int { if at >= 0 then at / SECOND else -(-at / SECOND) }

  function WindowStart(at: int, width: int): int
    requires width > 0
  {
    (Truncated(at) - Truncated(at) % width) * SECOND
  }

  /** What is kept of closed windows is a day of them, at five minutes each. */
  lemma HistoryIsADay()
    ensures CLOSED_HISTORY * (5 * 60 * SECOND) == 24 * 60 * 60 * 1000000
  {}

  predicate Holds(start: int, width: int, at: int) { start <= at < start + width * SECOND }

  /** The window holds the observation, but for some of the first second of a window before 1970, rounded up into it. */
  lemma WindowHolds(at: int, width: int)
    requires width > 0
    ensures Holds(WindowStart(at, width), width, at) <==> at >= 0 || at % SECOND == 0 || Truncated(at) % width != 0
  {
    var t := Truncated(at);
    assert t - t % width <= t < t - t % width + width;
  }

  datatype Observation = Observation(start: int, success: bool)

  // ---------------------------------------------------------------- counting

  /** Attempts and successes of the windows that start at or after `floor`. */
  function Attempts(ws: seq<Window>, floor: int): nat {
    if ws == [] then 0 else Attempts(ws[..|ws| - 1], floor) + AttemptsOf(ws[|ws| - 1], floor)
  }

  function AttemptsOf(w: Window, floor: int): nat { if w.start >= floor then w.attempts else 0 }

  function Successes(ws: seq<Window>, floor: int): nat {
    if ws == [] then 0 else Successes(ws[..|ws| - 1], floor) + SuccessesOf(ws[|ws| - 1], floor)
  }

  function SuccessesOf(w: Window, floor: int): nat { if w.start >= floor then w.successes else 0 }

  /** The same counted from the raw observations. */
  function Logged(log: seq<Observation>, floor: int): nat {
    if log == [] then 0
    else Logged(log[..|log| - 1], floor) + (if log[|log| - 1].start >= floor then 1 else 0)
  }

  function LoggedSuccesses(log: seq<Observation>, floor: int): nat {
    if log == [] then 0
    else LoggedSuccesses(log[..|log| - 1], floor) + (if log[|log| - 1].start >= floor && log[|log| - 1].success then 1 else 0)
  }

  lemma {:induction false} CountsAppend(a: seq<Window>, b: seq<Window>, floor: int)
    ensures Attempts(a + b, floor) == Attempts(a, floor) + Attempts(b, floor)
    ensures Successes(a + b, floor) == Successes(a, floor) + Successes(b, floor)
    decreases |b|
  {
    if b == [] {
      assert a + b == a;
    } else {
      assert (a + b)[..|a + b| - 1] == a + b[..|b| - 1];
      CountsAppend(a, b[..|b| - 1], floor);
    }
  }

  lemma CountsOne(w: Window, floor: int)
    ensures Attempts([w], floor) == AttemptsOf(w, floor) && Successes([w], floor) == SuccessesOf(w, floor)
  {
    assert [w][..0] == [];
  }

  // ---------------------------------------------------------------- the open windows, in insertion order

  predicate Distinct(ws: seq<Window>) {
    forall i, j :: 0 <= i < j < |ws| ==> ws[i].start != ws[j].start
  }

  predicate Sensible(ws: seq<Window>) {
    forall i :: 0 <= i < |ws| ==> 1 <= ws[i].attempts && ws[i].successes <= ws[i].attempts
  }

  /** `setdefault(start).attempts += 1` */
  function Bump(ws: seq<Window>, start: int, success: bool): seq<Window> {
    var one := if success then 1 else 0;
    if ws == [] then [Window(start, 1, one)]
    else if ws[0].start == start then [Window(start, ws[0].attempts + 1, ws[0].successes + one)] + ws[1..]
    else [ws[0]] + Bump(ws[1..], start, success)
  }

  lemma ShapeCons(w: Window, ws: seq<Window>)
    requires Distinct(ws) && Sensible(ws) && 1 <= w.attempts && w.successes <= w.attempts
    requires forall v :: v in ws ==> v.start != w.start
    ensures Distinct([w] + ws) && Sensible([w] + ws)
  {}

  lemma ShapeTail(ws: seq<Window>)
    requires ws != [] && Distinct(ws) && Sensible(ws)
    ensures Distinct(ws[1..]) && Sensible(ws[1..]) && 1 <= ws[0].attempts && ws[0].successes <= ws[0].attempts
    ensures forall v :: v in ws[1..] ==> v in ws && v.start != ws[0].start
    ensures forall v :: v in ws ==> v == ws[0] || v in ws[1..]
  {
    assert ws == [ws[0]] + ws[1..];
  }

  lemma {:induction false} BumpKeepsShape(ws: seq<Window>, start: int, success: bool)
    requires Distinct(ws) && Sensible(ws)
    ensures Distinct(Bump(ws, start, success)) && Sensible(Bump(ws, start, success))
    ensures forall w :: w in Bump(ws, start, success) ==> w.start == start || w in ws
    decreases |ws|
  {
    if ws != [] {
      ShapeTail(ws);
      var one := if success then 1 else 0;
      if ws[0].start == start {
        ShapeCons(Window(start, ws[0].attempts + 1, ws[0].successes + one), ws[1..]);
      } else {
        BumpKeepsShape(ws[1..], start, success);
        ShapeCons(ws[0], Bump(ws[1..], start, success));
      }
    }
  }

  lemma CountsCons(w: Window, ws: seq<Window>, floor: int)
    ensures Attempts([w] + ws, floor) == AttemptsOf(w, floor) + Attempts(ws, floor)
    ensures Successes([w] + ws, floor) == SuccessesOf(w, floor) + Successes(ws, floor)
  {
    CountsAppend([w], ws, floor);
    CountsOne(w, floor);
  }

  lemma {:induction false} BumpCounts(ws: seq<Window>, start: int, success: bool, floor: int)
    ensures Attempts(Bump(ws, start, success), floor) == Attempts(ws, floor) + (if start >= floor then 1 else 0)
    ensures Successes(Bump(ws, start, success), floor) == Successes(ws, floor) + (if start >= floor && success then 1 else 0)
    decreases |ws|
  {
    var one := if success then 1 else 0;
    if ws == [] {
      CountsOne(Window(start, 1, one), floor);
    } else {
      assert ws == [ws[0]] + ws[1..];
      CountsCons(ws[0], ws[1..], floor);
      if ws[0].start == start {
        CountsCons(Window(start, ws[0].attempts + 1, ws[0].successes + one), ws[1..], floor);
      } else {
        BumpCounts(ws[1..], start, success, floor);
        CountsCons(ws[0], Bump(ws[1..], start, success), floor);
      }
    }
  }

  function Without(ws: seq<Window>, start: int): seq<Window> {
    if ws == [] then [] else if ws[0].start == start then ws[1..] else [ws[0]] + Without(ws[1..], start)
  }

  lemma {:induction false} WithoutKeepsShape(ws: seq<Window>, w: Window)
    requires Distinct(ws) && Sensible(ws) && w in ws
    ensures Distinct(Without(ws, w.start)) && Sensible(Without(ws, w.start))
    ensures forall v :: v in Without(ws, w.start) <==> v in ws && v != w
    decreases |ws|
  {
    ShapeTail(ws);
    if ws[0].start != w.start {
      WithoutKeepsShape(ws[1..], w);
      ShapeCons(ws[0], Without(ws[1..], w.start));
    }
  }

  lemma {:induction false} WithoutCounts(ws: seq<Window>, w: Window, floor: int)
    requires Distinct(ws) && Sensible(ws) && w in ws
    ensures Attempts(ws, floor) == Attempts(Without(ws, w.start), floor) + AttemptsOf(w, floor)
    ensures Successes(ws, floor) == Successes(Without(ws, w.start), floor) + SuccessesOf(w, floor)
    decreases |ws|
  {
    ShapeTail(ws);
    assert ws == [ws[0]] + ws[1..];
    CountsCons(ws[0], ws[1..], floor);
    if ws[0].start != w.start {
      WithoutCounts(ws[1..], w, floor);
      CountsCons(ws[0], Without(ws[1..], w.start), floor);
    }
  }

  /** `sorted(w for w in windows if w < up_to)` */
  function Pending(ws: seq<Window>, upTo: int): seq<Window> {
    if ws == [] then []
    else if ws[0].start < upTo then Place(ws[0], Pending(ws[1..], upTo)) else Pending(ws[1..], upTo)
  }

  function Place(w: Window, ws: seq<Window>): seq<Window> {
    if ws == [] || w.start <= ws[0].start then [w] + ws else [ws[0]] + Place(w, ws[1..])
  }

  predicate Ascending(ws: seq<Window>) {
    forall i, j :: 0 <= i < j < |ws| ==> ws[i].start < ws[j].start
  }

  lemma AscendingCons(w: Window, ws: seq<Window>)
    requires Ascending(ws) && forall v :: v in ws ==> w.start < v.start
    ensures Ascending([w] + ws)
  {}

  lemma {:induction false} PlaceFacts(w: Window, ws: seq<Window>)
    requires Ascending(ws) && forall v :: v in ws ==> v.start != w.start
    ensures Ascending(Place(w, ws)) && forall v :: v in Place(w, ws) <==> v == w || v in ws
    decreases |ws|
  {
    if ws == [] {
    } else {
      assert ws == [ws[0]] + ws[1..];
      assert forall v :: v in ws[1..] ==> ws[0].start < v.start;
      if w.start > ws[0].start {
        PlaceFacts(w, ws[1..]);
        AscendingCons(ws[0], Place(w, ws[1..]));
      } else {
        AscendingCons(w, ws);
      }
    }
  }

  lemma {:induction false} PendingFacts(ws: seq<Window>, upTo: int)
    requires Distinct(ws)
    ensures Ascending(Pending(ws, upTo))
    ensures forall v :: v in Pending(ws, upTo) <==> v in ws && v.start < upTo
    decreases |ws|
  {
    if ws != [] {
      PendingFacts(ws[1..], upTo);
      assert ws == [ws[0]] + ws[1..];
      if ws[0].start < upTo { PlaceFacts(ws[0], Pending(ws[1..], upTo)); }
    }
  }

  function Remaining(ws: seq<Window>, upTo: int): seq<Window> {
    if ws == [] then [] else (if ws[0].start < upTo then [] else [ws[0]]) + Remaining(ws[1..], upTo)
  }

  /** The last `n` of a history: what a bounded deque keeps. */
  function Last(ws: seq<Window>, n: nat): seq<Window> { if |ws| <= n then ws else ws[|ws| - n..] }

  function Evicted(ws: seq<Window>, n: nat): seq<Window> { if |ws| <= n then [] else ws[..|ws| - n] }

  /** The windows thick enough to be scored. */
  function Scoreable(ws: seq<Window>, minAttempts: nat): seq<Window> {
    if ws == [] then []
    else
      var last := ws[|ws| - 1];
      Scoreable(ws[..|ws| - 1], minAttempts) + (if last.attempts >= minAttempts then [last] else [])
  }

  lemma {:induction false} RemainingWithout(ws: seq<Window>, start: int, upTo: int)
    requires start < upTo
    ensures Remaining(Without(ws, start), upTo) == Remaining(ws, upTo)
    decreases |ws|
  {
    if ws != [] && ws[0].start != start {
      RemainingWithout(ws[1..], start, upTo);
      assert ([ws[0]] + Without(ws[1..], start))[1..] == Without(ws[1..], start);
    }
  }

  lemma {:induction false} RemainingAll(ws: seq<Window>, upTo: int)
    requires forall w :: w in ws ==> w.start >= upTo
    ensures Remaining(ws, upTo) == ws
    decreases |ws|
  {
    if ws != [] { RemainingAll(ws[1..], upTo); }
  }

  lemma LastStep(history: seq<Window>, w: Window, n: nat)
    requires n > 0
    ensures var kept := Last(history, n);
            Last(history + [w], n) == if |kept| == n then kept[1..] + [w] else kept + [w]
  {}

  lemma LastAndEvicted(history: seq<Window>, n: nat)
    ensures history == Evicted(history, n) + Last(history, n)
  {}

  lemma RunSnoc(cfg: Settings, s: State, ws: seq<Window>, w: Window)
    ensures Run(cfg, s, ws + [w]) == Step(cfg, Run(cfg, s, ws), w)
  {
    assert (ws + [w])[..|ws|] == ws;
  }

  /** Every observation is in exactly one open or closed window, wherever the line is drawn. */
  ghost predicate Conserved(windows: seq<Window>, history: seq<Window>, log: seq<Observation>) {
    && (forall f :: Attempts(windows, f) + Attempts(history, f) == Logged(log, f))
    && (forall f :: Successes(windows, f) + Successes(history, f) == LoggedSuccesses(log, f))
  }

  lemma ObserveConserves(windows: seq<Window>, history: seq<Window>, log: seq<Observation>, start: int, success: bool)
    requires Conserved(windows, history, log)
    ensures Conserved(Bump(windows, start, success), history, log + [Observation(start, success)])
  {
    var now := log + [Observation(start, success)];
    assert now[..|now| - 1] == log;
    forall f
      ensures Attempts(Bump(windows, start, success), f) + Attempts(history, f) == Logged(now, f)
      ensures Successes(Bump(windows, start, success), f) + Successes(history, f) == LoggedSuccesses(now, f)
    {
      BumpCounts(windows, start, success, f);
      assert Attempts(windows, f) + Attempts(history, f) == Logged(log, f);
      assert Successes(windows, f) + Successes(history, f) == LoggedSuccesses(log, f);
    }
  }

  lemma CloseConserves(windows: seq<Window>, history: seq<Window>, log: seq<Observation>, w: Window)
    requires Conserved(windows, history, log) && Distinct(windows) && Sensible(windows) && w in windows
    ensures Conserved(Without(windows, w.start), history + [w], log)
  {
    forall f
      ensures Attempts(Without(windows, w.start), f) + Attempts(history + [w], f) == Logged(log, f)
      ensures Successes(Without(windows, w.start), f) + Successes(history + [w], f) == LoggedSuccesses(log, f)
    {
      WithoutCounts(windows, w, f);
      CountsAppend(history, [w], f);
      CountsOne(w, f);
      assert Attempts(windows, f) + Attempts(history, f) == Logged(log, f);
      assert Successes(windows, f) + Successes(history, f) == LoggedSuccesses(log, f);
    }
  }

  lemma {:induction false} SensibleCounts(ws: seq<Window>, floor: int)
    requires Sensible(ws)
    ensures Successes(ws, floor) <= Attempts(ws, floor)
    ensures Attempts(ws, floor) == 0 <==> forall w :: w in ws ==> w.start < floor
    decreases |ws|
  {
    if ws != [] {
      SensibleCounts(ws[..|ws| - 1], floor);
      assert ws == ws[..|ws| - 1] + [ws[|ws| - 1]];
    }
  }

  /** What the index keeps: open windows are sensible, closed ones are the end of the history, nothing is lost. */
  datatype Index = Index(windows: seq<Window>, closed: seq<Window>, history: seq<Window>, log: seq<Observation>, last: Option<int>)

  ghost predicate Intact(x: Index) {
    && Distinct(x.windows) && Sensible(x.windows) && Sensible(x.history)
    && x.closed == Last(x.history, CLOSED_HISTORY)
    && Conserved(x.windows, x.history, x.log)
    && (x.last.None? ==> x.windows == [])
    && (x.last.Some? ==> forall w :: w in x.windows ==> w.start <= x.last.value)
  }

  function Pushed(closed: seq<Window>, w: Window): seq<Window> {
    if |closed| == CLOSED_HISTORY then closed[1..] + [w] else closed + [w]
  }

  function Closing(x: Index, w: Window): Index {
    x.(windows := Without(x.windows, w.start), closed := Pushed(x.closed, w), history := x.history + [w])
  }

  lemma ClosingKeeps(x: Index, w: Window)
    requires Intact(x) && w in x.windows
    ensures Intact(Closing(x, w))
  {
    LastStep(x.history, w, CLOSED_HISTORY);
    CloseConserves(x.windows, x.history, x.log, w);
    WithoutKeepsShape(x.windows, w);
  }

  function Observed(x: Index, start: int, success: bool): Index {
    x.(windows := Bump(x.windows, start, success), log := x.log + [Observation(start, success)],
       last := if x.last.None? || start > x.last.value then Some(start) else x.last)
  }

  lemma ObservedKeeps(x: Index, start: int, success: bool)
    requires Intact(x)
    ensures Intact(Observed(x, start, success))
  {
    BumpKeepsShape(x.windows, start, success);
    ObserveConserves(x.windows, x.history, x.log, start, success);
  }

  /** All that `_close_through` does to the index. */
  function Closed(x: Index, upTo: int): Index {
    var done := Pending(x.windows, upTo);
    x.(windows := Remaining(x.windows, upTo), history := x.history + done, closed := Last(x.history + done, CLOSED_HISTORY))
  }

  /** After `i` of the pending windows have been moved. */
  ghost predicate Midway(before: Index, x: Index, upTo: int, i: nat) {
    var pending := Pending(before.windows, upTo);
    && i <= |pending| && x.log == before.log && x.last == before.last
    && x.history == before.history + pending[..i]
    && Remaining(x.windows, upTo) == Remaining(before.windows, upTo)
    && forall w :: w in x.windows && w.start < upTo <==> w in pending[i..]
  }

  lemma ClosingStarts(x: Index, upTo: int)
    requires Intact(x)
    ensures Midway(x, x, upTo, 0)
  {
    PendingFacts(x.windows, upTo);
  }

  lemma NextIsOpen(before: Index, x: Index, upTo: int, i: nat)
    requires Distinct(before.windows) && Midway(before, x, upTo, i) && i < |Pending(before.windows, upTo)|
    ensures var w := Pending(before.windows, upTo)[i]; w in x.windows && w.start < upTo
    ensures Ascending(Pending(before.windows, upTo))
  {
    var pending := Pending(before.windows, upTo);
    PendingFacts(before.windows, upTo);
    assert pending[i] in pending[i..];
  }

  lemma ClosingSteps(before: Index, x: Index, upTo: int, i: nat)
    requires Distinct(before.windows) && Distinct(x.windows) && Sensible(x.windows)
    requires Midway(before, x, upTo, i) && i < |Pending(before.windows, upTo)|
    ensures var w := Pending(before.windows, upTo)[i];
            w in x.windows && Midway(before, Closing(x, w), upTo, i + 1)
  {
    var w := Pending(before.windows, upTo)[i];
    NextIsOpen(before, x, upTo, i);
    MembersStep(x.windows, Pending(before.windows, upTo), upTo, i);
    RemainingWithout(x.windows, w.start, upTo);
    MidwayStep(before, x, Closing(x, w), upTo, i);
  }

  lemma MidwayStep(before: Index, x: Index, y: Index, upTo: int, i: nat)
    requires Midway(before, x, upTo, i) && i < |Pending(before.windows, upTo)| && y.log == x.log && y.last == x.last
    requires y.history == x.history + [Pending(before.windows, upTo)[i]]
    requires Remaining(y.windows, upTo) == Remaining(x.windows, upTo)
    requires forall w :: w in y.windows && w.start < upTo <==> w in Pending(before.windows, upTo)[i + 1..]
    ensures Midway(before, y, upTo, i + 1)
  {
    var pending := Pending(before.windows, upTo);
    assert pending[..i + 1] == pending[..i] + [pending[i]];
  }

  lemma MembersStep(windows: seq<Window>, pending: seq<Window>, upTo: int, i: nat)
    requires Distinct(windows) && Sensible(windows) && Ascending(pending) && i < |pending| && pending[i] in windows
    requires forall w :: w in windows && w.start < upTo <==> w in pending[i..]
    ensures forall w :: w in Without(windows, pending[i].start) && w.start < upTo <==> w in pending[i + 1..]
  {
    AscendingRest(pending, i);
    WithoutKeepsShape(windows, pending[i]);
  }

  lemma ClosingEnds(before: Index, x: Index, upTo: int)
    requires Intact(x) && Midway(before, x, upTo, |Pending(before.windows, upTo)|)
    ensures x == Closed(before, upTo)
  {
    var pending := Pending(before.windows, upTo);
    assert pending[..|pending|] == pending;
    RemainingAll(x.windows, upTo);
  }

  lemma TrailingMeaning(x: Index, floor: int)
    requires Intact(x)
    ensures var out := Evicted(x.history, CLOSED_HISTORY);
            var a := Attempts(x.closed, floor) + Attempts(x.windows, floor);
            var s := Successes(x.closed, floor) + Successes(x.windows, floor);
            && s <= a && a + Attempts(out, floor) == Logged(x.log, floor)
            && s + Successes(out, floor) == LoggedSuccesses(x.log, floor)
            && (a == Logged(x.log, floor) <==> forall w :: w in out ==> w.start < floor)
  {
    var out := Evicted(x.history, CLOSED_HISTORY);
    LastAndEvicted(x.history, CLOSED_HISTORY);
    CountsAppend(out, x.closed, floor);
    SensibleCounts(x.windows, floor);
    SensibleCounts(x.closed, floor);
    SensibleCounts(out, floor);
    assert Attempts(x.windows, floor) + Attempts(x.history, floor) == Logged(x.log, floor);
    assert Successes(x.windows, floor) + Successes(x.history, floor) == LoggedSuccesses(x.log, floor);
  }

  method CountFrom(ws: seq<Window>, floor: int) returns (successes: nat, attempts: nat)
    ensures attempts == Attempts(ws, floor) && successes == Successes(ws, floor)
  {
    successes, attempts := 0, 0;
    var i := 0;
    while i < |ws|
      invariant 0 <= i <= |ws|
      invariant attempts == Attempts(ws[..i], floor) && successes == Successes(ws[..i], floor)
    {
      assert ws[..i + 1][..i] == ws[..i];
      if ws[i].start >= floor {
        attempts := attempts + ws[i].attempts;
        successes := successes + ws[i].successes;
      }
      i := i + 1;
    }
    assert ws[..i] == ws;
  }

  class Tracker {
    const cfg: Settings
    const width: int
    var windows: seq<Window>
    var closed: seq<Window>
    var cusumDown: real
    var cusumUp: real
    var degradedSince: Option<int>
    var healthyStreak: int
    var lastWindow: Option<int>
    var outageHistory: seq<int>
    ghost var log: seq<Observation>
    ghost var history: seq<Window>
    ghost var scored: seq<Window>

    ghost predicate Valid()
      reads this
    {
      ValidSettings(cfg) && width > 0 && Intact(Contents()) && View() == Run(cfg, INITIAL, scored)
    }

    ghost function Contents(): Index
      reads this
    {
      Index(windows, closed, history, log, lastWindow)
    }

    function View(): State
      reads this
    {
      State(cusumDown, cusumUp, degradedSince, healthyStreak, outageHistory)
    }

    constructor (cfg: Settings, width: int)
      requires ValidSettings(cfg) && width > 0
      ensures Valid() && log == [] && windows == [] && closed == [] && this.cfg == cfg && this.width == width
    {
      this.cfg, this.width := cfg, width;
      windows, closed, lastWindow := [], [], None;
      cusumDown, cusumUp, degradedSince, healthyStreak, outageHistory := 0.0, 0.0, None, 0, [];
      log, history, scored := [], [], [];
    }

    method Observe(at: int, success: bool)
      requires Valid()
      modifies this
      ensures Valid()
      ensures var start := WindowStart(at, width);
              var closes := old(lastWindow).Some? && start > old(lastWindow).value;
              && Contents() == Observed(if closes then Closed(old(Contents()), start) else old(Contents()), start, success)
              && scored == old(scored) + (if closes then Scoreable(Pending(old(windows), start), cfg.minAttempts) else [])
      ensures at >= 0 ==> Holds(WindowStart(at, width), width, at)
    {
      var start := WindowStart(at, width);
      if lastWindow.Some? && start > lastWindow.value {
        CloseThrough(start);
      }
      Count(start, success);
      WindowHolds(at, width);
    }

    /** The rest of `observe`: the window's counts, and the newest window so far. */
    method Count(start: int, success: bool)
      requires Valid()
      modifies `windows, `log, `lastWindow
      ensures Valid() && Contents() == Observed(old(Contents()), start, success)
    {
      ObservedKeeps(Contents(), start, success);
      windows := Bump(windows, start, success);
      log := log + [Observation(start, success)];
      lastWindow := if lastWindow.None? || start > lastWindow.value then Some(start) else lastWindow;
    }

    method CloseThrough(upTo: int)
      requires Valid()
      modifies this
      ensures Valid()
      ensures Contents() == Closed(old(Contents()), upTo)
      ensures scored == old(scored) + Scoreable(Pending(old(windows), upTo), cfg.minAttempts)
    {
      var pending := Pending(windows, upTo);
      ghost var before, done := Contents(), scored;
      ClosingStarts(before, upTo);
      var i := 0;
      while i < |pending|
        invariant 0 <= i <= |pending|
        invariant Halfway(before, done, upTo, i)
      {
        Close(pending[i], before, done, upTo, i);
        i := i + 1;
      }
      HalfwayEnds(before, done, upTo);
    }

    /** The first `i` pending windows have been scored and archived. */
    ghost predicate Halfway(before: Index, done: seq<Window>, upTo: int, i: nat)
      reads this
    {
      && Valid() && Midway(before, Contents(), upTo, i)
      && scored == done + Scoreable(Pending(before.windows, upTo)[..i], cfg.minAttempts)
    }

    lemma HalfwayEnds(before: Index, done: seq<Window>, upTo: int)
      requires Halfway(before, done, upTo, |Pending(before.windows, upTo)|)
      ensures Contents() == Closed(before, upTo)
      ensures scored == done + Scoreable(Pending(before.windows, upTo), cfg.minAttempts)
    {
      var pending := Pending(before.windows, upTo);
      assert pending[..|pending|] == pending;
      ClosingEnds(before, Contents(), upTo);
    }

    /** The body of the loop: the `i`-th of the pending windows is scored and archived. */
    method Close(bucket: Window, ghost before: Index, ghost done: seq<Window>, upTo: int, ghost i: nat)
      requires Distinct(before.windows) && Halfway(before, done, upTo, i)
      requires i < |Pending(before.windows, upTo)| && bucket == Pending(before.windows, upTo)[i]
      modifies this
      ensures Halfway(before, done, upTo, i + 1)
    {
      ClosingSteps(before, Contents(), upTo, i);
      ghost var next := Closing(Contents(), bucket);
      ScoreableSnoc(Pending(before.windows, upTo), i, cfg.minAttempts);
      Consider(bucket);
      Archive(bucket);
      assert Contents() == next;
    }

    method Consider(bucket: Window)
      requires ValidSettings(cfg) && View() == Run(cfg, INITIAL, scored)
      modifies `cusumDown, `cusumUp, `degradedSince, `healthyStreak, `outageHistory, `scored
      ensures Contents() == old(Contents()) && View() == Run(cfg, INITIAL, scored)
      ensures scored == old(scored) + (if bucket.attempts >= cfg.minAttempts then [bucket] else [])
    {
      if bucket.attempts >= cfg.minAttempts {
        RunSnoc(cfg, INITIAL, scored, bucket);
        Score(bucket);
      }
    }

    /** `closed.append(...)` and `del windows[start]` */
    method Archive(bucket: Window)
      requires Intact(Contents()) && bucket in windows
      modifies `windows, `closed, `history
      ensures Contents() == Closing(old(Contents()), bucket) && Intact(Contents())
      ensures View() == old(View())
    {
      ClosingKeeps(Contents(), bucket);
      closed := Pushed(closed, bucket);
      history := history + [bucket];
      windows := Without(windows, bucket.start);
    }

    method Score(bucket: Window)
      requires ValidSettings(cfg)
      modifies `cusumDown, `cusumUp, `degradedSince, `healthyStreak, `outageHistory, `scored
      ensures Contents() == old(Contents())
      ensures scored == old(scored) + [bucket] && View() == Step(cfg, old(View()), bucket)
    {
      var degradedNow := Degraded(cfg, bucket);
      var deviation := Deviation(cfg, bucket);
      cusumDown := Floored(cusumDown + deviation - cfg.slack);
      cusumUp := Floored(cusumUp - deviation - cfg.slack);
      if degradedSince.None? {
        if cusumDown > cfg.threshold && degradedNow {
          degradedSince, cusumUp, healthyStreak := Some(bucket.start), 0.0, 0;
        }
      } else if degradedNow {
        healthyStreak := if healthyStreak - 1 < 0 then 0 else healthyStreak - 1;
      } else {
        healthyStreak := healthyStreak + 1;
        if healthyStreak >= RECOVERY_WINDOWS {
          outageHistory := outageHistory + [bucket.start - degradedSince.value];
          degradedSince, cusumDown, healthyStreak := None, 0.0, 0;
        }
      }
      scored := scored + [bucket];
    }

    /**
     * The trailing counts are a direct count of the log from the floor on, less what left the deque; so
     * they equal it exactly when no evicted window starts at or after the floor.
     */
    method TrailingCounts(at: int, span: int) returns (successes: nat, attempts: nat)
      requires Valid()
      ensures successes <= attempts
      ensures attempts == Logged(log, at - span) - Attempts(Evicted(history, CLOSED_HISTORY), at - span)
      ensures successes == LoggedSuccesses(log, at - span) - Successes(Evicted(history, CLOSED_HISTORY), at - span)
      ensures attempts == Logged(log, at - span)
         <==> forall w :: w in Evicted(history, CLOSED_HISTORY) ==> w.start < at - span
    {
      var floor := at - span;
      var s0, a0 := CountFrom(closed, floor);
      var s1, a1 := CountFrom(windows, floor);
      successes, attempts := s0 + s1, a0 + a1;
      TrailingMeaning(Contents(), floor);
    }
  }

  lemma ScoreableSnoc(ws: seq<Window>, i: nat, minAttempts: nat)
    requires i < |ws|
    ensures Scoreable(ws[..i + 1], minAttempts)
         == Scoreable(ws[..i], minAttempts) + (if ws[i].attempts >= minAttempts then [ws[i]] else [])
  {
    assert ws[..i + 1][..i] == ws[..i];
  }

  lemma AscendingRest(ws: seq<Window>, i: nat)
    requires i < |ws| && Ascending(ws)
    ensures forall w :: w in ws[i + 1..] <==> w in ws[i..] && w != ws[i]
    ensures ws[..i + 1] == ws[..i] + [ws[i]]
  {
    assert ws[i..] == [ws[i]] + ws[i + 1..];
  }
}
