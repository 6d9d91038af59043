/** Kaplan-Meier curves and the log-rank test over exact reals (prayas/measure/survival.py). */
module Survival {
  import Draws
  import opened Reals

  datatype Error = ShapesDiffer | NoObservations | NegativeDuration

  datatype Result<T> = Ok(value: T) | Err(error: Error)

  datatype Curve = Curve(times: seq<real>, survival: seq<real>, atRisk: seq<nat>, events: seq<nat>)

  // ---------------------------------------------------------------- counting

  function AtLeast(ds: seq<real>, t: real): nat {
    if ds == [] then 0 else (if ds[0] >= t then 1 else 0) + AtLeast(ds[1..], t)
  }

  function Beyond(ds: seq<real>, t: real): nat {
    if ds == [] then 0 else (if ds[0] > t then 1 else 0) + Beyond(ds[1..], t)
  }

  function Died(ds: seq<real>, os: seq<bool>, t: real): nat
    requires |ds| == |os|
  {
    if ds == [] then 0 else (if ds[0] == t && os[0] then 1 else 0) + Died(ds[1..], os[1..], t)
  }

  function Events(ds: seq<real>, os: seq<bool>): seq<real>
    requires |ds| == |os|
  {
    if ds == [] then [] else (if os[0] then [ds[0]] else []) + Events(ds[1..], os[1..])
  }

  lemma {:induction false} DiedAtMostRisk(ds: seq<real>, os: seq<bool>, t: real)
    requires |ds| == |os|
    ensures Died(ds, os, t) <= AtLeast(ds, t) <= |ds|
    ensures t in Events(ds, os) <==> Died(ds, os, t) > 0
  {
    if ds != [] { DiedAtMostRisk(ds[1..], os[1..], t); }
  }

  lemma {:induction false} AllObserved(ds: seq<real>, os: seq<bool>, t: real)
    requires |ds| == |os| && forall i :: 0 <= i < |os| ==> os[i]
    ensures Events(ds, os) == ds
    ensures AtLeast(ds, t) == Died(ds, os, t) + Beyond(ds, t)
  {
    if ds != [] { AllObserved(ds[1..], os[1..], t); }
  }

  /** When nobody lies between, "beyond s" and "at least t" are the same units. */
  lemma {:induction false} NobodyBetween(ds: seq<real>, s: real, t: real)
    requires forall i :: 0 <= i < |ds| ==> (ds[i] > s <==> ds[i] >= t)
    ensures Beyond(ds, s) == AtLeast(ds, t)
  {
    if ds != [] { NobodyBetween(ds[1..], s, t); }
  }

  lemma {:induction false} SameBeyond(ds: seq<real>, s: real, t: real)
    requires forall i :: 0 <= i < |ds| ==> (ds[i] > s <==> ds[i] > t)
    ensures Beyond(ds, s) == Beyond(ds, t)
  {
    if ds != [] { SameBeyond(ds[1..], s, t); }
  }

  lemma {:induction false} AllAtLeast(ds: seq<real>, t: real)
    requires forall i :: 0 <= i < |ds| ==> ds[i] >= t
    ensures AtLeast(ds, t) == |ds|
  {
    if ds != [] { AllAtLeast(ds[1..], t); }
  }

  lemma {:induction false} AllBeyond(ds: seq<real>, t: real)
    requires forall i :: 0 <= i < |ds| ==> ds[i] > t
    ensures Beyond(ds, t) == |ds|
  {
    if ds != [] { AllBeyond(ds[1..], t); }
  }

  // ---------------------------------------------------------------- sorted distinct times

  function Insert(t: real, ts: seq<real>): seq<real> {
    if ts == [] || t < ts[0] then [t] + ts
    else if t == ts[0] then ts
    else [ts[0]] + Insert(t, ts[1..])
  }

  /** `np.unique` */
  function Unique(xs: seq<real>): seq<real> {
    if xs == [] then [] else Insert(xs[0], Unique(xs[1..]))
  }

  predicate Rising(ts: seq<real>) {
    forall i, j :: 0 <= i < j < |ts| ==> ts[i] < ts[j]
  }

  lemma Tail(xs: seq<real>)
    requires xs != []
    ensures forall x :: x in xs <==> x == xs[0] || x in xs[1..]
  {
    assert xs == [xs[0]] + xs[1..];
  }

  lemma RisingCons(t: real, ts: seq<real>)
    requires Rising(ts) && forall i :: 0 <= i < |ts| ==> t < ts[i]
    ensures Rising([t] + ts)
  {}

  lemma {:induction false} InsertFacts(t: real, ts: seq<real>)
    requires Rising(ts)
    ensures Rising(Insert(t, ts)) && forall x :: x in Insert(t, ts) <==> x == t || x in ts
    ensures forall i :: 0 <= i < |Insert(t, ts)| ==> Insert(t, ts)[i] >= t || (ts != [] && Insert(t, ts)[i] >= ts[0])
  {
    if ts == [] || t < ts[0] {
      RisingCons(t, ts);
    } else {
      Tail(ts);
      if t > ts[0] {
        InsertFacts(t, ts[1..]);
        RisingCons(ts[0], Insert(t, ts[1..]));
      }
    }
  }

  lemma {:induction false} UniqueFacts(xs: seq<real>)
    ensures Rising(Unique(xs)) && forall x :: x in Unique(xs) <==> x in xs
  {
    if xs != [] {
      UniqueFacts(xs[1..]);
      InsertFacts(xs[0], Unique(xs[1..]));
      Tail(xs);
    }
  }

  lemma FirstIsLeast(ts: seq<real>, x: real)
    requires Rising(ts) && x in ts
    ensures ts[0] <= x && (x in ts[1..] <==> x != ts[0])
  {
    var i :| 0 <= i < |ts| && ts[i] == x;
    if i > 0 { assert ts[1..][i - 1] == x; }
    if x in ts[1..] {
      var j :| 0 <= j < |ts[1..]| && ts[1..][j] == x;
      assert ts[j + 1] == x && ts[0] < ts[j + 1];
    }
  }

  lemma {:induction false} RisingEqual(a: seq<real>, b: seq<real>)
    requires Rising(a) && Rising(b) && forall x :: x in a <==> x in b
    ensures a == b
    decreases |a|
  {
    HeadIn(a);
    HeadIn(b);
    if a != [] {
      FirstIsLeast(a, b[0]);
      FirstIsLeast(b, a[0]);
      Tail(a);
      Tail(b);
      forall x ensures x in a[1..] <==> x in b[1..] {
        if x in a { FirstIsLeast(a, x); FirstIsLeast(b, x); }
      }
      RisingEqual(a[1..], b[1..]);
      assert a == [a[0]] + a[1..] && b == [b[0]] + b[1..];
    }
  }

  lemma HeadIn(xs: seq<real>)
    ensures xs != [] ==> xs[0] in xs
  {}

  // ---------------------------------------------------------------- Kaplan-Meier

  /** The share of the units at risk at `t` that come through `t`. */
  function Factor(ds: seq<real>, os: seq<bool>, t: real): real
    requires |ds| == |os|
  {
    FactorOf(Died(ds, os, t), AtLeast(ds, t))
  }

  function FactorOf(died: nat, risk: nat): real {
    if risk == 0 then 1.0 else 1.0 - Ratio(died, risk)
  }

  function Ratio(k: nat, n: nat): real
    requires n > 0
  {
    k as real / n as real
  }

  function Factors(ds: seq<real>, os: seq<bool>, ts: seq<real>): seq<real>
    requires |ds| == |os|
  {
    seq(|ts|, i requires 0 <= i < |ts| => Factor(ds, os, ts[i]))
  }

  /** The product of the first `k`. */
  function Product(xs: seq<real>, k: nat): real
    requires k <= |xs|
  {
    if k == 0 then 1.0 else Product(xs, k - 1) * xs[k - 1]
  }

  function Survivals(ds: seq<real>, os: seq<bool>, ts: seq<real>): seq<real>
    requires |ds| == |os|
  {
    var xs := Factors(ds, os, ts);
    seq(|ts|, i requires 0 <= i < |ts| => Product(xs, i + 1))
  }

  function Risks(ds: seq<real>, ts: seq<real>): seq<nat> {
    seq(|ts|, i requires 0 <= i < |ts| => AtLeast(ds, ts[i]))
  }

  function DeathCounts(ds: seq<real>, os: seq<bool>, ts: seq<real>): seq<nat>
    requires |ds| == |os|
  {
    seq(|ts|, i requires 0 <= i < |ts| => Died(ds, os, ts[i]))
  }

  /** The estimate: at each distinct event time, the product of the factors up to it. */
  function Estimate(ds: seq<real>, os: seq<bool>): Curve
    requires |ds| == |os|
  {
    var ts := Unique(Events(ds, os));
    Curve(ts, Survivals(ds, os, ts), Risks(ds, ts), DeathCounts(ds, os, ts))
  }

  method KaplanMeier(ds: seq<real>, os: seq<bool>) returns (r: Result<Curve>)
    ensures r == Err(ShapesDiffer) <==> |ds| != |os|
    ensures r == Err(NoObservations) <==> ds == [] && os == []
    ensures r == Err(NegativeDuration) <==> |ds| == |os| && exists i :: 0 <= i < |ds| && ds[i] < 0.0
    ensures r.Ok? ==> |ds| == |os| && r.value == Estimate(ds, os)
  {
    if |ds| != |os| { return Err(ShapesDiffer); }
    if |ds| == 0 { return Err(NoObservations); }
    if exists i :: 0 <= i < |ds| && ds[i] < 0.0 { return Err(NegativeDuration); }
    var times := Unique(Events(ds, os));
    ghost var table := Estimate(ds, os);
    var survival: seq<real>, atRisk: seq<nat>, events: seq<nat> := [], [], [];
    var running := 1.0;
    var i := 0;
    while i < |times|
      invariant 0 <= i <= |times|
      invariant running == Before(table, i)
      invariant survival == table.survival[..i] && atRisk == table.atRisk[..i] && events == table.events[..i]
    {
      var t := times[i];
      var risk, died := AtLeast(ds, t), Died(ds, os, t);
      EstimateShape(ds, os, i);
      var factor := 1.0 - Ratio(died, risk);
      EstimateStep(ds, os, i, running, factor);
      running := running * factor;
      survival := Extended(survival, table.survival, running);
      atRisk := Extended(atRisk, table.atRisk, risk);
      events := Extended(events, table.events, died);
      i := i + 1;
    }
    r := Ok(Curve(times, survival, atRisk, events));
  }

  /** The survival just before the `i`-th event time. */
  function Before(c: Curve, i: nat): real
    requires i <= |c.survival|
  {
    if i == 0 then 1.0 else c.survival[i - 1]
  }

  lemma EstimateShape(ds: seq<real>, os: seq<bool>, i: nat)
    requires |ds| == |os| && i < |Estimate(ds, os).times|
    ensures var c := Estimate(ds, os);
            var xs := Factors(ds, os, c.times);
            var risk, died := AtLeast(ds, c.times[i]), Died(ds, os, c.times[i]);
            && risk > 0 && c.atRisk[i] == risk && c.events[i] == died && xs[i] == 1.0 - Ratio(died, risk)
            && Before(c, i) == Product(xs, i) && Before(c, i + 1) == Product(xs, i + 1)
  {
    var times := Estimate(ds, os).times;
    assert times[i] in times;
    SomeoneAtRisk(ds, os, times[i]);
  }

  lemma ProductNext(xs: seq<real>, i: nat, p: real, f: real)
    requires i < |xs| && Product(xs, i) == p && xs[i] == f
    ensures Product(xs, i + 1) == p * f
  {}

  lemma EstimateStep(ds: seq<real>, os: seq<bool>, i: nat, p: real, f: real)
    requires |ds| == |os| && i < |Estimate(ds, os).times| && p == Before(Estimate(ds, os), i)
    requires AtLeast(ds, Estimate(ds, os).times[i]) > 0 ==>
               f == 1.0 - Ratio(Died(ds, os, Estimate(ds, os).times[i]), AtLeast(ds, Estimate(ds, os).times[i]))
    ensures var c := Estimate(ds, os);
            var risk, died := AtLeast(ds, c.times[i]), Died(ds, os, c.times[i]);
            && risk > 0 && c.atRisk[i] == risk && c.events[i] == died && Before(c, i + 1) == p * f
  {
    EstimateShape(ds, os, i);
    ProductNext(Factors(ds, os, Estimate(ds, os).times), i, p, f);
  }

  /** `append`, where the list is known to grow along `table`. */
  function Extended<T>(xs: seq<T>, ghost table: seq<T>, x: T): (r: seq<T>)
    requires |xs| < |table| && xs == table[..|xs|] && x == table[|xs|]
    ensures r == table[..|xs| + 1]
  {
    xs + [x]
  }

  lemma FactorIsShare(ds: seq<real>, os: seq<bool>, t: real)
    requires |ds| == |os|
    ensures 0.0 <= Factor(ds, os, t) <= 1.0
    ensures t in Events(ds, os) ==> Factor(ds, os, t) < 1.0
  {
    DiedAtMostRisk(ds, os, t);
    if AtLeast(ds, t) > 0 { Share(Died(ds, os, t), AtLeast(ds, t)); }
  }

  lemma Share(d: nat, n: nat)
    requires d <= n && n > 0
    ensures 0.0 <= Ratio(d, n) <= 1.0
    ensures d > 0 ==> Ratio(d, n) > 0.0
  {
    var x, y := d as real, n as real;
    var q := x / y;
    assert q * y == x;
    if q > 1.0 { Larger(y, q, 1.0); }
    if q < 0.0 { Larger(y, 0.0, q); }
  }

  ghost predicate AreShares(xs: seq<real>) {
    forall i :: 0 <= i < |xs| ==> 0.0 <= xs[i] <= 1.0
  }

  lemma {:induction false} ProductInRange(xs: seq<real>, k: nat)
    requires AreShares(xs) && k <= |xs|
    ensures 0.0 <= Product(xs, k) <= 1.0
    decreases k
  {
    if k > 0 {
      ProductInRange(xs, k - 1);
      Shrinks(Product(xs, k - 1), xs[k - 1], Product(xs, k));
    }
  }

  lemma Shrinks(x: real, f: real, y: real)
    requires 0.0 <= x <= 1.0 && 0.0 <= f <= 1.0 && y == x * f
    ensures 0.0 <= y <= x && (x > 0.0 && f < 1.0 ==> y < x)
  {
    assert x - y == x * (1.0 - f);
    NonNegative(x, f);
    NonNegative(x, 1.0 - f);
    if x > 0.0 && f < 1.0 { BothPositive(x, 1.0 - f, x - y); }
  }

  lemma FallsAt(xs: seq<real>, i: nat)
    requires AreShares(xs) && i < |xs|
    ensures 0.0 <= Product(xs, i + 1) <= Product(xs, i) <= 1.0
    ensures Product(xs, i) > 0.0 && xs[i] < 1.0 ==> Product(xs, i + 1) < Product(xs, i)
  {
    ProductInRange(xs, i);
    Shrinks(Product(xs, i), xs[i], Product(xs, i + 1));
  }

  /** A survival curve stays in [0, 1] and falls at every event time until it reaches zero. */
  lemma CurveFalls(c: Curve, ds: seq<real>, os: seq<bool>, i: nat)
    requires |ds| == |os| && c == Estimate(ds, os) && i < |c.times|
    ensures var before := Before(c, i);
            0.0 <= c.survival[i] <= before <= 1.0 && (before > 0.0 ==> c.survival[i] < before)
  {
    UniqueFacts(Events(ds, os));
    assert c.times[i] in c.times;
    var xs := Factors(ds, os, c.times);
    forall k | 0 <= k < |xs| ensures 0.0 <= xs[k] <= 1.0 && (k == i ==> xs[k] < 1.0) {
      FactorIsShare(ds, os, c.times[k]);
    }
    FallsAt(xs, i);
  }

  // ---------------------------------------------------------------- without censoring

  /** Every unit's duration is one of the event times. */
  lemma Placed(ds: seq<real>, os: seq<bool>, i: nat) returns (j: nat)
    requires |ds| == |os| && (forall k :: 0 <= k < |os| ==> os[k]) && i < |ds|
    ensures var times := Unique(Events(ds, os)); j < |times| && times[j] == ds[i]
  {
    var times := Unique(Events(ds, os));
    UniqueFacts(Events(ds, os));
    AllObserved(ds, os, ds[i]);
    assert ds[i] in ds;
    assert ds[i] in times;
    j :| 0 <= j < |times| && times[j] == ds[i];
  }

  /** Just before an event time, the units at risk are those that lasted beyond the one before. */
  lemma RiskIsWhoIsLeft(ds: seq<real>, os: seq<bool>, times: seq<real>, k: nat)
    requires |ds| == |os| && (forall i :: 0 <= i < |os| ==> os[i])
    requires times == Unique(Events(ds, os)) && k < |times|
    ensures AtLeast(ds, times[k]) == if k == 0 then |ds| else Beyond(ds, times[k - 1])
  {
    UniqueFacts(Events(ds, os));
    forall i | 0 <= i < |ds| ensures ds[i] >= times[k] <==> k == 0 || ds[i] > times[k - 1] {
      var j := Placed(ds, os, i);
      assert j < k ==> times[j] < times[k];
      assert k > 0 && j < k - 1 ==> times[j] < times[k - 1];
      assert k < j ==> times[k] < times[j];
    }
    if k == 0 {
      AllAtLeast(ds, times[0]);
    } else {
      NobodyBetween(ds, times[k - 1], times[k]);
    }
  }

  lemma {:induction false} Telescopes(ds: seq<real>, os: seq<bool>, times: seq<real>, k: nat)
    requires |ds| == |os| && ds != [] && (forall i :: 0 <= i < |os| ==> os[i])
    requires times == Unique(Events(ds, os)) && k < |times|
    ensures Product(Factors(ds, os, times), k + 1) == Ratio(Beyond(ds, times[k]), |ds|)
    decreases k
  {
    var t := times[k];
    RiskIsWhoIsLeft(ds, os, times, k);
    RiskSplits(ds, os, times, k);
    if k == 0 { RatioOne(|ds|); } else { Telescopes(ds, os, times, k - 1); }
    TelescopeStep(Factors(ds, os, times), k, |ds|, AtLeast(ds, t), Died(ds, os, t), Beyond(ds, t));
  }

  lemma TelescopeStep(xs: seq<real>, k: nat, n: nat, risk: nat, died: nat, left: nat)
    requires k < |xs| && n > 0 && risk == died + left > 0
    requires Product(xs, k) == Ratio(risk, n) && xs[k] == FactorOf(died, risk)
    ensures Product(xs, k + 1) == Ratio(left, n)
  {
    Telescope(n, risk, died, left);
  }

  lemma RiskSplits(ds: seq<real>, os: seq<bool>, times: seq<real>, k: nat)
    requires |ds| == |os| && (forall i :: 0 <= i < |os| ==> os[i])
    requires times == Unique(Events(ds, os)) && k < |times|
    ensures AtLeast(ds, times[k]) == Died(ds, os, times[k]) + Beyond(ds, times[k]) > 0
  {
    SomeoneAtRisk(ds, os, times[k]);
    AllObserved(ds, os, times[k]);
  }

  lemma SomeoneAtRisk(ds: seq<real>, os: seq<bool>, t: real)
    requires |ds| == |os| && t in Unique(Events(ds, os))
    ensures AtLeast(ds, t) > 0 && Died(ds, os, t) > 0
  {
    UniqueFacts(Events(ds, os));
    DiedAtMostRisk(ds, os, t);
  }

  lemma RatioOne(n: nat)
    requires n > 0
    ensures Ratio(n, n) == 1.0
  {}

  lemma Telescope(n: nat, risk: nat, died: nat, left: nat)
    requires n > 0 && risk > 0 && risk == died + left
    ensures Ratio(risk, n) * FactorOf(died, risk) == Ratio(left, n)
  {
    TelescopeReals(n as real, risk as real, died as real, left as real, Ratio(risk, n), Ratio(died, risk), FactorOf(died, risk));
  }

  lemma TelescopeReals(n: real, risk: real, died: real, left: real, p: real, q: real, factor: real)
    requires n > 0.0 && risk > 0.0 && risk == died + left && p == risk / n && q == died / risk && factor == 1.0 - q
    ensures p * factor == left / n
  {
    assert p * n == risk && q * risk == died;
    assert (p * factor) * n == (p * n) * factor;
    assert risk * factor == risk - q * risk;
    Divides(left, n, p * factor);
  }

  // ---------------------------------------------------------------- reading a curve

  /** `np.searchsorted(times, t, side="right")` */
  function UpTo(ts: seq<real>, t: real): (k: nat)
    ensures k <= |ts|
  {
    if ts == [] || ts[0] > t then 0 else 1 + UpTo(ts[1..], t)
  }

  lemma {:induction false} UpToFacts(ts: seq<real>, t: real)
    requires Rising(ts)
    ensures forall i :: 0 <= i < UpTo(ts, t) ==> ts[i] <= t
    ensures forall i :: UpTo(ts, t) <= i < |ts| ==> ts[i] > t
  {
    if ts != [] && ts[0] <= t { UpToFacts(ts[1..], t); }
  }

  function At(c: Curve, t: real): real
    requires |c.survival| == |c.times|
  {
    var k := UpTo(c.times, t);
    if k == 0 then 1.0 else c.survival[k - 1]
  }

  /** Read anywhere, the curve of uncensored data is the fraction of units that lasted longer. */
  lemma UncensoredIsFraction(c: Curve, ds: seq<real>, os: seq<bool>, t: real)
    requires |ds| == |os| && ds != [] && (forall i :: 0 <= i < |os| ==> os[i]) && c == Estimate(ds, os)
    ensures At(c, t) == Ratio(Beyond(ds, t), |ds|)
  {
    var k := UpTo(c.times, t);
    UniqueFacts(Events(ds, os));
    UpToFacts(c.times, t);
    forall i | 0 <= i < |ds| ensures ds[i] > t <==> k == 0 || ds[i] > c.times[k - 1] {
      var j := Placed(ds, os, i);
      assert k > 0 && j >= k ==> c.times[k - 1] < c.times[j];
      assert k > 0 && j < k - 1 ==> c.times[j] < c.times[k - 1];
    }
    if k == 0 {
      AllBeyond(ds, t);
      RatioOne(|ds|);
    } else {
      Telescopes(ds, os, c.times, k - 1);
      SameBeyond(ds, t, c.times[k - 1]);
    }
  }

  // ---------------------------------------------------------------- log-rank

  datatype Arm = Arm(durations: seq<real>, observed: seq<bool>)

  predicate Matched(a: Arm) { |a.durations| == |a.observed| }

  predicate Usable(a: Arm) { Matched(a) && a.durations != [] }

  datatype ArmError = ArmShape(first: bool) | ArmEmpty(first: bool)

  datatype LogRank = LogRank(statistic: real, pValue: real, observedA: nat, expectedA: real)

  datatype Outcome = Tested(result: LogRank) | Refused(error: ArmError)

  function Times(a: Arm, b: Arm): seq<real>
    requires Matched(a) && Matched(b)
  {
    Unique(Events(a.durations, a.observed) + Events(b.durations, b.observed))
  }

  function Risk(a: Arm, t: real): nat { AtLeast(a.durations, t) }

  function Deaths(a: Arm, t: real): nat
    requires Matched(a)
  {
    Died(a.durations, a.observed, t)
  }

  /** Times that carry no information are skipped. */
  predicate Informative(a: Arm, b: Arm, t: real)
    requires Matched(a) && Matched(b)
  {
    Risk(a, t) + Risk(b, t) > 1 && Deaths(a, t) + Deaths(b, t) > 0
  }

  function Expected(a: Arm, b: Arm, t: real): real
    requires Matched(a) && Matched(b)
  {
    if !Informative(a, b, t) then 0.0
    else ExpectedOf(Risk(a, t), Risk(b, t), Deaths(a, t) + Deaths(b, t))
  }

  function ExpectedOf(nA: nat, nB: nat, d: nat): real
    requires nA + nB > 1
  {
    (nA * d) as real / (nA + nB) as real
  }

  function VarianceOf(nA: nat, nB: nat, d: nat): real
    requires nA + nB > 1
  {
    var n := nA + nB;
    (nA * nB * d * (n - d)) as real / (n * n * (n - 1)) as real
  }

  function Variance(a: Arm, b: Arm, t: real): real
    requires Matched(a) && Matched(b)
  {
    if !Informative(a, b, t) then 0.0
    else VarianceOf(Risk(a, t), Risk(b, t), Deaths(a, t) + Deaths(b, t))
  }

  function SumObserved(a: Arm, b: Arm, ts: seq<real>): nat
    requires Matched(a) && Matched(b)
  {
    if ts == [] then 0
    else SumObserved(a, b, ts[..|ts| - 1]) + (if Informative(a, b, ts[|ts| - 1]) then Deaths(a, ts[|ts| - 1]) else 0)
  }

  function SumExpected(a: Arm, b: Arm, ts: seq<real>): real
    requires Matched(a) && Matched(b)
  {
    if ts == [] then 0.0 else SumExpected(a, b, ts[..|ts| - 1]) + Expected(a, b, ts[|ts| - 1])
  }

  function SumVariance(a: Arm, b: Arm, ts: seq<real>): real
    requires Matched(a) && Matched(b)
  {
    if ts == [] then 0.0 else SumVariance(a, b, ts[..|ts| - 1]) + Variance(a, b, ts[|ts| - 1])
  }

  function Statistic(o: nat, e: real, v: real): real {
    if v <= 0.0 then 0.0 else (o as real - e) * (o as real - e) / v
  }

  /** The test of two usable arms; `sf` is the chi-square tail with one degree of freedom. */
  function Test(a: Arm, b: Arm, sf: real -> real): LogRank
    requires Matched(a) && Matched(b)
  {
    var ts := Times(a, b);
    var o, e, v := SumObserved(a, b, ts), SumExpected(a, b, ts), SumVariance(a, b, ts);
    LogRank(Statistic(o, e, v), if v <= 0.0 then 1.0 else sf(Statistic(o, e, v)), o, e)
  }

  lemma TimeStep(a: Arm, b: Arm, ts: seq<real>, i: nat)
    requires Matched(a) && Matched(b) && i < |ts|
    ensures SumObserved(a, b, ts[..i + 1]) == SumObserved(a, b, ts[..i]) + (if Informative(a, b, ts[i]) then Deaths(a, ts[i]) else 0)
    ensures SumExpected(a, b, ts[..i + 1]) == SumExpected(a, b, ts[..i]) + Expected(a, b, ts[i])
    ensures SumVariance(a, b, ts[..i + 1]) == SumVariance(a, b, ts[..i]) + Variance(a, b, ts[i])
  {
    assert ts[..i + 1][..i] == ts[..i];
  }

  method LogRankTest(a: Arm, b: Arm, sf: real -> real) returns (r: Outcome)
    ensures r.Tested? <==> Usable(a) && Usable(b)
    ensures r.Tested? ==> r.result == Test(a, b, sf)
    ensures r.Refused? && r.error.first <==> !Usable(a)
    ensures r.Refused? && r.error.ArmShape? <==> !Matched(a) || (Usable(a) && !Matched(b))
  {
    if !Matched(a) { return Refused(ArmShape(true)); }
    if a.durations == [] { return Refused(ArmEmpty(true)); }
    if !Matched(b) { return Refused(ArmShape(false)); }
    if b.durations == [] { return Refused(ArmEmpty(false)); }
    var times := Times(a, b);
    if times == [] {
      assert Test(a, b, sf) == LogRank(0.0, 1.0, 0, 0.0);
      return Tested(LogRank(0.0, 1.0, 0, 0.0));
    }
    var observed: nat, expected, variance := 0, 0.0, 0.0;
    var i := 0;
    while i < |times|
      invariant 0 <= i <= |times|
      invariant observed == SumObserved(a, b, times[..i])
      invariant expected == SumExpected(a, b, times[..i])
      invariant variance == SumVariance(a, b, times[..i])
    {
      var t := times[i];
      TimeStep(a, b, times, i);
      i := i + 1;
      var nA, nB := Risk(a, t), Risk(b, t);
      var n := nA + nB;
      if n <= 1 { continue; }
      var dA, dB := Deaths(a, t), Deaths(b, t);
      var d := dA + dB;
      if d == 0 { continue; }
      observed := observed + dA;
      expected := expected + ExpectedOf(nA, nB, d);
      variance := variance + VarianceOf(nA, nB, d);
    }
    assert times[..i] == times;
    if variance <= 0.0 { return Tested(LogRank(0.0, 1.0, observed, expected)); }
    var statistic := Statistic(observed, expected, variance);
    r := Tested(LogRank(statistic, sf(statistic), observed, expected));
  }

  lemma TimesSymmetric(a: Arm, b: Arm)
    requires Matched(a) && Matched(b)
    ensures Times(a, b) == Times(b, a)
  {
    var x, y := Events(a.durations, a.observed), Events(b.durations, b.observed);
    UniqueFacts(x + y);
    UniqueFacts(y + x);
    RisingEqual(Unique(x + y), Unique(y + x));
  }

  lemma ExpectedShares(m: nat, n: nat, d: nat)
    requires m + n > 1
    ensures ExpectedOf(m, n, d) + ExpectedOf(n, m, d) == d as real
  {
    var x, y, z := (m * d) as real, (n * d) as real, (m + n) as real;
    assert m * d + n * d == (m + n) * d;
    assert x + y == z * d as real;
    assert x / z + y / z == (x + y) / z;
  }

  lemma VarianceSymmetric(m: nat, n: nat, d: nat)
    requires m + n > 1
    ensures VarianceOf(m, n, d) == VarianceOf(n, m, d)
  {
    assert m * n == n * m;
  }

  /** Over both arms as many events are expected as are counted, and the variance is shared. */
  lemma {:induction false} Balances(a: Arm, b: Arm, ts: seq<real>)
    requires Matched(a) && Matched(b)
    ensures SumExpected(a, b, ts) + SumExpected(b, a, ts) == (SumObserved(a, b, ts) + SumObserved(b, a, ts)) as real
    ensures SumVariance(a, b, ts) == SumVariance(b, a, ts)
    decreases |ts|
  {
    if ts != [] {
      var t := ts[|ts| - 1];
      Balances(a, b, ts[..|ts| - 1]);
      if Informative(a, b, t) {
        ExpectedShares(Risk(a, t), Risk(b, t), Deaths(a, t) + Deaths(b, t));
        VarianceSymmetric(Risk(a, t), Risk(b, t), Deaths(a, t) + Deaths(b, t));
      }
    }
  }

  lemma SquareEven(x: real, y: real)
    requires y == -x
    ensures x * x == y * y
  {}

  lemma StatisticEven(o: nat, e: real, p: nat, f: real, v: real)
    requires e + f == (o + p) as real
    ensures Statistic(o, e, v) == Statistic(p, f, v)
  {
    SquareEven(o as real - e, p as real - f);
  }

  /** Naming the arms the other way round changes neither the statistic nor its p-value. */
  lemma SwapKeepsTest(a: Arm, b: Arm, sf: real -> real)
    requires Matched(a) && Matched(b)
    ensures Test(a, b, sf).statistic == Test(b, a, sf).statistic && Test(a, b, sf).pValue == Test(b, a, sf).pValue
    ensures Test(a, b, sf).expectedA + Test(b, a, sf).expectedA
         == (Test(a, b, sf).observedA + Test(b, a, sf).observedA) as real
  {
    var ts := Times(a, b);
    TimesSymmetric(a, b);
    Balances(a, b, ts);
    StatisticEven(SumObserved(a, b, ts), SumExpected(a, b, ts), SumObserved(b, a, ts), SumExpected(b, a, ts), SumVariance(a, b, ts));
  }

  /** An arm compared with itself shows no difference. */
  lemma {:induction false} SelfBalances(a: Arm, ts: seq<real>)
    requires Matched(a)
    ensures SumExpected(a, a, ts) == SumObserved(a, a, ts) as real
    decreases |ts|
  {
    Balances(a, a, ts);
  }

  lemma SameArmsShowNothing(a: Arm, sf: real -> real)
    requires Matched(a)
    ensures Test(a, a, sf).statistic == 0.0
  {
    var ts := Times(a, a);
    SelfBalances(a, ts);
    NothingOver(SumObserved(a, a, ts), SumExpected(a, a, ts), SumVariance(a, a, ts));
  }

  lemma NothingOver(o: nat, e: real, v: real)
    requires e == o as real
    ensures Statistic(o, e, v) == 0.0
  {
    assert (o as real - e) * (o as real - e) == 0.0;
  }

  // ---------------------------------------------------------------- what is summed

  /** At each time `d` of the units at risk die; were the arms alike, the dead of the first arm would be a blind draw. */
  lemma ExpectedIsMean(nA: nat, nB: nat, d: nat)
    requires nA + nB > 1 && d <= nA + nB
    ensures ExpectedOf(nA, nB, d) == Draws.Mean(nA, nB, d)
  {
    Draws.MeanIs(nA, nB, d);
  }

  lemma VarianceIsOfDraw(nA: nat, nB: nat, d: nat)
    requires nA + nB > 1 && d <= nA + nB
    ensures VarianceOf(nA, nB, d) == Draws.Variance(nA, nB, d)
  {
    Draws.VarianceIs(nA, nB, d);
  }

  /** Nobody or everybody dying varies nothing. */
  lemma VarianceEnds(nA: nat, nB: nat)
    requires nA + nB > 1
    ensures VarianceOf(nA, nB, 0) == 0.0 && VarianceOf(nA, nB, nA + nB) == 0.0
  {
    var n := nA + nB;
    assert nA * nB * 0 * (n - 0) == 0 && nA * nB * n * (n - n) == 0;
  }

  /** The dead vary as the survivors do. */
  lemma VarianceMirrors(nA: nat, nB: nat, d: nat)
    requires nA + nB > 1 && d <= nA + nB
    ensures VarianceOf(nA, nB, nA + nB - d) == VarianceOf(nA, nB, d)
  {
    Mirrored(nA * nB, d, nA + nB - d);
  }

  lemma Mirrored(m: int, d: int, c: int)
    ensures m * c * d == m * d * c
  {
    assert m * (c * d) == m * (d * c);
  }

  function MeanDeaths(a: Arm, b: Arm, t: real): real
    requires Matched(a) && Matched(b)
  {
    Draws.Mean(Risk(a, t), Risk(b, t), Deaths(a, t) + Deaths(b, t))
  }

  function Noise(a: Arm, b: Arm, t: real): real
    requires Matched(a) && Matched(b)
  {
    Draws.Variance(Risk(a, t), Risk(b, t), Deaths(a, t) + Deaths(b, t))
  }

  lemma AloneOrNobody(nA: nat, nB: nat, dA: nat, dB: nat)
    requires nA + nB <= 1 && dA <= nA && dB <= nB
    ensures Draws.Mean(nA, nB, dA + dB) == dA as real && Draws.Variance(nA, nB, dA + dB) == 0.0
  {
    Drawn(nA, nB, dA + dB);
    assert Draws.Mean(nA, nB, dA + dB) == dA as real;
    assert Draws.Spread(nA, nB, dA + dB, dA as real, dA + dB) == 0.0;
  }

  lemma Drawn(nA: nat, nB: nat, d: nat)
    requires nA + nB <= 1 && d <= nA + nB
    ensures Draws.Ways(nA + nB, d) == 1
    ensures forall j: nat :: j <= d ==> Draws.Count(nA, nB, d, j) == if j == (if nA == 1 then d else 0) then 1.0 else 0.0
  {}

  lemma NobodyDies(nA: nat, nB: nat)
    requires nA + nB > 1
    ensures Draws.Mean(nA, nB, 0) == 0.0 && Draws.Variance(nA, nB, 0) == 0.0
  {
    ExpectedIsMean(nA, nB, 0);
    VarianceIsOfDraw(nA, nB, 0);
  }

  /** A time that is skipped has no gap and no variance to add. */
  lemma SkippedShowsNothing(a: Arm, b: Arm, t: real)
    requires Matched(a) && Matched(b) && !Informative(a, b, t)
    ensures MeanDeaths(a, b, t) == Deaths(a, t) as real && Noise(a, b, t) == 0.0
  {
    DiedAtMostRisk(a.durations, a.observed, t);
    DiedAtMostRisk(b.durations, b.observed, t);
    if Risk(a, t) + Risk(b, t) <= 1 {
      AloneOrNobody(Risk(a, t), Risk(b, t), Deaths(a, t), Deaths(b, t));
    } else {
      NobodyDies(Risk(a, t), Risk(b, t));
    }
  }

  function Gaps(a: Arm, b: Arm, ts: seq<real>): real
    requires Matched(a) && Matched(b)
  {
    if ts == [] then 0.0 else Gaps(a, b, ts[..|ts| - 1]) + (Deaths(a, ts[|ts| - 1]) as real - MeanDeaths(a, b, ts[|ts| - 1]))
  }

  function Noises(a: Arm, b: Arm, ts: seq<real>): real
    requires Matched(a) && Matched(b)
  {
    if ts == [] then 0.0 else Noises(a, b, ts[..|ts| - 1]) + Noise(a, b, ts[|ts| - 1])
  }

  lemma CountedIsDrawn(a: Arm, b: Arm, t: real)
    requires Matched(a) && Matched(b) && Informative(a, b, t)
    ensures Expected(a, b, t) == MeanDeaths(a, b, t) && Variance(a, b, t) == Noise(a, b, t)
  {
    DiedAtMostRisk(a.durations, a.observed, t);
    DiedAtMostRisk(b.durations, b.observed, t);
    ExpectedIsMean(Risk(a, t), Risk(b, t), Deaths(a, t) + Deaths(b, t));
    VarianceIsOfDraw(Risk(a, t), Risk(b, t), Deaths(a, t) + Deaths(b, t));
  }

  lemma {:induction false} SumsAreDrawn(a: Arm, b: Arm, ts: seq<real>)
    requires Matched(a) && Matched(b)
    ensures SumObserved(a, b, ts) as real - SumExpected(a, b, ts) == Gaps(a, b, ts)
    ensures SumVariance(a, b, ts) == Noises(a, b, ts)
    decreases |ts|
  {
    if ts != [] {
      var t := ts[|ts| - 1];
      SumsAreDrawn(a, b, ts[..|ts| - 1]);
      if Informative(a, b, t) { CountedIsDrawn(a, b, t); } else { SkippedShowsNothing(a, b, t); }
    }
  }

  /** The times tested are the distinct times at which a unit of either arm died, in order. */
  lemma TimesAre(a: Arm, b: Arm)
    requires Matched(a) && Matched(b)
    ensures Rising(Times(a, b)) && forall t :: t in Times(a, b) <==> Deaths(a, t) + Deaths(b, t) > 0
  {
    UniqueFacts(Events(a.durations, a.observed) + Events(b.durations, b.observed));
    forall t ensures t in Times(a, b) <==> Deaths(a, t) + Deaths(b, t) > 0 {
      DiedAtMostRisk(a.durations, a.observed, t);
      DiedAtMostRisk(b.durations, b.observed, t);
    }
  }

  predicate Weighs(r: LogRank, sf: real -> real, g: real, v: real) {
    if v > 0.0 then r.statistic * v == g * g && r.pValue == sf(r.statistic) else r.statistic == 0.0 && r.pValue == 1.0
  }

  lemma ResultWeighs(r: LogRank, sf: real -> real, o: nat, e: real, v: real)
    requires r == LogRank(Statistic(o, e, v), if v <= 0.0 then 1.0 else sf(Statistic(o, e, v)), o, e)
    ensures Weighs(r, sf, o as real - e, v)
  {}

  lemma TestWeighs(a: Arm, b: Arm, sf: real -> real, o: nat, e: real, v: real)
    requires Matched(a) && Matched(b)
    requires var ts := Times(a, b); o == SumObserved(a, b, ts) && e == SumExpected(a, b, ts) && v == SumVariance(a, b, ts)
    ensures Weighs(Test(a, b, sf), sf, o as real - e, v)
  {
    ResultWeighs(Test(a, b, sf), sf, o, e, v);
  }

  /** The statistic is the gaps' sum squared over the summed variances of the blind draws. */
  lemma TestIsOfDraws(a: Arm, b: Arm, sf: real -> real)
    requires Matched(a) && Matched(b)
    ensures Weighs(Test(a, b, sf), sf, Gaps(a, b, Times(a, b)), Noises(a, b, Times(a, b)))
  {
    var ts := Times(a, b);
    SumsAreDrawn(a, b, ts);
    TestWeighs(a, b, sf, SumObserved(a, b, ts), SumExpected(a, b, ts), SumVariance(a, b, ts));
  }
}
