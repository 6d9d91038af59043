/** Hour bands (prayas/inference/bands.py) and the band-to-hour hazard expansion (prayas/models/serving.py). */
module Bands {
  import opened Common
  import Rails

  const BANDS: nat := 5

  /** Upper edges in fractional IST hours; half-open, so the bands tile the day. */
  function HourBand(hour: real): Option<nat> {
    if !(0.0 <= hour < 24.0) then None
    else if hour < 10.0 then Some(0)
    else if hour < 13.0 then Some(1)
    else if hour < 17.0 then Some(2)
    else if hour < 21.5 then Some(3)
    else Some(4)
  }

  /** The bands in which UPI Autopay may debit: before ten, the afternoon and late. */
  const LEGAL_UPI_BANDS: set<nat> := {0, 2, 4}

  /** The rail's execution windows and the model's hour bands draw the same lines, to the minute. */
  lemma ExecutionLegalByBand(when: int)
    ensures var band := HourBand(Rails.MinuteOfDay(when) as real / 60.0);
            band.Some? && (Rails.UpiExecutionLegal(when) <==> band.value in LEGAL_UPI_BANDS)
  {}

  /** The bands tile the day and nothing else. */
  lemma BandsTileTheDay(hour: real)
    ensures HourBand(hour).None? <==> hour < 0.0 || hour >= 24.0
    ensures HourBand(hour).Some? ==> HourBand(hour).value < 5
  {}

  function BandOf(hour: nat): (b: nat)
    requires hour < 24
    ensures b < BANDS
  {
    HourBand(hour as real).value
  }

  /** How many of the first `n` hours of the day lie in the band. */
  function HoursIn(band: nat, n: nat): nat
    requires n <= 24
  {
    if n == 0 then 0 else HoursIn(band, n - 1) + (if BandOf(n - 1) == band then 1 else 0)
  }

  /** `_BAND_HOURS` */
  function BandHours(band: nat): nat { HoursIn(band, 24) }

  lemma HoursUpTo(band: nat, n: nat)
    requires n <= 24 && band < BANDS
    ensures HoursIn(band, n) == Overlap(n, Opens(band), Closes(band))
  {
    if n > 0 { HoursUpTo(band, n - 1); }
  }

  /** The whole hours that start inside the band: 21:00 counts to the evening peak that ends at 21:30. */
  function Opens(band: nat): nat
    requires band < BANDS
  {
    if band == 0 then 0 else Closes(band - 1)
  }

  function Closes(band: nat): nat
    requires band < BANDS
  {
    match band case 0 => 10 case 1 => 13 case 2 => 17 case 3 => 22 case _ => 24
  }

  function Overlap(n: nat, low: nat, high: nat): int {
    if n <= low then 0 else if n <= high then n - low else high - low
  }

  /** The hours of the bands are 10, 3, 4, 5 and 2. */
  lemma BandHoursAre(band: nat)
    requires band < BANDS
    ensures BandHours(band) == match band case 0 => 10 case 1 => 3 case 2 => 4 case 3 => 5 case _ => 2
  {
    HoursUpTo(band, 24);
  }
}

module Serving {
  import opened Bands
  import opened Reals

  const HORIZON_DAYS: nat := 30
  const HORIZON_SLOTS: nat := 720
  const CLIP: real := 0.000001

  datatype Expansion = Hourly(hazards: seq<real>) | WrongSize

  function Pow(x: real, k: nat): real { if k == 0 then 1.0 else Pow(x, k - 1) * x }

  /** The k-th root in use. */
  ghost predicate IsRoot(root: (real, nat) -> real) {
    forall x, k :: x >= 0.0 && k > 0 ==> root(x, k) >= 0.0 && Pow(root(x, k), k) == x
  }

  function Clip(x: real): real { if x < CLIP then CLIP else if x > 1.0 - CLIP then 1.0 - CLIP else x }

  /** `np.clip`: hazards between one in a million and one less a millionth are kept, others moved to the nearer end. */
  lemma ClipKeeps(x: real)
    ensures 0.000001 <= Clip(x) <= 0.999999
    ensures 0.000001 <= x <= 0.999999 ==> Clip(x) == x
    ensures x < 0.000001 ==> Clip(x) == 0.000001
    ensures x > 0.999999 ==> Clip(x) == 0.999999
  {}

  /** The hazard of one hour of a band: surviving the band is surviving each of its hours. */
  function HourHazard(b: real, k: nat, root: (real, nat) -> real): real { Clip(1.0 - root(1.0 - b, k)) }

  function BandAt(slot: nat): nat { BandOf(slot % 24) }

  function HazardAt(bands: seq<real>, slot: nat, root: (real, nat) -> real): real
    requires |bands| == HORIZON_DAYS * BANDS && slot < HORIZON_SLOTS
  {
    HourHazard(bands[slot / 24 * BANDS + BandAt(slot)], BandHours(BandAt(slot)), root)
  }

  ghost predicate Expanded(bands: seq<real>, hourly: seq<real>, root: (real, nat) -> real) {
    && |bands| == HORIZON_DAYS * BANDS && |hourly| == HORIZON_SLOTS
    && forall s :: 0 <= s < HORIZON_SLOTS ==> hourly[s] == HazardAt(bands, s, root)
  }

  method BandToHourly(bands: seq<real>, root: (real, nat) -> real) returns (r: Expansion)
    ensures r.WrongSize? <==> |bands| != 30 * 5
    ensures r.Hourly? ==> |r.hazards| == 30 * 24 && Expanded(bands, r.hazards, root)
  {
    if |bands| != HORIZON_DAYS * BANDS { return WrongSize; }
    var hourly := new real[HORIZON_SLOTS];
    var slot := 0;
    while slot < HORIZON_SLOTS
      invariant 0 <= slot <= HORIZON_SLOTS
      invariant forall s :: 0 <= s < slot ==> hourly[s] == HazardAt(bands, s, root)
    {
      var day, hour := slot / 24, slot % 24;
      var band := BandOf(hour);
      hourly[slot] := HourHazard(bands[day * BANDS + band], BandHours(band), root);
      slot := slot + 1;
    }
    r := Hourly(hourly[..]);
  }

  // ---------------------------------------------------------------- aggregating hours again

  /** The chance of surviving the band's hours among the first `n` of the day. */
  function Survives(hourly: seq<real>, day: nat, band: nat, n: nat): real
    requires n <= 24
  {
    if n == 0 then 1.0
    else
      var slot := day * 24 + n - 1;
      Survives(hourly, day, band, n - 1) * (if BandOf(n - 1) == band && slot < |hourly| then 1.0 - hourly[slot] else 1.0)
  }

  predicate Covered(hourly: seq<real>, day: nat, band: nat) {
    exists hour :: 0 <= hour < 24 && BandOf(hour) == band && day * 24 + hour < |hourly|
  }

  method SegmentPrior(hourly: seq<real>) returns (prior: map<(nat, nat), real>)
    ensures forall day: nat, band: nat :: (day, band) in prior <==> day < HORIZON_DAYS && band < BANDS && Covered(hourly, day, band)
    ensures forall day: nat, band: nat :: (day, band) in prior ==> prior[(day, band)] == 1.0 - Survives(hourly, day, band, 24)
  {
    prior := map[];
    var day := 0;
    while day < HORIZON_DAYS
      invariant 0 <= day <= HORIZON_DAYS
      invariant Filled(prior, hourly, day, 0)
    {
      var band := 0;
      while band < BANDS
        invariant 0 <= band <= BANDS
        invariant Filled(prior, hourly, day, band)
      {
        if exists hour :: 0 <= hour < 24 && BandOf(hour) == band && day * 24 + hour < |hourly| {
          prior := prior[(day, band) := 1.0 - Survives(hourly, day, band, 24)];
        }
        band := band + 1;
      }
      day := day + 1;
    }
  }

  /** All days before `day`, and that day's bands before `band`, have been entered. */
  ghost predicate Filled(prior: map<(nat, nat), real>, hourly: seq<real>, day: nat, band: nat) {
    forall d: nat, b: nat ::
      && ((d, b) in prior <==> b < BANDS && (d < day || (d == day && b < band)) && Covered(hourly, d, b))
      && ((d, b) in prior ==> prior[(d, b)] == 1.0 - Survives(hourly, d, b, 24))
  }

  // ---------------------------------------------------------------- powers

  lemma {:induction false} PowGrows(x: real, y: real, k: nat)
    requires 0.0 <= x < y
    ensures 0.0 <= Pow(x, k) && 0.0 < Pow(y, k) && (k > 0 ==> Pow(x, k) < Pow(y, k))
  {
    if k > 0 {
      PowGrows(x, y, k - 1);
      Products(Pow(x, k - 1), Pow(y, k - 1), x, y);
    }
  }

  lemma Products(a: real, b: real, x: real, y: real)
    requires 0.0 <= a <= b && 0.0 < b && 0.0 <= x < y
    ensures 0.0 <= a * x < b * y
  {
    assert b * y - a * x == b * (y - x) + (b - a) * x;
    assert b * (y - x) > 0.0;
    assert (b - a) * x >= 0.0;
  }

  /** A power decides its base. */
  lemma PowOrder(x: real, y: real, k: nat)
    requires x >= 0.0 && y >= 0.0 && k > 0
    ensures Pow(x, k) < Pow(y, k) <==> x < y
    ensures Pow(x, k) == Pow(y, k) <==> x == y
  {
    if x < y { PowGrows(x, y, k); }
    if y < x { PowGrows(y, x, k); }
  }

  lemma {:induction false} SurvivesSame(hourly: seq<real>, day: nat, band: nat, n: nat, v: real)
    requires n <= 24 && day * 24 + 24 <= |hourly|
    requires forall hour :: 0 <= hour < 24 && BandOf(hour) == band ==> hourly[day * 24 + hour] == v
    ensures Survives(hourly, day, band, n) == Pow(1.0 - v, HoursIn(band, n))
  {
    if n > 0 {
      SurvivesSame(hourly, day, band, n - 1, v);
    }
  }

  /** The band hazards that the clip leaves alone. */
  predicate WithinClip(b: real, k: nat) {
    1.0 - Pow(1.0 - CLIP, k) <= b <= 1.0 - Pow(CLIP, k)
  }

  lemma HoursOfBand(bands: seq<real>, hourly: seq<real>, root: (real, nat) -> real, day: nat, hour: nat)
    requires Expanded(bands, hourly, root) && day < HORIZON_DAYS && hour < 24
    ensures hourly[day * 24 + hour] == HourHazard(bands[day * BANDS + BandOf(hour)], BandHours(BandOf(hour)), root)
  {
    var slot := day * 24 + hour;
    assert slot / 24 == day && slot % 24 == hour;
    assert hourly[slot] == HazardAt(bands, slot, root);
  }

  /** Expanding and aggregating gives a band's hazard back exactly when the clip leaves its hours alone. */
  lemma RoundTripExactly(bands: seq<real>, hourly: seq<real>, root: (real, nat) -> real, day: nat, band: nat)
    requires IsRoot(root) && Expanded(bands, hourly, root)
    requires day < HORIZON_DAYS && band < BANDS && 0.0 <= bands[day * BANDS + band] <= 1.0
    ensures 1.0 - Survives(hourly, day, band, 24) == bands[day * BANDS + band]
       <==> WithinClip(bands[day * BANDS + band], BandHours(band))
  {
    var b, k := bands[day * BANDS + band], BandHours(band);
    BandSurvival(bands, hourly, root, day, band);
    BandHoursAre(band);
    HazardExactly(b, k, root);
  }

  lemma HazardExactly(b: real, k: nat, root: (real, nat) -> real)
    requires IsRoot(root) && 0.0 <= b <= 1.0 && k > 0
    ensures 1.0 - Pow(1.0 - HourHazard(b, k, root), k) == b <==> WithinClip(b, k)
  {
    assert Pow(root(1.0 - b, k), k) == 1.0 - b;
    ClipExactly(b, k, root(1.0 - b, k));
  }

  lemma BandSurvival(bands: seq<real>, hourly: seq<real>, root: (real, nat) -> real, day: nat, band: nat)
    requires Expanded(bands, hourly, root) && day < HORIZON_DAYS && band < BANDS
    ensures Survives(hourly, day, band, 24) == Pow(1.0 - HourHazard(bands[day * BANDS + band], BandHours(band), root), BandHours(band))
  {
    var v := HourHazard(bands[day * BANDS + band], BandHours(band), root);
    forall hour | 0 <= hour < 24 && BandOf(hour) == band ensures hourly[day * 24 + hour] == v {
      HoursOfBand(bands, hourly, root, day, hour);
    }
    SurvivesSame(hourly, day, band, 24, v);
  }

  lemma ClipExactly(b: real, k: nat, r: real)
    requires 0.0 <= b <= 1.0 && k > 0 && r >= 0.0 && Pow(r, k) == 1.0 - b
    ensures 1.0 - Pow(1.0 - Clip(1.0 - r), k) == b <==> WithinClip(b, k)
  {
    PowOrder(r, 1.0 - CLIP, k);
    PowOrder(1.0 - CLIP, r, k);
    PowOrder(r, CLIP, k);
    PowOrder(CLIP, r, k);
    PowOrder(1.0 - Clip(1.0 - r), r, k);
  }

  /** Spreading the hazard evenly instead loses some of it: the hours then never add up to more than the band. */
  lemma {:induction false} EvenSpreadLoses(x: real, k: nat)
    requires 0.0 <= x <= 1.0
    ensures 1.0 - Pow(1.0 - x, k) <= k as real * x
    ensures k >= 2 && x > 0.0 ==> 1.0 - Pow(1.0 - x, k) < k as real * x
  {
    if k > 0 {
      EvenSpreadLoses(x, k - 1);
      Bernoulli(x, k - 1, Pow(1.0 - x, k - 1));
    }
  }

  lemma Bernoulli(x: real, j: nat, p: real)
    requires 0.0 <= x <= 1.0 && 1.0 - p <= j as real * x
    requires j >= 2 && x > 0.0 ==> 1.0 - p < j as real * x
    requires j == 0 ==> p == 1.0
    ensures 1.0 - p * (1.0 - x) <= (j + 1) as real * x
    ensures j >= 1 && x > 0.0 ==> 1.0 - p * (1.0 - x) < (j + 1) as real * x
  {
    var jx, q := j as real * x, 1.0 - x;
    Scale(j, x);
    NonNegative(j as real, x);
    if j >= 1 && x > 0.0 { BothPositive(j as real, x, jx); }
    BernoulliStep(p, q, x, jx);
  }

  lemma Scale(j: nat, x: real)
    ensures (j + 1) as real * x == j as real * x + x
  {}

  lemma BernoulliStep(p: real, q: real, x: real, jx: real)
    requires 0.0 <= x <= 1.0 && q == 1.0 - x && jx >= 0.0 && 1.0 - p <= jx
    ensures 1.0 - p * q <= jx + x && (jx > 0.0 && x > 0.0 ==> 1.0 - p * q < jx + x)
  {
    var a, b, c := (p - (1.0 - jx)) * q, (1.0 - jx) * q, jx * x;
    NonNegative(p - (1.0 - jx), q);
    NonNegative(jx, x);
    assert p * q == a + b;
    assert b == 1.0 - jx - x + c;
    assert 1.0 - p * q == jx + x - a - c;
    if jx > 0.0 && x > 0.0 { BothPositive(jx, x, c); }
  }
}
