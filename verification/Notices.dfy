/** Instants, the Indian wall clock and the rails (prayas/domain/rails.py). Times are whole microseconds of UTC. */
module Rails {

  const MINUTE: int := 60000000
  const HOUR: int := 60 * MINUTE
  const DAY: int := 24 * HOUR
  const IST_OFFSET: int := 330 * MINUTE

  /** The minute of the IST day; seconds are dropped. 10:00 is 600. */
  function MinuteOfDay(when: int): int { (when + IST_OFFSET) / MINUTE % 1440 }

  /** The same instant of the IST day, to the microsecond. */
  function TimeOfDay(when: int): int { (when + IST_OFFSET) % DAY }

  /** Days since 1 January 1970, by the IST calendar. */
  function DateIst(when: int): int { (when + IST_OFFSET) / DAY }

  /** Monday is 0; the first day of 1970 was a Thursday. */
  function Weekday(when: int): int { (DateIst(when) + 3) % 7 }

  const PDN_CUTOFF: int := 23 * 60 + 50

  predicate IsClearingDay(when: int) { Weekday(when) < 5 }

  predicate UpiExecutionLegal(when: int) {
    var m := MinuteOfDay(when);
    m < 600 || 780 <= m < 1020 || m >= 1290
  }

  predicate UpiNoticeLegal(sendAt: int, debitAt: int) {
    MinuteOfDay(sendAt) < PDN_CUTOFF || DateIst(debitAt) != DateIst(sendAt + DAY)
  }

  lemma NextDate(when: int)
    ensures DateIst(when + DAY) == DateIst(when) + 1
  {}

  /** The first clearing day after presentation, at the same time of day. */
  method OutcomeDueAt(presentedAt: int) returns (due: int)
    ensures IsClearingDay(due) && presentedAt + DAY <= due <= presentedAt + 3 * DAY && (due - presentedAt) % DAY == 0
    ensures forall k :: 1 <= k && presentedAt + k * DAY < due ==> !IsClearingDay(presentedAt + k * DAY)
    ensures due == DueAt(presentedAt)
  {
    due := presentedAt + DAY;
    NextDate(presentedAt);
    NextDate(presentedAt + DAY);
    NextDate(presentedAt + 2 * DAY);
    ghost var n := 1;
    while !IsClearingDay(due)
      invariant due == presentedAt + n * DAY && 1 <= n <= 3
      invariant forall k :: 1 <= k < n ==> !IsClearingDay(presentedAt + k * DAY)
      decreases 3 - n
    {
      due := due + DAY;
      n := n + 1;
    }
    WholeDays(presentedAt, n);
  }

  lemma WholeDays(p: int, n: nat)
    ensures (p + n * DAY - p) % DAY == 0
  {}

  function DueAt(presentedAt: int): int {
    if IsClearingDay(presentedAt + DAY) then presentedAt + DAY
    else if IsClearingDay(presentedAt + 2 * DAY) then presentedAt + 2 * DAY
    else presentedAt + 3 * DAY
  }

  /** How many days until the next clearing day. */
  function Skip(weekday: int): int { if weekday == 4 then 3 else if weekday == 5 then 2 else 1 }

  lemma DueDate(p: int)
    ensures DueAt(p) == p + Skip(Weekday(p)) * DAY && DateIst(DueAt(p)) == DateIst(p) + Skip(Weekday(p))
  {
    NextDate(p);
    NextDate(p + DAY);
    NextDate(p + 2 * DAY);
  }

  /**
   * Exactly when a later presentation comes due first: both fall on the Friday, Saturday or Sunday of one week,
   * the later one on a later day and at an earlier time of day.
   */
  lemma OvertakesExactly(p: int, q: int)
    requires p < q
    ensures DueAt(q) < DueAt(p) <==>
              && 4 <= Weekday(p) < Weekday(q) && DateIst(q) - DateIst(p) == Weekday(q) - Weekday(p)
              && TimeOfDay(q) < TimeOfDay(p)
  {
    DueDate(p);
    DueDate(q);
    DatesOrdered(p, q);
    DayAndTime(p);
    DayAndTime(q);
    if DateIst(p) == DateIst(q) {
    } else if DateIst(p) + Skip(Weekday(p)) <= DateIst(q) {
      Later(DueAt(p), DueAt(q));
    } else {
      SameWeekend(DateIst(p), DateIst(q));
    }
  }

  lemma DayAndTime(p: int)
    ensures p + IST_OFFSET == DateIst(p) * DAY + TimeOfDay(p) && 0 <= TimeOfDay(p) < DAY
  {}

  /** Two dates before the next clearing day of the first have that clearing day in common. */
  lemma SameWeekend(d: int, e: int)
    requires d < e < d + Skip((d + 3) % 7)
    ensures 4 <= (d + 3) % 7 < (e + 3) % 7 && e - d == (e + 3) % 7 - (d + 3) % 7
    ensures d + Skip((d + 3) % 7) == e + Skip((e + 3) % 7)
  {}

  /** So presentations made on clearing days come due in the order they were made. */
  lemma ClearingOrderKept(p: int, q: int)
    requires p < q && IsClearingDay(p) && IsClearingDay(q)
    ensures DueAt(p) < DueAt(q)
  {
    OvertakesExactly(p, q);
    DueDate(p);
    DueDate(q);
    if DueAt(p) == DueAt(q) && DateIst(p) != DateIst(q) {
      DatesOrdered(p, q);
      SkipReaches(DateIst(p), DateIst(q));
    }
  }

  lemma DatesOrdered(p: int, q: int)
    requires p <= q
    ensures DateIst(p) <= DateIst(q)
  {}

  lemma SkipReaches(d: int, e: int)
    requires d < e && (d + 3) % 7 < 5 && (e + 3) % 7 < 5
    ensures d + Skip((d + 3) % 7) <= e
  {}

  lemma Later(p: int, q: int)
    requires DateIst(p) < DateIst(q)
    ensures p < q
  {}

  /** An instant `minute` minutes into a UTC day `day` days after Thursday, 1 January 1970: the clock in India is 5:30 ahead. */
  lemma IstClock(day: int, minute: int, micros: int)
    requires 0 <= minute < 1440 && 0 <= micros < 60000000
    ensures var when := day * 86400000000 + minute * 60000000 + micros;
            var ist := minute + 5 * 60 + 30;
            && MinuteOfDay(when) == (if ist < 1440 then ist else ist - 1440)
            && Weekday(when) == (if ist < 1440 then day + 3 else day + 4) % 7
  {
    var when := day * 86400000000 + minute * 60000000 + micros;
    assert (when + IST_OFFSET) / MINUTE == day * 1440 + minute + 330;
    assert (when + IST_OFFSET) / DAY == if minute + 330 < 1440 then day else day + 1;
  }

  lemma MinuteInDay(when: int)
    ensures MinuteOfDay(when) == (when + IST_OFFSET) % DAY / MINUTE
  {
    var x := when + IST_OFFSET;
    var d, r := x / DAY, x % DAY;
    assert x == DAY * d + r;
    assert x / MINUTE == 1440 * d + r / MINUTE;
  }
}

/** When to send a pre-debit notice (prayas/notify/planner.py). */
module NoticePlanner {
  import opened Rails

  const CONTACT_OPEN: int := 480
  const CONTACT_CLOSE: int := 1140
  const MIN_NOTICE: int := 24
  const MAX_NOTICE: int := 96

  predicate InContactWindow(when: int) { CONTACT_OPEN <= MinuteOfDay(when) < CONTACT_CLOSE }

  predicate BeforeCutoff(sendAt: int, debitAt: int) {
    MinuteOfDay(sendAt) < PDN_CUTOFF || debitAt - sendAt > DAY
  }

  predicate LegalSend(sendAt: int, debitAt: int) {
    debitAt - sendAt >= MIN_NOTICE * HOUR && InContactWindow(sendAt) && BeforeCutoff(sendAt, debitAt)
  }

  /** The rail's own rule holds for everything the planner calls legal. */
  lemma LegalOnTheRail(sendAt: int, debitAt: int)
    requires LegalSend(sendAt, debitAt)
    ensures UpiNoticeLegal(sendAt, debitAt)
  {}

  /**
   * The two cutoff rules are not the same rule, for the planner counts hours and the rail calendar days. They
   * differ, from 23:50 on, for a debit on the day of sending or before, where the rail allows; and for one more
   * than 24 hours away that is still on the next day, hence under 24 hours and ten minutes, where the planner does.
   */
  lemma CutoffRulesDisagree(sendAt: int, debitAt: int)
    ensures BeforeCutoff(sendAt, debitAt) != UpiNoticeLegal(sendAt, debitAt) <==>
              && MinuteOfDay(sendAt) >= PDN_CUTOFF
              && (DateIst(debitAt) <= DateIst(sendAt)
                  || (debitAt - sendAt > DAY && DateIst(debitAt) == DateIst(sendAt) + 1))
    ensures BeforeCutoff(sendAt, debitAt) && !UpiNoticeLegal(sendAt, debitAt) ==> DAY < debitAt - sendAt < DAY + 10 * MINUTE
  {
    NextDate(sendAt);
    MinuteInDay(sendAt);
    DayAndTime(sendAt);
    DayAndTime(debitAt);
  }

  /** A send is legal exactly a day ahead, between 08:00 and 19:00 IST: within those hours the cutoff adds nothing. */
  lemma LegalSendExactly(sendAt: int, debitAt: int)
    ensures LegalSend(sendAt, debitAt)
       <==> debitAt - sendAt >= 24 * 60 * 60000000 && 8 * 60 <= MinuteOfDay(sendAt) < 19 * 60
  {}

  datatype Reason = FatigueCap | NoLawfulInstant

  datatype Plan = Send(at: int) | Silent(reason: Reason)

  function Before(debitAt: int, hours: int): int { debitAt - hours * HOUR }

  predicate Lawful(debitAt: int, decidedAt: int, hours: int) {
    Before(debitAt, hours) >= decidedAt && LegalSend(Before(debitAt, hours), debitAt)
  }

  /** The lawful candidates, least notice first. */
  function Candidates(debitAt: int, decidedAt: int, from: int): seq<int>
    decreases MAX_NOTICE + 1 - from
  {
    if from > MAX_NOTICE then []
    else (if Lawful(debitAt, decidedAt, from) then [Before(debitAt, from)] else []) + Candidates(debitAt, decidedAt, from + 1)
  }

  function Latest(cs: seq<int>): int
    requires cs != []
  {
    if |cs| == 1 then cs[0] else if cs[0] >= Latest(cs[1..]) then cs[0] else Latest(cs[1..])
  }

  function Distance(a: int, b: int): int { if a < b then b - a else a - b }

  /** `min(legal, key=...)`: of equally near ones, the first. */
  function Nearest(cs: seq<int>, target: int): int
    requires cs != []
  {
    if |cs| == 1 then cs[0]
    else
      var rest := Nearest(cs[1..], target);
      if Distance(target, cs[0]) <= Distance(target, rest) then cs[0] else rest
  }

  datatype Funding = Unknown | Expected(at: int)

  function PlanNotice(debitAt: int, decidedAt: int, funding: Funding, sent: int, cap: int): Plan {
    var legal := Candidates(debitAt, decidedAt, MIN_NOTICE);
    if sent >= cap then Silent(FatigueCap)
    else if legal == [] then Silent(NoLawfulInstant)
    else match funding
      case Unknown => Send(Latest(legal))
      case Expected(at) => Send(Nearest(legal, at))
  }

  lemma {:induction false} CandidatesExactly(debitAt: int, decidedAt: int, from: int, c: int)
    ensures c in Candidates(debitAt, decidedAt, from)
       <==> exists h :: from <= h <= MAX_NOTICE && Lawful(debitAt, decidedAt, h) && c == Before(debitAt, h)
    decreases MAX_NOTICE + 1 - from
  {
    if from <= MAX_NOTICE {
      CandidatesExactly(debitAt, decidedAt, from + 1, c);
      if h :| from <= h <= MAX_NOTICE && Lawful(debitAt, decidedAt, h) && c == Before(debitAt, h) {
        assert h == from || from + 1 <= h;
      }
    }
  }

  lemma {:induction false} LatestIsLatest(cs: seq<int>)
    requires cs != []
    ensures Latest(cs) in cs && forall c :: c in cs ==> c <= Latest(cs)
  {
    if |cs| > 1 {
      LatestIsLatest(cs[1..]);
      assert cs == [cs[0]] + cs[1..];
    }
  }

  lemma {:induction false} NearestIsNearest(cs: seq<int>, target: int)
    requires cs != []
    ensures Nearest(cs, target) in cs
    ensures forall c :: c in cs ==> Distance(target, Nearest(cs, target)) <= Distance(target, c)
  {
    if |cs| > 1 {
      NearestIsNearest(cs[1..], target);
      assert cs == [cs[0]] + cs[1..];
    }
  }

  predicate Descends(cs: seq<int>) { forall i, j :: 0 <= i < j < |cs| ==> cs[j] < cs[i] }

  /** Least notice first is latest first. */
  lemma {:induction false} CandidatesDescend(debitAt: int, decidedAt: int, from: int)
    ensures Descends(Candidates(debitAt, decidedAt, from))
    ensures forall c :: c in Candidates(debitAt, decidedAt, from) ==> c <= Before(debitAt, from)
    decreases MAX_NOTICE + 1 - from
  {
    if from <= MAX_NOTICE {
      var rest := Candidates(debitAt, decidedAt, from + 1);
      CandidatesDescend(debitAt, decidedAt, from + 1);
      assert forall i :: 0 <= i < |rest| ==> rest[i] in rest;
    }
  }

  lemma {:induction false} NearestIsLatest(cs: seq<int>, target: int)
    requires cs != [] && Descends(cs)
    ensures forall c :: c in cs && Distance(target, c) == Distance(target, Nearest(cs, target)) ==> c <= Nearest(cs, target)
  {
    NearestIsNearest(cs, target);
    if |cs| > 1 {
      NearestIsLatest(cs[1..], target);
      assert cs == [cs[0]] + cs[1..];
    }
  }

  /** `a` is no further from `at` than `b`, on whichever sides they lie. */
  predicate NoFurther(at: int, a: int, b: int) {
    && (at - a <= at - b || at - a <= b - at)
    && (a - at <= at - b || a - at <= b - at)
  }

  /** `plan` against the other candidates: no lawful hour is nearer the funding, or later when none is predicted. */
  ghost predicate Better(funding: Funding, a: int, b: int) {
    match funding
    case Unknown => a >= b
    case Expected(at) => NoFurther(at, a, b) && (NoFurther(at, b, a) ==> a >= b)
  }

  lemma BestOf(legal: seq<int>, funding: Funding, c: int)
    requires legal != [] && Descends(legal) && c in legal
    ensures var at := if funding.Unknown? then Latest(legal) else Nearest(legal, funding.at);
            at in legal && Better(funding, at, c)
  {
    match funding
    case Unknown => LatestIsLatest(legal);
    case Expected(target) =>
      NearestIsNearest(legal, target);
      NearestIsLatest(legal, target);
  }

  lemma LawfulIsCandidate(debitAt: int, decidedAt: int, h: int)
    requires 24 <= h <= 96 && Lawful(debitAt, decidedAt, h)
    ensures Before(debitAt, h) in Candidates(debitAt, decidedAt, MIN_NOTICE)
  {
    CandidatesExactly(debitAt, decidedAt, MIN_NOTICE, Before(debitAt, h));
  }

  /**
   * The chosen instant is a lawful one with 24 to 96 whole hours of notice, and no other is better placed; of two that
   * are equally near it is the later.
   */
  lemma PlanIsBest(debitAt: int, decidedAt: int, funding: Funding, sent: int, cap: int)
    requires PlanNotice(debitAt, decidedAt, funding, sent, cap).Send?
    ensures var p := PlanNotice(debitAt, decidedAt, funding, sent, cap);
            exists h :: 24 <= h <= 96 && Lawful(debitAt, decidedAt, h) && p.at == Before(debitAt, h)
    ensures forall h :: 24 <= h <= 96 && Lawful(debitAt, decidedAt, h) ==>
              Better(funding, PlanNotice(debitAt, decidedAt, funding, sent, cap).at, Before(debitAt, h))
  {
    var legal := Candidates(debitAt, decidedAt, MIN_NOTICE);
    CandidatesDescend(debitAt, decidedAt, MIN_NOTICE);
    BestOf(legal, funding, legal[0]);
    CandidatesExactly(debitAt, decidedAt, MIN_NOTICE, PlanNotice(debitAt, decidedAt, funding, sent, cap).at);
    forall h | 24 <= h <= 96 && Lawful(debitAt, decidedAt, h)
      ensures Better(funding, PlanNotice(debitAt, decidedAt, funding, sent, cap).at, Before(debitAt, h))
    {
      LawfulIsCandidate(debitAt, decidedAt, h);
      BestOf(legal, funding, Before(debitAt, h));
    }
  }

  // ---------------------------------------------------------------- when a lawful instant exists

  /** The least whole hours of notice that land in the contact window. */
  function NeededHours(debitAt: int): int {
    var m := MinuteOfDay(debitAt);
    if m < CONTACT_OPEN then MIN_NOTICE + (m + 1440 - CONTACT_CLOSE) / 60 + 1
    else if m < CONTACT_CLOSE then MIN_NOTICE
    else MIN_NOTICE + (m - CONTACT_CLOSE) / 60 + 1
  }

  lemma MinuteBefore(debitAt: int, hours: int)
    ensures MinuteOfDay(Before(debitAt, hours)) == (MinuteOfDay(debitAt) - 60 * hours) % 1440
  {
    var x := (debitAt + IST_OFFSET) / MINUTE;
    assert (debitAt + IST_OFFSET - hours * HOUR) / MINUTE == x - 60 * hours;
    assert x == 1440 * (x / 1440) + x % 1440;
  }

  /** One more hour of notice is one hour earlier in the day, wrapping at midnight. */
  function Back(m: int, k: int): int { if m - 60 * k < 0 then m - 60 * k + 1440 else m - 60 * k }

  lemma MinuteBack(debitAt: int, k: int)
    requires 0 <= k <= 13
    ensures MinuteOfDay(Before(debitAt, MIN_NOTICE + k)) == Back(MinuteOfDay(debitAt), k)
  {
    var m := MinuteOfDay(debitAt);
    MinuteBefore(debitAt, MIN_NOTICE + k);
    assert (m - 60 * (MIN_NOTICE + k)) == (m - 60 * k) - 1440;
    assert 0 <= m < 1440;
  }

  lemma NeededIsLeast(debitAt: int)
    ensures MIN_NOTICE <= NeededHours(debitAt) <= 37
    ensures LegalSend(Before(debitAt, NeededHours(debitAt)), debitAt)
    ensures forall h :: MIN_NOTICE <= h < NeededHours(debitAt) ==> !LegalSend(Before(debitAt, h), debitAt)
  {
    var n, m := NeededHours(debitAt), MinuteOfDay(debitAt);
    assert 0 <= m < 1440;
    MinuteBack(debitAt, n - MIN_NOTICE);
    forall h | MIN_NOTICE <= h < n ensures !LegalSend(Before(debitAt, h), debitAt) {
      MinuteBack(debitAt, h - MIN_NOTICE);
      assert !(CONTACT_OPEN <= Back(m, h - MIN_NOTICE) < CONTACT_CLOSE);
    }
  }

  /** A notice is planned exactly when the cap leaves room and the decision comes `NeededHours` before the debit. */
  lemma PlanSendsExactly(debitAt: int, decidedAt: int, funding: Funding, sent: int, cap: int)
    ensures PlanNotice(debitAt, decidedAt, funding, sent, cap).Send?
       <==> sent < cap && debitAt - decidedAt >= NeededHours(debitAt) * HOUR
  {
    LegalExactly(debitAt, decidedAt);
    LawfulExactly(debitAt, decidedAt);
  }

  lemma LawfulExactly(debitAt: int, decidedAt: int)
    ensures (exists h :: MIN_NOTICE <= h <= MAX_NOTICE && Lawful(debitAt, decidedAt, h))
       <==> debitAt - decidedAt >= NeededHours(debitAt) * HOUR
  {
    var n := NeededHours(debitAt);
    NeededIsLeast(debitAt);
    forall h | MIN_NOTICE <= h <= MAX_NOTICE && Lawful(debitAt, decidedAt, h) ensures debitAt - decidedAt >= n * HOUR {
      assert h >= n;
    }
    if debitAt - decidedAt >= n * HOUR {
      assert Lawful(debitAt, decidedAt, n);
    }
  }

  lemma LegalExactly(debitAt: int, decidedAt: int)
    ensures Candidates(debitAt, decidedAt, MIN_NOTICE) != [] <==> exists h :: MIN_NOTICE <= h <= MAX_NOTICE && Lawful(debitAt, decidedAt, h)
  {
    var legal := Candidates(debitAt, decidedAt, MIN_NOTICE);
    if legal != [] {
      CandidatesExactly(debitAt, decidedAt, MIN_NOTICE, legal[0]);
    }
    if h :| MIN_NOTICE <= h <= MAX_NOTICE && Lawful(debitAt, decidedAt, h) {
      CandidatesExactly(debitAt, decidedAt, MIN_NOTICE, Before(debitAt, h));
    }
  }

  /** So 37 hours always suffice, and nothing shorter always does: a debit at 07:59 IST needs all of them. */
  lemma ThirtySevenHours(decidedAt: int, debitAt: int, funding: Funding, sent: int, cap: int)
    requires sent < cap
    ensures debitAt - decidedAt >= 37 * HOUR ==> PlanNotice(debitAt, decidedAt, funding, sent, cap).Send?
    ensures MinuteOfDay(debitAt) == 479 && debitAt - decidedAt < 37 * HOUR ==>
              PlanNotice(debitAt, decidedAt, funding, sent, cap) == Silent(NoLawfulInstant)
  {
    NeededIsLeast(debitAt);
    PlanSendsExactly(debitAt, decidedAt, funding, sent, cap);
  }

  // ---------------------------------------------------------------- the fixed 72-hour notice

  method NaivePlan(debitAt: int, decidedAt: int) returns (p: Plan)
    ensures p == Silent(NoLawfulInstant) || p.Send?
    ensures p.Send? ==> exists h :: MIN_NOTICE <= h <= 72 && Lawful(debitAt, decidedAt, h) && p.at == Before(debitAt, h)
                                    && forall k :: h < k <= 72 ==> !Lawful(debitAt, decidedAt, k)
    ensures p.Silent? ==> forall h :: MIN_NOTICE <= h <= 72 ==> !Lawful(debitAt, decidedAt, h)
    ensures p.Send? <==> debitAt - decidedAt >= NeededHours(debitAt) * HOUR
  {
    NeededIsLeast(debitAt);
    var n := NeededHours(debitAt);
    var sendAt := Before(debitAt, 72);
    if sendAt < decidedAt || !LegalSend(sendAt, debitAt) {
      var hours := 72;
      while hours >= MIN_NOTICE
        invariant MIN_NOTICE - 1 <= hours <= 72
        invariant forall k :: hours < k <= 72 ==> !Lawful(debitAt, decidedAt, k)
      {
        var candidate := Before(debitAt, hours);
        if candidate >= decidedAt && LegalSend(candidate, debitAt) {
          assert Lawful(debitAt, decidedAt, hours);
          return Send(candidate);
        }
        hours := hours - 1;
      }
      assert !Lawful(debitAt, decidedAt, n);
      return Silent(NoLawfulInstant);
    }
    assert Lawful(debitAt, decidedAt, 72);
    return Send(sendAt);
  }

  /** Whatever the naive vendor would send, `plan` below the cap sends, and never a worse-placed notice. */
  lemma PlanBeatsNaive(debitAt: int, decidedAt: int, funding: Funding, sent: int, cap: int, h: int)
    requires sent < cap && MIN_NOTICE <= h <= 72 && Lawful(debitAt, decidedAt, h)
    ensures var p := PlanNotice(debitAt, decidedAt, funding, sent, cap);
            p.Send? && LegalSend(p.at, debitAt) && p.at >= decidedAt && Better(funding, p.at, Before(debitAt, h))
  {
    LegalExactly(debitAt, decidedAt);
    PlanIsBest(debitAt, decidedAt, funding, sent, cap);
  }
}
