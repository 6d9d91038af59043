/**
 * Folding an event log into state (prayas/ingest/projector.py, prayas/ingest/envelope.py).
 * An event carries what the payload extractors read from it.
 */
module Projection {
  import opened Common
  import opened States
  import Text

  type Time = int
  type MandateId = string
  type CycleId = string

  datatype EventKind =
    | SubscriptionAuthenticated | SubscriptionActivated | SubscriptionResumed
    | SubscriptionPaused | SubscriptionHalted | SubscriptionCancelled | SubscriptionCompleted
    | SubscriptionCharged | PaymentFailed | PaymentCaptured | InvoicePaid
    | OtherEvent(name: string)

  datatype Event = Event(
    id: string,
    kind: EventKind,
    mandate: Option<MandateId>,
    cycleRef: Option<CycleId>,
    occurredAt: Time,
    amount: Option<int>,
    nextBilling: Option<Time>)

  // ---------------------------------------------------------------- the event vocabulary

  function MandateEvent(kind: EventKind): Option<MandateState> {
    match kind
    case SubscriptionAuthenticated | SubscriptionActivated | SubscriptionResumed => Some(Active)
    case SubscriptionPaused => Some(Paused)
    case SubscriptionHalted => Some(AtRisk)
    case SubscriptionCancelled => Some(Revoked)
    case SubscriptionCompleted => Some(Expired)
    case _ => None
  }

  predicate IsFailure(e: Event) { e.kind.PaymentFailed? }

  predicate IsSuccess(e: Event) {
    e.kind.PaymentCaptured? || e.kind.SubscriptionCharged? || e.kind.InvoicePaid?
  }

  // ---------------------------------------------------------------- the total order

  predicate Before(a: Event, b: Event) {
    a.occurredAt < b.occurredAt || (a.occurredAt == b.occurredAt && Text.Less(a.id, b.id))
  }

  predicate SameKey(a: Event, b: Event) { a.occurredAt == b.occurredAt && a.id == b.id }

  lemma BeforeIsTotal(a: Event, b: Event)
    ensures Before(a, b) || SameKey(a, b) || Before(b, a)
    ensures !(Before(a, b) && Before(b, a))
    ensures SameKey(a, b) ==> !Before(a, b)
  {
    Text.LessTrichotomy(a.id, b.id);
  }

  lemma BeforeTransitive(a: Event, b: Event, c: Event)
    requires Before(a, b) || SameKey(a, b)
    requires Before(b, c) || SameKey(b, c)
    ensures Before(a, c) || SameKey(a, c)
    ensures Before(a, b) || Before(b, c) ==> Before(a, c)
  {
    if Text.Less(a.id, b.id) && Text.Less(b.id, c.id) {
      Text.LessTransitive(a.id, b.id, c.id);
    }
  }

  /** Deliveries that share an event id are deliveries of one event. */
  ghost predicate Consistent(events: seq<Event>) {
    forall i, j :: 0 <= i < |events| && 0 <= j < |events| && events[i].id == events[j].id ==> events[i] == events[j]
  }

  /** The same facts, in any order and delivered any number of times. */
  ghost predicate SameFacts(xs: seq<Event>, ys: seq<Event>) {
    forall e :: e in xs <==> e in ys
  }

  predicate SameRef(e: Event, f: Event) {
    e.cycleRef.Some? && e.cycleRef == f.cycleRef && e.mandate.Some? && f.mandate.Some?
  }

  /** No cycle is named by the events of two mandates. */
  ghost predicate RefsOwned(log: seq<Event>) {
    forall e, f :: e in log && f in log && SameRef(e, f) ==> e.mandate == f.mandate
  }

  // ---------------------------------------------------------------- cycles

  datatype CycleProjection = CycleProjection(
    state: CycleState,
    attemptsUsed: nat,
    lastFailureAt: Option<Time>,
    recoveredPaise: int)

  /** Assigning to an insertion-ordered dictionary keyed by event id: the last delivery wins. */
  function Put(d: seq<Event>, e: Event): seq<Event> {
    if d == [] then [e]
    else if d[0].id == e.id then [e] + d[1..]
    else [d[0]] + Put(d[1..], e)
  }

  function Keyed(events: seq<Event>, p: Event -> bool): seq<Event> {
    if events == [] then []
    else
      var d := Keyed(events[..|events| - 1], p);
      var e := events[|events| - 1];
      if p(e) then Put(d, e) else d
  }

  function Latest(d: seq<Event>): Option<Time> {
    if d == [] then None
    else match Latest(d[1..])
      case None => Some(d[0].occurredAt)
      case Some(t) => Some(if d[0].occurredAt >= t then d[0].occurredAt else t)
  }

  function Earliest(d: seq<Event>): Event
    requires d != []
  {
    if |d| == 1 then d[0]
    else
      var rest := Earliest(d[1..]);
      if Before(rest, d[0]) then rest else d[0]
  }

  function ProjectCycle(events: seq<Event>): CycleProjection {
    var failures := Keyed(events, IsFailure);
    var successes := Keyed(events, IsSuccess);
    if successes != [] then
      var amount := Earliest(successes).amount;
      CycleProjection(Succeeded, |failures|, Latest(failures), if amount.Some? then amount.value else 0)
    else if failures != [] then
      CycleProjection(Executing, |failures|, Latest(failures), 0)
    else
      CycleProjection(Scheduled, 0, None, 0)
  }

  ghost predicate DistinctIds(d: seq<Event>) {
    forall i, j :: 0 <= i < j < |d| ==> d[i].id != d[j].id
  }

  lemma {:induction false} PutFacts(d: seq<Event>, e: Event)
    requires DistinctIds(d)
    ensures DistinctIds(Put(d, e))
    ensures forall f :: f in Put(d, e) <==> f == e || (f in d && f.id != e.id)
  {
    if d != [] && d[0].id != e.id {
      var rest := d[1..];
      PutFacts(rest, e);
      assert d == [d[0]] + rest;
      forall i | 0 <= i < |Put(rest, e)| ensures Put(rest, e)[i].id != d[0].id {
        assert Put(rest, e)[i] in Put(rest, e);
      }
    } else if d != [] {
      assert d == [d[0]] + d[1..];
    }
  }

  lemma {:induction false} KeyedFacts(events: seq<Event>, p: Event -> bool)
    requires Consistent(events)
    ensures DistinctIds(Keyed(events, p))
    ensures forall f :: f in Keyed(events, p) <==> f in events && p(f)
  {
    if events != [] {
      var init, e := events[..|events| - 1], events[|events| - 1];
      assert events == init + [e];
      KeyedFacts(init, p);
      PutFacts(Keyed(init, p), e);
    }
  }

  lemma {:induction false} KeyedEmpty(events: seq<Event>, p: Event -> bool)
    ensures Keyed(events, p) == [] <==> forall e :: e in events ==> !p(e)
  {
    if events != [] {
      var init, e := events[..|events| - 1], events[|events| - 1];
      assert events == init + [e];
      KeyedEmpty(init, p);
    }
  }

  lemma {:induction false} LatestFacts(d: seq<Event>)
    ensures Latest(d).None? <==> d == []
    ensures Latest(d).Some? ==> exists e :: e in d && e.occurredAt == Latest(d).value
    ensures Latest(d).Some? ==> forall e :: e in d ==> e.occurredAt <= Latest(d).value
  {
    if d != [] {
      LatestFacts(d[1..]);
      assert d == [d[0]] + d[1..];
      if Latest(d).value == d[0].occurredAt {
        assert d[0] in d;
      } else {
        var e :| e in d[1..] && e.occurredAt == Latest(d[1..]).value;
        assert e in d;
      }
    }
  }

  lemma {:induction false} EarliestFacts(d: seq<Event>)
    requires d != []
    ensures Earliest(d) in d
    ensures forall e :: e in d ==> Before(Earliest(d), e) || SameKey(Earliest(d), e)
  {
    assert d == [d[0]] + d[1..];
    if |d| > 1 {
      var rest := Earliest(d[1..]);
      EarliestFacts(d[1..]);
      BeforeIsTotal(rest, d[0]);
      forall e | e in d ensures Before(Earliest(d), e) || SameKey(Earliest(d), e) {
        if e != d[0] { BeforeTransitive(Earliest(d), rest, e); }
      }
    }
  }

  lemma {:induction false} SameElementsSameLength(xs: seq<Event>, ys: seq<Event>)
    requires DistinctIds(xs) && DistinctIds(ys) && SameFacts(xs, ys)
    ensures |xs| == |ys|
  {
    var sx, sy := set e | e in xs, set e | e in ys;
    DistinctCardinality(xs);
    DistinctCardinality(ys);
    assert sx == sy;
  }

  lemma {:induction false} DistinctCardinality(xs: seq<Event>)
    requires DistinctIds(xs)
    ensures |set e | e in xs| == |xs|
  {
    if xs != [] {
      var rest := xs[1..];
      DistinctCardinality(rest);
      assert xs == [xs[0]] + rest;
      ElementsCons(xs[0], rest);
      assert xs[0] !in rest;
    }
  }

  lemma ElementsCons(x: Event, rest: seq<Event>)
    ensures (set e | e in [x] + rest) == {x} + (set e | e in rest)
  {}

  /** Convergence: what a cycle projects to depends only on the set of facts, not on their delivery. */
  lemma CycleConverges(xs: seq<Event>, ys: seq<Event>)
    requires Consistent(xs) && SameFacts(xs, ys)
    ensures ProjectCycle(xs) == ProjectCycle(ys)
  {
    ConsistentFacts(xs, ys);
    KeyedFacts(xs, IsFailure);
    KeyedFacts(ys, IsFailure);
    KeyedFacts(xs, IsSuccess);
    KeyedFacts(ys, IsSuccess);
    var fx, fy := Keyed(xs, IsFailure), Keyed(ys, IsFailure);
    var sx, sy := Keyed(xs, IsSuccess), Keyed(ys, IsSuccess);
    SameElementsSameLength(fx, fy);
    SameElementsSameLength(sx, sy);
    LatestFacts(fx);
    LatestFacts(fy);
    if sx != [] {
      EarliestFacts(sx);
      EarliestFacts(sy);
      BeforeIsTotal(Earliest(sx), Earliest(sy));
      assert Earliest(sx) in xs && Earliest(sy) in xs;
    }
  }

  lemma ConsistentFacts(xs: seq<Event>, ys: seq<Event>)
    requires Consistent(xs) && SameFacts(xs, ys)
    ensures Consistent(ys)
  {
    forall i, j | 0 <= i < |ys| && 0 <= j < |ys| && ys[i].id == ys[j].id ensures ys[i] == ys[j] {
      assert ys[i] in xs && ys[j] in xs;
    }
  }

  /** The events that say money arrived. */
  const PAYMENTS: set<EventKind> := {PaymentCaptured, SubscriptionCharged, InvoicePaid}

  /** Failed payments: how many there were, each counted once, and when the newest was. */
  ghost predicate Failures(events: seq<Event>, count: nat, newest: Option<Time>) {
    && count == |set e | e in events && e.kind == PaymentFailed :: e.id|
    && (newest.Some? ==> exists e :: e in events && e.kind == PaymentFailed && newest == Some(e.occurredAt))
    && (forall e :: e in events && e.kind == PaymentFailed ==> newest.Some? && e.occurredAt <= newest.value)
  }

  lemma FailuresMeaning(events: seq<Event>)
    requires Consistent(events)
    ensures var d := Keyed(events, IsFailure);
            Failures(events, |d|, Latest(d)) && (d != [] <==> exists e :: e in events && e.kind == PaymentFailed)
  {
    var d := Keyed(events, IsFailure);
    KeyedFacts(events, IsFailure);
    KeyedEmpty(events, IsFailure);
    LatestFacts(d);
    IdCardinality(d);
    assert (set e | e in events && e.kind == PaymentFailed :: e.id) == (set e | e in d :: e.id);
  }

  /** The earliest payment, by time and then by id. */
  ghost predicate FirstPayment(events: seq<Event>, w: Event) {
    && w in events && w.kind in PAYMENTS
    && (forall e :: e in events && e.kind in PAYMENTS && e != w ==>
          w.occurredAt < e.occurredAt || (w.occurredAt == e.occurredAt && Text.Less(w.id, e.id)))
  }

  lemma PaymentsMeaning(events: seq<Event>)
    requires Consistent(events)
    ensures var d := Keyed(events, IsSuccess);
            && (d != [] <==> exists e :: e in events && e.kind in PAYMENTS)
            && (d != [] ==> FirstPayment(events, Earliest(d)))
  {
    var d := Keyed(events, IsSuccess);
    KeyedFacts(events, IsSuccess);
    KeyedEmpty(events, IsSuccess);
    if d != [] {
      EarliestFacts(d);
      forall e | e in events && e.kind in PAYMENTS && e != Earliest(d) ensures Before(Earliest(d), e) {
        assert e in d;
      }
    }
  }

  /** The reference reading of a cycle: distinct failed payments, the newest of them, the earliest payment. */
  lemma CycleMeaning(events: seq<Event>)
    requires Consistent(events)
    ensures var r := ProjectCycle(events);
            && Failures(events, r.attemptsUsed, r.lastFailureAt)
            && (r.state == Succeeded <==> exists e :: e in events && e.kind in PAYMENTS)
            && (r.state == Executing <==> r.state != Succeeded && exists e :: e in events && e.kind == PaymentFailed)
            && (r.state == Scheduled <==> r.state != Succeeded && r.state != Executing)
            && (r.state == Succeeded ==>
                  exists w :: FirstPayment(events, w) && r.recoveredPaise == if w.amount.Some? then w.amount.value else 0)
            && (r.state != Succeeded ==> r.recoveredPaise == 0)
  {
    FailuresMeaning(events);
    PaymentsMeaning(events);
  }

  lemma {:induction false} IdCardinality(d: seq<Event>)
    requires DistinctIds(d)
    ensures |set e | e in d :: e.id| == |d|
  {
    if d != [] {
      var rest := d[1..];
      IdCardinality(rest);
      assert d == [d[0]] + rest;
      IdsCons(d[0], rest);
      assert d[0].id !in (set e | e in rest :: e.id);
    }
  }

  lemma IdsCons(x: Event, rest: seq<Event>)
    ensures (set e | e in [x] + rest :: e.id) == {x.id} + (set e | e in rest :: e.id)
  {}

  /** A cycle is paid exactly when a success is on record, so more facts never unpay it. */
  lemma PaidExactlyWhen(events: seq<Event>)
    ensures ProjectCycle(events).state in CYCLE_PAID <==> exists e :: e in events && IsSuccess(e)
    ensures ProjectCycle(events).state in {Scheduled, Executing, Succeeded}
  {
    KeyedEmpty(events, IsSuccess);
  }

  // ---------------------------------------------------------------- mandates

  function MandateStep(state: MandateState, kind: EventKind): MandateState {
    match MandateEvent(kind)
    case None => state
    case Some(proposed) =>
      if proposed == state then state
      else if MandateTerminal(state) then state
      else if CanTransitionMandate(state, proposed) then proposed
      else state
  }

  function Insert(e: Event, sorted: seq<Event>): seq<Event> {
    if sorted == [] then [e]
    else if Before(e, sorted[0]) then [e] + sorted
    else [sorted[0]] + Insert(e, sorted[1..])
  }

  /** The stable sort by the ordering key. */
  function Sorted(events: seq<Event>): seq<Event> {
    if events == [] then [] else Insert(events[|events| - 1], Sorted(events[..|events| - 1]))
  }

  ghost predicate Ordered(s: seq<Event>) {
    forall i, j :: 0 <= i < j < |s| ==> Before(s[i], s[j]) || SameKey(s[i], s[j])
  }

  lemma {:induction false} InsertKeeps(e: Event, s: seq<Event>)
    ensures multiset(Insert(e, s)) == multiset(s) + multiset{e}
  {
    if s != [] && !Before(e, s[0]) {
      InsertKeeps(e, s[1..]);
      assert s == [s[0]] + s[1..];
      assert Insert(e, s) == [s[0]] + Insert(e, s[1..]);
    }
  }

  lemma {:induction false} InsertFacts(e: Event, s: seq<Event>)
    requires Ordered(s)
    ensures Ordered(Insert(e, s)) && multiset(Insert(e, s)) == multiset(s) + multiset{e}
  {
    InsertKeeps(e, s);
    if s == [] {
    } else if Before(e, s[0]) {
      forall j | 0 <= j < |s| ensures Before(e, s[j]) {
        if j > 0 { BeforeTransitive(e, s[0], s[j]); }
      }
    } else {
      var rest := Insert(e, s[1..]);
      InsertFacts(e, s[1..]);
      BeforeIsTotal(e, s[0]);
      forall j | 0 <= j < |rest| ensures Before(s[0], rest[j]) || SameKey(s[0], rest[j]) {
        assert rest[j] in multiset(rest);
        assert rest[j] in s[1..] || rest[j] == e;
      }
    }
  }

  lemma {:induction false} SortedFacts(events: seq<Event>)
    ensures Ordered(Sorted(events)) && multiset(Sorted(events)) == multiset(events)
    ensures SameFacts(Sorted(events), events) && |Sorted(events)| == |events|
  {
    if events != [] {
      var init, e := events[..|events| - 1], events[|events| - 1];
      SortedFacts(init);
      InsertFacts(e, Sorted(init));
      assert events == init + [e];
    }
    assert forall f :: f in Sorted(events) <==> f in multiset(Sorted(events));
    assert forall f :: f in events <==> f in multiset(events);
    assert |multiset(Sorted(events))| == |Sorted(events)|;
  }

  function FoldMandate(state: MandateState, ordered: seq<Event>): MandateState
    decreases ordered
  {
    if ordered == [] then state else FoldMandate(MandateStep(state, ordered[0].kind), ordered[1..])
  }

  function MandateOf(events: seq<Event>): MandateState {
    FoldMandate(Created, Sorted(events))
  }

  predicate Rejected(state: MandateState, kind: EventKind) {
    var proposed := MandateEvent(kind);
    && proposed.Some? && proposed.value != state
    && (MandateTerminal(state) || !CanTransitionMandate(state, proposed.value))
  }

  function Rejections(state: MandateState, ordered: seq<Event>): nat
    decreases ordered
  {
    if ordered == [] then 0
    else (if Rejected(state, ordered[0].kind) then 1 else 0)
         + Rejections(MandateStep(state, ordered[0].kind), ordered[1..])
  }

  /** The loop of the source over the sorted events, counting the transitions it rejects. */
  method ProjectMandate(events: seq<Event>) returns (state: MandateState, rejected: nat)
    ensures state == MandateOf(events)
    ensures rejected == Rejections(Created, Sorted(events))
  {
    state, rejected := Created, 0;
    var ordered := Sorted(events);
    for k := 0 to |ordered|
      invariant FoldMandate(state, ordered[k..]) == MandateOf(events)
      invariant rejected + Rejections(state, ordered[k..]) == Rejections(Created, ordered)
    {
      var proposed := MandateEvent(ordered[k].kind);
      assert ordered[k..] == [ordered[k]] + ordered[k + 1..];
      if proposed.None? || proposed.value == state {
      } else if MandateTerminal(state) {
        rejected := rejected + 1;
      } else if CanTransitionMandate(state, proposed.value) {
        state := proposed.value;
      } else {
        rejected := rejected + 1;
      }
    }
  }

  /** A second delivery of the same event, next in order, changes nothing. */
  lemma StepIdempotent(state: MandateState, kind: EventKind)
    ensures MandateStep(MandateStep(state, kind), kind) == MandateStep(state, kind)
  {}

  lemma {:induction false} FoldSameFacts(state: MandateState, xs: seq<Event>, ys: seq<Event>)
    requires Ordered(xs) && Ordered(ys) && Consistent(xs) && SameFacts(xs, ys)
    ensures FoldMandate(state, xs) == FoldMandate(state, ys)
    decreases |xs| + |ys|
  {
    if xs == [] {
      SomeFact(ys);
    } else {
      assert xs[0] in ys;
      assert ys[0] in xs;
      HeadsAgree(xs, ys);
      assert xs == [xs[0]] + xs[1..];
      assert ys == [ys[0]] + ys[1..];
      if |xs| > 1 && xs[1] == xs[0] {
        FoldSameFacts(state, xs[1..], ys);
        assert xs[1..] == [xs[1]] + xs[1..][1..];
        StepIdempotent(state, xs[0].kind);
      } else if |ys| > 1 && ys[1] == ys[0] {
        FoldSameFacts(state, xs, ys[1..]);
        assert ys[1..] == [ys[1]] + ys[1..][1..];
        StepIdempotent(state, ys[0].kind);
      } else {
        HeadNotRepeated(xs);
        ConsistentFacts(xs, ys);
        HeadNotRepeated(ys);
        assert SameFacts(xs[1..], ys[1..]) by {
          forall e ensures e in xs[1..] <==> e in ys[1..] {
            assert e in xs <==> e in ys;
          }
        }
        FoldSameFacts(MandateStep(state, xs[0].kind), xs[1..], ys[1..]);
      }
    }
  }

  lemma SomeFact(ys: seq<Event>)
    ensures ys != [] ==> exists e :: e in ys
  {
    if ys != [] { assert ys[0] in ys; }
  }

  lemma HeadsAgree(xs: seq<Event>, ys: seq<Event>)
    requires xs != [] && ys != []
    requires Ordered(xs) && Ordered(ys) && Consistent(xs) && SameFacts(xs, ys)
    ensures xs[0] == ys[0]
  {
    assert xs[0] in ys && ys[0] in xs;
    var i :| 0 <= i < |ys| && ys[i] == xs[0];
    var j :| 0 <= j < |xs| && xs[j] == ys[0];
    BeforeIsTotal(xs[0], ys[0]);
  }

  lemma HeadNotRepeated(xs: seq<Event>)
    requires xs != [] && Ordered(xs) && Consistent(xs)
    requires |xs| > 1 ==> xs[1] != xs[0]
    ensures xs[0] !in xs[1..]
  {
    if xs[0] in xs[1..] {
      var j :| 1 <= j < |xs| && xs[j] == xs[0];
      if j > 1 {
        assert Before(xs[1], xs[j]) || SameKey(xs[1], xs[j]);
        assert Before(xs[0], xs[1]) || SameKey(xs[0], xs[1]);
        BeforeIsTotal(xs[0], xs[1]);
      }
    }
  }

  /** Convergence for mandates: every permutation and every redelivery gives the same state. */
  lemma MandateConverges(xs: seq<Event>, ys: seq<Event>)
    requires Consistent(xs) && SameFacts(xs, ys)
    ensures MandateOf(xs) == MandateOf(ys)
  {
    SortedFacts(xs);
    SortedFacts(ys);
    ConsistentFacts(xs, Sorted(xs));
    FoldSameFacts(Created, Sorted(xs), Sorted(ys));
  }

  /**
   * No event of the vocabulary proposes re-enrolment, so a revoked mandate is as final as an expired
   * one although the transition table leaves it a way out.
   */
  lemma {:induction false} RevokedAndExpiredAbsorb(state: MandateState, ordered: seq<Event>)
    requires state == Revoked || state == Expired
    ensures FoldMandate(state, ordered) == state
    decreases ordered
  {
    if ordered != [] {
      RevokedAndExpiredAbsorb(state, ordered[1..]);
    }
  }

  lemma {:induction false} FoldSplit(state: MandateState, xs: seq<Event>, ys: seq<Event>)
    ensures FoldMandate(state, xs + ys) == FoldMandate(FoldMandate(state, xs), ys)
    decreases xs
  {
    if xs == [] {
      assert xs + ys == ys;
    } else {
      assert (xs + ys)[1..] == xs[1..] + ys;
      FoldSplit(MandateStep(state, xs[0].kind), xs[1..], ys);
    }
  }

  // ---------------------------------------------------------------- one more event, anywhere in the order

  /** The events of a log that come after `e`, or those that do not. */
  function Side(s: seq<Event>, e: Event, after: bool): seq<Event> {
    if s == [] then [] else (if Before(e, s[0]) == after then [s[0]] else []) + Side(s[1..], e, after)
  }

  lemma {:induction false} SideSnoc(s: seq<Event>, x: Event, e: Event, after: bool)
    ensures Side(s + [x], e, after) == Side(s, e, after) + (if Before(e, x) == after then [x] else [])
  {
    if s == [] {
      assert [x][1..] == [];
    } else {
      assert (s + [x])[1..] == s[1..] + [x];
      SideSnoc(s[1..], x, e, after);
    }
  }

  lemma OrderedTail(s: seq<Event>, e: Event)
    requires s != [] && Ordered(s)
    ensures Ordered(s[1..]) && (Before(e, s[0]) ==> forall f :: f in s ==> Before(e, f))
  {
    forall f | f in s && Before(e, s[0]) ensures Before(e, f) {
      if f != s[0] { BeforeTransitive(e, s[0], f); }
    }
  }

  lemma {:induction false} AllAfter(s: seq<Event>, e: Event)
    requires forall f :: f in s ==> Before(e, f)
    ensures Side(s, e, true) == s && Side(s, e, false) == []
  {
    if s != [] { AllAfter(s[1..], e); }
  }

  lemma {:induction false} InsertSide(x: Event, s: seq<Event>, e: Event, after: bool)
    requires Ordered(s)
    ensures Side(Insert(x, s), e, after) == if Before(e, x) == after then Insert(x, Side(s, e, after)) else Side(s, e, after)
  {
    if s != [] {
      OrderedTail(s, e);
      if Before(x, s[0]) {
        assert ([x] + s)[1..] == s;
        BeforeIsTotal(e, s[0]);
        BeforeIsTotal(e, x);
        if Before(e, s[0]) { AllAfter(s, e); } else { BeforeTransitive(x, s[0], e); }
      } else {
        InsertSide(x, s[1..], e, after);
        assert ([s[0]] + Insert(x, s[1..]))[1..] == Insert(x, s[1..]);
        BeforeIsTotal(x, s[0]);
        BeforeIsTotal(e, x);
        BeforeIsTotal(e, s[0]);
        if Before(e, s[0]) { BeforeTransitive(e, s[0], x); }
        var rest, side := Insert(x, s[1..]), Side(s[1..], e, after);
        assert ([s[0]] + side)[1..] == side && [] + side == side && [] + Insert(x, side) == Insert(x, side);
        assert Side(Insert(x, s), e, after) == (if Before(e, s[0]) == after then [s[0]] else []) + Side(rest, e, after);
        if Before(e, s[0]) == after { assert Insert(x, [s[0]] + side) == [s[0]] + Insert(x, side); }
      }
    }
  }

  lemma {:induction false} SortedSide(log: seq<Event>, e: Event, after: bool)
    ensures Sorted(Side(log, e, after)) == Side(Sorted(log), e, after)
  {
    if log != [] {
      var init, x := log[..|log| - 1], log[|log| - 1];
      assert log == init + [x];
      SideSnoc(init, x, e, after);
      SortedSide(init, e, after);
      SortedFacts(init);
      InsertSide(x, Sorted(init), e, after);
      var side := Side(init, e, after);
      assert (side + [x])[..|side|] == side;
      assert side + [] == side;
    }
  }

  lemma {:induction false} InsertBetween(e: Event, s: seq<Event>)
    requires Ordered(s)
    ensures s == Side(s, e, false) + Side(s, e, true)
    ensures Insert(e, s) == Side(s, e, false) + [e] + Side(s, e, true)
  {
    if s != [] {
      OrderedTail(s, e);
      if Before(e, s[0]) { AllAfter(s, e); } else { InsertBetween(e, s[1..]); }
    }
  }

  /** What one more event does, wherever it falls: it is one more step between what comes before and after it. */
  lemma OneMoreEvent(log: seq<Event>, e: Event)
    ensures var earlier, later := MandateOf(Side(log, e, false)), Sorted(Side(log, e, true));
            && MandateOf(log) == FoldMandate(earlier, later)
            && MandateOf(log + [e]) == FoldMandate(MandateStep(earlier, e.kind), later)
  {
    var s := Sorted(log);
    var a, b := Side(s, e, false), Side(s, e, true);
    SortedFacts(log);
    SortedSide(log, e, false);
    SortedSide(log, e, true);
    InsertBetween(e, s);
    assert (log + [e])[..|log|] == log;
    FoldSplit(Created, a, b);
    FoldSplit(Created, a + [e], b);
    FoldSplit(Created, a, [e]);
    assert [e][1..] == [];
    assert FoldMandate(FoldMandate(Created, a), [e]) == FoldMandate(MandateStep(FoldMandate(Created, a), e.kind), []);
  }

  predicate Ended(s: MandateState) { s == Revoked || s == Expired }

  /** Exactly when a log ends a mandate: it holds a completion, or a cancellation that finds it at risk. */
  lemma {:induction false} EndsExactly(s: MandateState, ordered: seq<Event>)
    ensures Ended(FoldMandate(s, ordered)) <==>
              || Ended(s) || (exists i :: 0 <= i < |ordered| && ordered[i].kind.SubscriptionCompleted?)
              || exists i :: 0 <= i < |ordered| && ordered[i].kind.SubscriptionCancelled? && FoldMandate(s, ordered[..i]) == AtRisk
    decreases ordered
  {
    if Ended(s) {
      RevokedAndExpiredAbsorb(s, ordered);
    } else if ordered != [] {
      var t := MandateStep(s, ordered[0].kind);
      EndsExactly(t, ordered[1..]);
      forall i | 0 < i <= |ordered| ensures FoldMandate(s, ordered[..i]) == FoldMandate(t, ordered[1..][..i - 1]) {
        assert ordered[..i][1..] == ordered[1..][..i - 1];
      }
      assert ordered[..0] == [];
      assert forall i :: 0 <= i < |ordered[1..]| ==> ordered[1..][i] == ordered[i + 1];
      assert forall i :: 0 < i < |ordered| ==> ordered[i] == ordered[1..][i - 1];
    }
  }

  /** An event cannot undo an end that the events before it had already reached. */
  lemma EndedBeforeStays(log: seq<Event>, e: Event)
    requires Ended(MandateOf(Side(log, e, false)))
    ensures MandateOf(log + [e]) == MandateOf(log) == MandateOf(Side(log, e, false))
  {
    var earlier, later := MandateOf(Side(log, e, false)), Sorted(Side(log, e, true));
    OneMoreEvent(log, e);
    EndsAt(earlier, e.kind);
    RevokedAndExpiredAbsorb(earlier, later);
  }

  /**
   * Exactly when an event brings an ended mandate back: before it the mandate had not ended, the event does not
   * itself end it, nothing after it is a completion, and no cancellation after it still finds the mandate at risk.
   */
  lemma RevivesExactly(log: seq<Event>, e: Event)
    requires Ended(MandateOf(log))
    ensures var earlier, later := MandateOf(Side(log, e, false)), Sorted(Side(log, e, true));
            var here := MandateStep(earlier, e.kind);
            !Ended(MandateOf(log + [e])) <==>
              && !Ended(earlier) && !e.kind.SubscriptionCompleted? && !(e.kind.SubscriptionCancelled? && earlier == AtRisk)
              && (forall i :: 0 <= i < |later| ==> !later[i].kind.SubscriptionCompleted?)
              && forall i :: 0 <= i < |later| && later[i].kind.SubscriptionCancelled? ==> FoldMandate(here, later[..i]) != AtRisk
  {
    var earlier, later := MandateOf(Side(log, e, false)), Sorted(Side(log, e, true));
    OneMoreEvent(log, e);
    EndsExactly(MandateStep(earlier, e.kind), later);
    EndsAt(earlier, e.kind);
  }

  lemma EndsAt(s: MandateState, kind: EventKind)
    ensures Ended(MandateStep(s, kind)) <==>
              Ended(s) || kind.SubscriptionCompleted? || (kind.SubscriptionCancelled? && s == AtRisk)
    ensures Ended(s) ==> MandateStep(s, kind) == s
  {}

  /** So a completion is final wherever it falls and whatever arrives: only a cancellation can be undone. */
  lemma CompletionIsFinal(log: seq<Event>, e: Event)
    requires e in log && e.kind.SubscriptionCompleted?
    ensures Ended(MandateOf(log))
    ensures forall f :: Ended(MandateOf(log + [f]))
  {
    CompletedEnds(log, e);
    forall f ensures Ended(MandateOf(log + [f])) { CompletedEnds(log + [f], e); }
  }

  lemma CompletedEnds(log: seq<Event>, e: Event)
    requires e in log && e.kind.SubscriptionCompleted?
    ensures Ended(MandateOf(log))
  {
    SortedFacts(log);
    EndsExactly(Created, Sorted(log));
    assert e in Sorted(log);
  }

  /** A late event can: the same log with one resumption that happened before the cancellation. */
  lemma LateEventRevivesRevoked()
    ensures exists log: seq<Event>, late: Event ::
              MandateOf(log) == Revoked && MandateOf(log + [late]) == Active
  {
    var a := Event("a", SubscriptionAuthenticated, None, None, 1, None, None);
    var h := Event("b", SubscriptionHalted, None, None, 2, None, None);
    var c := Event("c", SubscriptionCancelled, None, None, 4, None, None);
    var late := Event("d", SubscriptionResumed, None, None, 3, None, None);
    var log := [a, h, c];
    assert (log + [late])[..3] == log;
    SortedThree(a, h, c);
    assert Insert(late, log) == [a, h, late, c] by {
      assert Insert(late, log) == [a] + Insert(late, [h, c]);
      assert [h, c][1..] == [c];
      assert Insert(late, [h, c]) == [h] + Insert(late, [c]);
    }
    FoldFour(a, h, late, c);
    assert log[1..] == [h, c] && [h, c][1..] == [c] && [c][1..] == [];
    assert FoldMandate(Created, log) == FoldMandate(Active, [h, c]);
    assert FoldMandate(Active, [h, c]) == FoldMandate(AtRisk, [c]);
    assert FoldMandate(AtRisk, [c]) == FoldMandate(Revoked, []);
  }

  lemma SortedThree(a: Event, b: Event, c: Event)
    requires Before(a, b) && Before(a, c) && Before(b, c)
    ensures Sorted([a, b, c]) == [a, b, c]
  {
    BeforeIsTotal(a, b);
    BeforeIsTotal(a, c);
    BeforeIsTotal(b, c);
    assert [a][..0] == [] && [a, b][..1] == [a] && [a, b, c][..2] == [a, b];
    assert Sorted([a]) == [a];
    assert Insert(b, [a]) == [a] + Insert(b, []);
    assert [a, b][1..] == [b];
    assert Insert(c, [a, b]) == [a] + Insert(c, [b]);
    assert Insert(c, [b]) == [b] + Insert(c, []);
  }

  lemma FoldFour(a: Event, b: Event, c: Event, d: Event)
    ensures FoldMandate(Created, [a, b, c, d]) ==
            MandateStep(MandateStep(MandateStep(MandateStep(Created, a.kind), b.kind), c.kind), d.kind)
  {
    assert [a, b, c, d][1..] == [b, c, d] && [b, c, d][1..] == [c, d] && [c, d][1..] == [d] && [d][1..] == [];
    assert FoldMandate(Created, [a, b, c, d]) == FoldMandate(MandateStep(Created, a.kind), [b, c, d]);
    assert FoldMandate(MandateStep(Created, a.kind), [b, c, d]) ==
           FoldMandate(MandateStep(MandateStep(Created, a.kind), b.kind), [c, d]);
    var s := MandateStep(MandateStep(Created, a.kind), b.kind);
    assert FoldMandate(s, [c, d]) == FoldMandate(MandateStep(s, c.kind), [d]);
    assert FoldMandate(MandateStep(s, c.kind), [d]) == FoldMandate(MandateStep(MandateStep(s, c.kind), d.kind), []);
  }

  /** A cancellation that reaches an active mandate is rejected: only an at-risk one can be revoked. */
  lemma CancellationNeedsAtRisk(state: MandateState)
    ensures MandateStep(state, SubscriptionCancelled) == Revoked <==> state == AtRisk || state == Revoked
  {}
}
