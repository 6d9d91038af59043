/** Writing projected state into the tables (prayas/ingest/projector.py). */
module Projector {
  import opened Common
  import opened States
  import opened Projection
  import opened Tables
  import Text

  /** Every rail's budget: one execution and three retries. */
  const ATTEMPT_BUDGET: nat := 4

  // ---------------------------------------------------------------- reading the log

  function OfMandate(log: seq<Event>, m: MandateId): seq<Event> {
    if log == [] then []
    else
      var init := OfMandate(log[..|log| - 1], m);
      if log[|log| - 1].mandate == Some(m) then init + [log[|log| - 1]] else init
  }

  function ForCycle(events: seq<Event>, ref: CycleId): seq<Event> {
    if events == [] then []
    else
      var init := ForCycle(events[..|events| - 1], ref);
      if events[|events| - 1].cycleRef == Some(ref) then init + [events[|events| - 1]] else init
  }

  function InsertRef(ref: CycleId, refs: seq<CycleId>): seq<CycleId> {
    if refs == [] then [ref]
    else if ref == refs[0] then refs
    else if Text.Less(ref, refs[0]) then [ref] + refs
    else [refs[0]] + InsertRef(ref, refs[1..])
  }

  /** The cycle references the events name, each once, in the order the projector visits them. */
  function SortedRefs(events: seq<Event>): seq<CycleId> {
    if events == [] then []
    else
      var init := SortedRefs(events[..|events| - 1]);
      var ref := events[|events| - 1].cycleRef;
      if ref.Some? then InsertRef(ref.value, init) else init
  }

  ghost predicate Names(events: seq<Event>, ref: CycleId) {
    exists e :: e in events && e.cycleRef == Some(ref)
  }

  function Billing(ordered: seq<Event>): Option<Time> {
    if ordered == [] then None
    else if ordered[0].nextBilling.Some? then ordered[0].nextBilling
    else Billing(ordered[1..])
  }

  function FirstAmount(ordered: seq<Event>): int {
    if ordered == [] then 0
    else if ordered[0].amount.Some? && ordered[0].amount.value != 0 then ordered[0].amount.value
    else FirstAmount(ordered[1..])
  }

  /** A deadline can be resolved exactly when some event carries a billing date. */
  ghost predicate Dated(events: seq<Event>) {
    exists e :: e in events && e.nextBilling.Some?
  }

  // ---------------------------------------------------------------- writing rows

  lemma {:induction false} GreatestExists(s: set<nat>)
    requires s != {}
    ensures exists m :: m in s && forall y :: y in s ==> y <= m
  {
    var x :| x in s;
    if s - {x} != {} {
      GreatestExists(s - {x});
      var m :| m in s - {x} && forall y :: y in s - {x} ==> y <= m;
      var g := if x <= m then m else x;
      forall y | y in s ensures y <= g {
        if y != x { assert y in s - {x}; }
      }
      assert g in s;
    } else {
      assert s == {x};
    }
  }

  function Greatest(s: set<nat>): (m: nat)
    ensures s == {} ==> m == 0
    ensures s != {} ==> m in s
    ensures forall y :: y in s ==> y <= m
  {
    if s == {} then 0
    else
      GreatestExists(s);
      var m :| m in s && forall y :: y in s ==> y <= m;
      m
  }

  function CyclesOf(cycles: map<CycleId, Cycle>, m: MandateId): set<CycleId> {
    set c | c in cycles && cycles[c].mandate == m
  }

  function NextSeq(cycles: map<CycleId, Cycle>, m: MandateId): nat {
    Greatest(set c | c in CyclesOf(cycles, m) :: cycles[c].seqNo) + 1
  }

  /** What the conflict clause recomputes; every other column keeps its first value. */
  function Recomputed(row: Cycle, p: CycleProjection): Cycle {
    row.(state := p.state, used := p.attemptsUsed, lastFailure := p.lastFailureAt, recovered := p.recoveredPaise)
  }

  /**
   * One INSERT ... ON CONFLICT (cycle_id) DO UPDATE. `None` is the CHECK on attempts_used failing,
   * which rolls the projector's transaction back. Without a billing date nothing is written.
   */
  function UpsertCycle(cycles: map<CycleId, Cycle>, ref: CycleId, m: MandateId, events: seq<Event>)
    : Option<map<CycleId, Cycle>>
    requires events != []
  {
    var p := ProjectCycle(events);
    SortedFacts(events);
    var ordered := Sorted(events);
    var deadline := Billing(ordered);
    if deadline.None? then Some(cycles)
    else if p.attemptsUsed > ATTEMPT_BUDGET then None
    else if ref in cycles then
      if p.attemptsUsed > cycles[ref].budget then None
      else Some(cycles[ref := Recomputed(cycles[ref], p)])
    else
      var row := Cycle(m, NextSeq(cycles, m), FirstAmount(ordered), ordered[0].occurredAt, deadline.value,
                       ATTEMPT_BUDGET, 0, Scheduled, None, None, 0);
      Some(cycles[ref := Recomputed(row, p)])
  }

  /** The late-capture guard: only what is still pending is cancelled. */
  function CancelPending(actions: map<ActionId, Action>, ref: CycleId): map<ActionId, Action> {
    map id | id in actions ::
      if actions[id].cycle == Some(ref) && actions[id].state == ActionPending
      then actions[id].(state := ActionCancelled)
      else actions[id]
  }

  datatype Written = Written(cycles: map<CycleId, Cycle>, actions: map<ActionId, Action>)

  function WriteCycles(w: Written, m: MandateId, events: seq<Event>, refs: seq<CycleId>): Option<Written>
    requires forall i :: 0 <= i < |refs| ==> ForCycle(events, refs[i]) != []
    decreases |refs|
  {
    if refs == [] then Some(w)
    else
      var mine := ForCycle(events, refs[0]);
      var cycles := UpsertCycle(w.cycles, refs[0], m, mine);
      if cycles.None? then None
      else
        var actions := if ProjectCycle(mine).state in CYCLE_PAID then CancelPending(w.actions, refs[0]) else w.actions;
        WriteCycles(Written(cycles.value, actions), m, events, refs[1..])
  }

  /** Projecting one known mandate from the events read under its lock. */
  function ApplyMandate(db: Db, m: MandateId, events: seq<Event>): Option<Db> {
    if events == [] then Some(db)
    else
      RefsAreNamed(events);
      var written := WriteCycles(Written(db.cycles, db.actions), m, events, SortedRefs(events));
      if written.None? then None
      else Some(db.(mandates := db.mandates[m := MandateOf(events)],
                    cycles := written.value.cycles, actions := written.value.actions))
  }

  lemma WriteNext(w: Written, m: MandateId, events: seq<Event>, refs: seq<CycleId>, k: nat)
    requires k < |refs| && forall i :: 0 <= i < |refs| ==> ForCycle(events, refs[i]) != []
    ensures var mine := ForCycle(events, refs[k]);
            var cycles := UpsertCycle(w.cycles, refs[k], m, mine);
            WriteCycles(w, m, events, refs[k..]) ==
              if cycles.None? then None
              else WriteCycles(
                     Written(cycles.value, if ProjectCycle(mine).state in CYCLE_PAID then CancelPending(w.actions, refs[k]) else w.actions),
                     m, events, refs[k + 1..])
  {
    assert refs[k..] == [refs[k]] + refs[k + 1..];
  }

  /** The projector's own loop. `ok` is false when the schema aborts the transaction. */
  method ProjectOneMandate(conn: TenantDb, m: MandateId, log: seq<Event>) returns (ok: bool)
    modifies conn
    ensures m !in old(conn.mandates) ==> ok && conn.Snapshot() == old(conn.Snapshot())
    ensures m in old(conn.mandates) ==>
              var r := ApplyMandate(old(conn.Snapshot()), m, OfMandate(log, m));
              ok == r.Some? && conn.Snapshot() == if r.Some? then r.value else old(conn.Snapshot())
  {
    if m !in conn.mandates { return true; }
    var events := OfMandate(log, m);
    if events == [] { return true; }
    var mandates, cycles, actions := conn.mandates, conn.cycles, conn.actions;
    var state, _ := ProjectMandate(events);
    conn.mandates := conn.mandates[m := state];
    RefsAreNamed(events);
    var refs := SortedRefs(events);
    ghost var whole := WriteCycles(Written(cycles, actions), m, events, refs);
    for k := 0 to |refs|
      invariant conn.mandates == mandates[m := state]
      invariant conn.attempts == old(conn.attempts) && conn.outbox == old(conn.outbox)
      invariant conn.decisions == old(conn.decisions) && conn.interventions == old(conn.interventions)
      invariant WriteCycles(Written(conn.cycles, conn.actions), m, events, refs[k..]) == whole
    {
      WriteNext(Written(conn.cycles, conn.actions), m, events, refs, k);
      var mine := ForCycle(events, refs[k]);
      var upserted := UpsertCycle(conn.cycles, refs[k], m, mine);
      if upserted.None? {
        conn.mandates, conn.cycles, conn.actions := mandates, cycles, actions;
        return false;
      }
      conn.cycles := upserted.value;
      if ProjectCycle(mine).state in CYCLE_PAID {
        conn.actions := CancelPending(conn.actions, refs[k]);
      }
    }
    return true;
  }

  // ---------------------------------------------------------------- facts about reading

  lemma {:induction false} OfMandateFacts(log: seq<Event>, m: MandateId)
    ensures forall e :: e in OfMandate(log, m) <==> e in log && e.mandate == Some(m)
  {
    if log != [] {
      OfMandateFacts(log[..|log| - 1], m);
      assert log == log[..|log| - 1] + [log[|log| - 1]];
    }
  }

  /** What one more event does to the three readings of a log. */
  lemma ReadingSnoc(log: seq<Event>, x: Event, m: MandateId, ref: CycleId)
    ensures OfMandate(log + [x], m) == OfMandate(log, m) + if x.mandate == Some(m) then [x] else []
    ensures ForCycle(log + [x], ref) == ForCycle(log, ref) + if x.cycleRef == Some(ref) then [x] else []
    ensures SortedRefs(log + [x]) == if x.cycleRef.Some? then InsertRef(x.cycleRef.value, SortedRefs(log)) else SortedRefs(log)
  {
    assert (log + [x])[..|log|] == log;
  }

  lemma PrefixContains(log: seq<Event>, n: nat, i: nat, m: MandateId)
    requires i < n <= |log| && log[i].mandate == Some(m)
    ensures log[i] in OfMandate(log[..n], m)
  {
    OfMandateFacts(log[..n], m);
    assert log[..n][i] == log[i];
  }

  lemma {:induction false} ForCycleFacts(events: seq<Event>, ref: CycleId)
    ensures forall e :: e in ForCycle(events, ref) <==> e in events && e.cycleRef == Some(ref)
  {
    if events != [] {
      ForCycleFacts(events[..|events| - 1], ref);
      assert events == events[..|events| - 1] + [events[|events| - 1]];
    }
  }

  lemma {:induction false} InsertRefFacts(ref: CycleId, refs: seq<CycleId>)
    requires Text.Ascending(refs)
    ensures Text.Ascending(InsertRef(ref, refs))
    ensures forall r :: r in InsertRef(ref, refs) <==> r == ref || r in refs
  {
    if refs != [] {
      assert refs == [refs[0]] + refs[1..];
      Text.LessTrichotomy(ref, refs[0]);
      if Text.Less(ref, refs[0]) {
        forall j | 0 < j < |refs| ensures Text.Less(ref, refs[j]) {
          Text.LessTransitive(ref, refs[0], refs[j]);
        }
      } else if ref != refs[0] {
        var rest := InsertRef(ref, refs[1..]);
        InsertRefFacts(ref, refs[1..]);
        forall j | 0 <= j < |rest| ensures Text.Less(refs[0], rest[j]) {
          assert rest[j] in rest;
        }
      }
    }
  }

  lemma {:induction false} SortedRefsFacts(events: seq<Event>)
    ensures Text.Ascending(SortedRefs(events))
    ensures forall r :: r in SortedRefs(events) <==> Names(events, r)
  {
    if events != [] {
      var init, e := events[..|events| - 1], events[|events| - 1];
      assert events == init + [e];
      SortedRefsFacts(init);
      forall r ensures Names(events, r) <==> Names(init, r) || e.cycleRef == Some(r) {
        if e.cycleRef == Some(r) { assert e in events; }
      }
      if e.cycleRef.Some? { InsertRefFacts(e.cycleRef.value, SortedRefs(init)); }
    }
  }

  lemma RefsAreNamed(events: seq<Event>)
    ensures forall i :: 0 <= i < |SortedRefs(events)| ==> ForCycle(events, SortedRefs(events)[i]) != []
  {
    SortedRefsFacts(events);
    forall i | 0 <= i < |SortedRefs(events)| ensures ForCycle(events, SortedRefs(events)[i]) != [] {
      var r := SortedRefs(events)[i];
      ForCycleFacts(events, r);
      assert r in SortedRefs(events) && Names(events, r);
      var e :| e in events && e.cycleRef == Some(r);
      assert e in ForCycle(events, r);
    }
  }

  lemma {:induction false} BillingFacts(ordered: seq<Event>)
    ensures Billing(ordered).Some? <==> Dated(ordered)
  {
    if ordered != [] {
      assert ordered == [ordered[0]] + ordered[1..];
      BillingFacts(ordered[1..]);
      if ordered[0].nextBilling.Some? { assert ordered[0] in ordered; }
    }
  }

  lemma DatedSorted(events: seq<Event>)
    ensures Billing(Sorted(events)).Some? <==> Dated(events)
  {
    SortedFacts(events);
    BillingFacts(Sorted(events));
  }

  // ---------------------------------------------------------------- facts about writing

  /** The stored row says what the events project to, in the three columns no other writer touches. */
  predicate Matches(row: Cycle, p: CycleProjection) {
    row.state == p.state && row.lastFailure == p.lastFailureAt && row.recovered == p.recoveredPaise
  }

  predicate SameIdentity(a: Cycle, b: Cycle) {
    && a.mandate == b.mandate && a.seqNo == b.seqNo && a.amount == b.amount && a.dueAt == b.dueAt
    && a.deadline == b.deadline && a.budget == b.budget && a.pdnSentAt == b.pdnSentAt
  }

  /** What rewriting the rows of `refs` from `events` may do to the cycles table. */
  ghost predicate Rewrites(
    before: map<CycleId, Cycle>, after: map<CycleId, Cycle>, m: MandateId, events: seq<Event>, refs: seq<CycleId>)
  {
    && (forall c :: c in before ==> c in after && SameIdentity(after[c], before[c]))
    && (forall c :: c in after && c !in before ==> c in refs && after[c].mandate == m && after[c].budget == ATTEMPT_BUDGET)
    && (forall c :: c in before && !(c in refs && Dated(ForCycle(events, c))) ==> after[c] == before[c])
    && (forall c :: c in after && c !in before ==> Dated(ForCycle(events, c)))
    && (forall c :: c in refs && Dated(ForCycle(events, c)) ==>
          && c in after && Matches(after[c], ProjectCycle(ForCycle(events, c)))
          && after[c].used == ProjectCycle(ForCycle(events, c)).attemptsUsed <= after[c].budget)
  }

  lemma UpsertShape(cycles: map<CycleId, Cycle>, ref: CycleId, m: MandateId, events: seq<Event>)
    requires events != [] && UpsertCycle(cycles, ref, m, events).Some?
    ensures var r := UpsertCycle(cycles, ref, m, events).value;
            if !Dated(events) then r == cycles
            else
              && ref in r && r == cycles[ref := r[ref]]
              && Matches(r[ref], ProjectCycle(events))
              && r[ref].used == ProjectCycle(events).attemptsUsed <= r[ref].budget
              && (ref in cycles ==> SameIdentity(r[ref], cycles[ref]))
              && (ref !in cycles ==> r[ref].mandate == m && r[ref].budget == ATTEMPT_BUDGET)
  {
    DatedSorted(events);
  }

  lemma UpsertRewrites(cycles: map<CycleId, Cycle>, ref: CycleId, m: MandateId, events: seq<Event>)
    requires ForCycle(events, ref) != [] && UpsertCycle(cycles, ref, m, ForCycle(events, ref)).Some?
    ensures Rewrites(cycles, UpsertCycle(cycles, ref, m, ForCycle(events, ref)).value, m, events, [ref])
  {
    UpsertShape(cycles, ref, m, ForCycle(events, ref));
    RowRewrites(cycles, UpsertCycle(cycles, ref, m, ForCycle(events, ref)).value, m, events, ref);
  }

  lemma RowRewrites(
    cycles: map<CycleId, Cycle>, r: map<CycleId, Cycle>, m: MandateId, events: seq<Event>, ref: CycleId)
    requires if !Dated(ForCycle(events, ref)) then r == cycles
             else
               && ref in r && r == cycles[ref := r[ref]]
               && Matches(r[ref], ProjectCycle(ForCycle(events, ref)))
               && r[ref].used == ProjectCycle(ForCycle(events, ref)).attemptsUsed <= r[ref].budget
               && (ref in cycles ==> SameIdentity(r[ref], cycles[ref]))
               && (ref !in cycles ==> r[ref].mandate == m && r[ref].budget == ATTEMPT_BUDGET)
    ensures Rewrites(cycles, r, m, events, [ref])
  {}

  lemma RewritesCompose(
    a: map<CycleId, Cycle>, b: map<CycleId, Cycle>, c: map<CycleId, Cycle>,
    m: MandateId, events: seq<Event>, ref: CycleId, refs: seq<CycleId>)
    requires Rewrites(a, b, m, events, [ref]) && Rewrites(b, c, m, events, refs) && ref !in refs
    ensures Rewrites(a, c, m, events, [ref] + refs)
  {}

  lemma {:induction false} WriteCyclesFacts(w: Written, m: MandateId, events: seq<Event>, refs: seq<CycleId>)
    requires forall i :: 0 <= i < |refs| ==> ForCycle(events, refs[i]) != []
    requires Text.Ascending(refs)
    requires WriteCycles(w, m, events, refs).Some?
    ensures Rewrites(w.cycles, WriteCycles(w, m, events, refs).value.cycles, m, events, refs)
    decreases |refs|
  {
    if refs != [] {
      var mine := ForCycle(events, refs[0]);
      var cycles := UpsertCycle(w.cycles, refs[0], m, mine).value;
      var actions := if ProjectCycle(mine).state in CYCLE_PAID then CancelPending(w.actions, refs[0]) else w.actions;
      assert refs == [refs[0]] + refs[1..];
      Text.LessIrreflexive(refs[0]);
      assert refs[0] !in refs[1..];
      UpsertRewrites(w.cycles, refs[0], m, events);
      var rest := Written(cycles, actions);
      WriteCyclesFacts(rest, m, events, refs[1..]);
      RewritesCompose(w.cycles, cycles, WriteCycles(rest, m, events, refs[1..]).value.cycles, m, events, refs[0], refs[1..]);
    }
  }

  lemma {:induction false} WriteCyclesActions(w: Written, m: MandateId, events: seq<Event>, refs: seq<CycleId>)
    requires forall i :: 0 <= i < |refs| ==> ForCycle(events, refs[i]) != []
    requires WriteCycles(w, m, events, refs).Some?
    ensures var r := WriteCycles(w, m, events, refs).value.actions;
            && r.Keys == w.actions.Keys
            && forall id :: id in r ==>
                 r[id] == w.actions[id] ||
                 (w.actions[id].state == ActionPending && r[id] == w.actions[id].(state := ActionCancelled))
    decreases |refs|
  {
    if refs != [] {
      var mine := ForCycle(events, refs[0]);
      var cycles := UpsertCycle(w.cycles, refs[0], m, mine).value;
      var actions := if ProjectCycle(mine).state in CYCLE_PAID then CancelPending(w.actions, refs[0]) else w.actions;
      WriteCyclesActions(Written(cycles, actions), m, events, refs[1..]);
    }
  }

  /** Some event that names the cycle is a success. */
  ghost predicate PaidFor(events: seq<Event>, c: CycleId) {
    exists e :: e in events && e.cycleRef == Some(c) && IsSuccess(e)
  }

  /** Still to happen, and for one of these cycles. */
  ghost predicate PendingFor(a: Action, refs: seq<CycleId>, events: seq<Event>) {
    a.state == ActionPending && a.cycle.Some? && a.cycle.value in refs && PaidFor(events, a.cycle.value)
  }

  lemma CancelsOne(actions: map<ActionId, Action>, events: seq<Event>, ref: CycleId, r: map<ActionId, Action>)
    requires r == if ProjectCycle(ForCycle(events, ref)).state in CYCLE_PAID then CancelPending(actions, ref) else actions
    ensures r.Keys == actions.Keys
    ensures forall id :: id in r ==>
              r[id] == if PendingFor(actions[id], [ref], events) then actions[id].(state := ActionCancelled) else actions[id]
  {
    ForCycleFacts(events, ref);
    PaidExactlyWhen(ForCycle(events, ref));
    assert ProjectCycle(ForCycle(events, ref)).state in CYCLE_PAID <==> PaidFor(events, ref);
  }

  lemma {:induction false} WriteCyclesCancels(w: Written, m: MandateId, events: seq<Event>, refs: seq<CycleId>)
    requires forall i :: 0 <= i < |refs| ==> ForCycle(events, refs[i]) != []
    requires WriteCycles(w, m, events, refs).Some?
    ensures var r := WriteCycles(w, m, events, refs).value.actions;
            && r.Keys == w.actions.Keys
            && forall id :: id in r ==>
                 r[id] == if PendingFor(w.actions[id], refs, events) then w.actions[id].(state := ActionCancelled)
                          else w.actions[id]
    decreases |refs|
  {
    if refs != [] {
      var mine := ForCycle(events, refs[0]);
      var cycles := UpsertCycle(w.cycles, refs[0], m, mine).value;
      var actions := if ProjectCycle(mine).state in CYCLE_PAID then CancelPending(w.actions, refs[0]) else w.actions;
      CancelsOne(w.actions, events, refs[0], actions);
      WriteCyclesCancels(Written(cycles, actions), m, events, refs[1..]);
      assert refs == [refs[0]] + refs[1..];
    }
  }

  /**
   * The late-capture guard: a projection cancels exactly the actions that are still pending for a cycle its events
   * name with a success, and leaves every other action as it was.
   */
  lemma CancelsExactly(db: Db, m: MandateId, events: seq<Event>)
    requires ApplyMandate(db, m, events).Some?
    ensures var r := ApplyMandate(db, m, events).value;
            && r.actions.Keys == db.actions.Keys
            && forall id :: id in db.actions ==>
                 var a := db.actions[id];
                 if a.state == ActionPending && a.cycle.Some? && exists e :: e in events && e.cycleRef == a.cycle && IsSuccess(e)
                 then r.actions[id] == a.(state := ActionCancelled)
                 else r.actions[id] == a
  {
    if events != [] {
      var refs := SortedRefs(events);
      RefsAreNamed(events);
      SortedRefsFacts(events);
      WriteCyclesCancels(Written(db.cycles, db.actions), m, events, refs);
      forall id | id in db.actions && db.actions[id].cycle.Some?
        ensures PendingFor(db.actions[id], refs, events) <==>
                db.actions[id].state == ActionPending && PaidFor(events, db.actions[id].cycle.value)
      {
        if PaidFor(events, db.actions[id].cycle.value) { assert Names(events, db.actions[id].cycle.value); }
      }
    }
  }

  // ---------------------------------------------------------------- a cycle's first row

  /** No event of `s` that satisfies `p` comes before `e` in the total order. */
  ghost predicate FirstOf(s: seq<Event>, e: Event, p: Event -> bool) {
    e in s && p(e) && forall f :: f in s && p(f) ==> Before(e, f) || SameKey(e, f)
  }

  predicate Priced(e: Event) { e.amount.Some? && e.amount.value != 0 }

  predicate Billed(e: Event) { e.nextBilling.Some? }

  /** What a new row takes from its events: the earliest instant, and the first price and billing date in their order. */
  ghost predicate FirstColumns(row: Cycle, events: seq<Event>) {
    && (exists e :: e in events && row.dueAt == e.occurredAt)
    && (forall e :: e in events ==> row.dueAt <= e.occurredAt)
    && (exists e :: FirstOf(events, e, Billed) && Some(row.deadline) == e.nextBilling)
    && (if exists e :: e in events && Priced(e)
        then exists e :: FirstOf(events, e, Priced) && Some(row.amount) == e.amount
        else row.amount == 0)
    && row.pdnSentAt.None? && row.budget == ATTEMPT_BUDGET
  }

  lemma {:induction false} FirstBilled(ordered: seq<Event>)
    requires Ordered(ordered) && Billing(ordered).Some?
    ensures exists e :: FirstOf(ordered, e, Billed) && e.nextBilling == Billing(ordered)
  {
    assert ordered == [ordered[0]] + ordered[1..];
    if !Billed(ordered[0]) {
      FirstBilled(ordered[1..]);
      var e :| FirstOf(ordered[1..], e, Billed) && e.nextBilling == Billing(ordered[1..]);
      assert FirstOf(ordered, e, Billed);
    } else {
      HeadIsFirst(ordered, Billed);
    }
  }

  lemma HeadIsFirst(ordered: seq<Event>, p: Event -> bool)
    requires ordered != [] && Ordered(ordered) && p(ordered[0])
    ensures FirstOf(ordered, ordered[0], p)
  {
    forall f | f in ordered && p(f) ensures Before(ordered[0], f) || SameKey(ordered[0], f) {
      var i :| 0 <= i < |ordered| && ordered[i] == f;
      assert i > 0 ==> Before(ordered[0], ordered[i]) || SameKey(ordered[0], ordered[i]);
    }
  }

  lemma {:induction false} FirstPriced(ordered: seq<Event>)
    requires Ordered(ordered)
    ensures if exists e :: e in ordered && Priced(e)
            then exists e :: FirstOf(ordered, e, Priced) && e.amount == Some(FirstAmount(ordered))
            else FirstAmount(ordered) == 0
  {
    if ordered != [] {
      assert ordered == [ordered[0]] + ordered[1..];
      if Priced(ordered[0]) {
        HeadIsFirst(ordered, Priced);
      } else {
        FirstPriced(ordered[1..]);
        if e :| e in ordered && Priced(e) {
          assert e in ordered[1..];
          var g :| FirstOf(ordered[1..], g, Priced) && g.amount == Some(FirstAmount(ordered[1..]));
          assert FirstOf(ordered, g, Priced);
        }
      }
    }
  }

  lemma FirstOfSorted(events: seq<Event>, e: Event, p: Event -> bool)
    requires FirstOf(Sorted(events), e, p)
    ensures FirstOf(events, e, p)
  {
    SortedFacts(events);
  }

  lemma NewRowColumns(cycles: map<CycleId, Cycle>, ref: CycleId, m: MandateId, events: seq<Event>)
    requires events != [] && Dated(events) && ref !in cycles && UpsertCycle(cycles, ref, m, events).Some?
    ensures var r := UpsertCycle(cycles, ref, m, events).value;
            ref in r && FirstColumns(r[ref], events) && r[ref].mandate == m
  {
    var s := Sorted(events);
    var row := UpsertCycle(cycles, ref, m, events);
    SortedFacts(events);
    DatedSorted(events);
    HeadIsFirst(s, _ => true);
    FirstOfSorted(events, s[0], _ => true);
    assert forall e :: e in events ==> s[0].occurredAt <= e.occurredAt;
    FirstBilled(s);
    var b :| FirstOf(s, b, Billed) && b.nextBilling == Billing(s);
    FirstOfSorted(events, b, Billed);
    FirstPriced(s);
    if a :| FirstOf(s, a, Priced) && a.amount == Some(FirstAmount(s)) { FirstOfSorted(events, a, Priced); }
  }

  lemma {:induction false} WriteCyclesInserts(
    w: Written, m: MandateId, events: seq<Event>, refs: seq<CycleId>, c: CycleId)
    requires forall i :: 0 <= i < |refs| ==> ForCycle(events, refs[i]) != []
    requires Text.Ascending(refs) && WriteCycles(w, m, events, refs).Some? && c !in w.cycles
    requires c in WriteCycles(w, m, events, refs).value.cycles
    ensures FirstColumns(WriteCycles(w, m, events, refs).value.cycles[c], ForCycle(events, c))
    decreases |refs|
  {
    if refs != [] {
      var mine := ForCycle(events, refs[0]);
      var cycles := UpsertCycle(w.cycles, refs[0], m, mine).value;
      var actions := if ProjectCycle(mine).state in CYCLE_PAID then CancelPending(w.actions, refs[0]) else w.actions;
      var rest := Written(cycles, actions);
      UpsertShape(w.cycles, refs[0], m, mine);
      if c in cycles {
        NewRowColumns(w.cycles, c, m, mine);
        WriteCyclesFacts(rest, m, events, refs[1..]);
        SameFirstColumns(cycles[c], WriteCycles(rest, m, events, refs[1..]).value.cycles[c], mine);
      } else {
        WriteCyclesInserts(rest, m, events, refs[1..], c);
      }
    }
  }

  lemma SameFirstColumns(a: Cycle, b: Cycle, events: seq<Event>)
    requires FirstColumns(a, events) && SameIdentity(b, a)
    ensures FirstColumns(b, events)
  {}

  /** A cycle that a projection inserts takes its due instant, deadline and amount from the first events that tell them. */
  lemma InsertsExactly(db: Db, m: MandateId, events: seq<Event>, c: CycleId)
    requires ApplyMandate(db, m, events).Some? && c !in db.cycles
    ensures var r := ApplyMandate(db, m, events).value.cycles;
            && (c in r <==> Names(events, c) && Dated(ForCycle(events, c)))
            && (c in r ==> r[c].mandate == m && FirstColumns(r[c], ForCycle(events, c)))
  {
    if events != [] {
      RefsAreNamed(events);
      SortedRefsFacts(events);
      ApplyMandateFacts(db, m, events);
      if c in ApplyMandate(db, m, events).value.cycles {
        WriteCyclesInserts(Written(db.cycles, db.actions), m, events, SortedRefs(events), c);
      }
    }
  }

  // ---------------------------------------------------------------- billing sequence numbers

  /** A mandate's billing sequence: its cycles are numbered 1..n without gap or repetition. */
  ghost predicate Dense(cycles: map<CycleId, Cycle>, m: MandateId) {
    && (forall c :: c in CyclesOf(cycles, m) ==> 1 <= cycles[c].seqNo <= |CyclesOf(cycles, m)|)
    && (forall c, d :: c in CyclesOf(cycles, m) && d in CyclesOf(cycles, m) && cycles[c].seqNo == cycles[d].seqNo ==> c == d)
  }

  /** With n numbers in 1..n and no repetition, the greatest of them is n. */
  lemma DenseGreatest(cycles: map<CycleId, Cycle>, m: MandateId)
    requires Dense(cycles, m)
    ensures NextSeq(cycles, m) == |CyclesOf(cycles, m)| + 1
  {
    var mine := CyclesOf(cycles, m);
    var seqs := set c | c in CyclesOf(cycles, m) :: cycles[c].seqNo;
    var g := Greatest(seqs);
    forall c | c in mine ensures cycles[c].seqNo <= g {
      assert cycles[c].seqNo in seqs;
    }
    InjectionBound(mine, map c | c in mine :: cycles[c].seqNo, g);
  }

  lemma DenseAfterUpsert(cycles: map<CycleId, Cycle>, ref: CycleId, m: MandateId, events: seq<Event>, k: MandateId)
    requires events != [] && UpsertCycle(cycles, ref, m, events).Some?
    requires Dense(cycles, k) && Dense(cycles, m)
    ensures Dense(UpsertCycle(cycles, ref, m, events).value, k)
  {
    var r := UpsertCycle(cycles, ref, m, events).value;
    if ref in cycles {
      DenseFrame(cycles, r, k);
    } else if ref in r && k == m {
      DenseGreatest(cycles, m);
      DenseExtend(cycles, r, ref, m);
    } else {
      DenseFrame(cycles, r, k);
    }
  }

  lemma DenseFrame(a: map<CycleId, Cycle>, b: map<CycleId, Cycle>, k: MandateId)
    requires Dense(a, k)
    requires forall c :: c in a ==> c in b && b[c].mandate == a[c].mandate && b[c].seqNo == a[c].seqNo
    requires forall c :: c in b && c !in a ==> b[c].mandate != k
    ensures Dense(b, k)
  {
    assert CyclesOf(a, k) == CyclesOf(b, k);
  }

  lemma DenseExtend(a: map<CycleId, Cycle>, b: map<CycleId, Cycle>, ref: CycleId, k: MandateId)
    requires Dense(a, k) && ref !in a && ref in b && b == a[ref := b[ref]]
    requires b[ref].mandate == k && b[ref].seqNo == |CyclesOf(a, k)| + 1
    ensures Dense(b, k)
  {
    assert CyclesOf(b, k) == CyclesOf(a, k) + {ref};
  }

  lemma {:induction false} WriteCyclesDense(w: Written, m: MandateId, events: seq<Event>, refs: seq<CycleId>, k: MandateId)
    requires forall i :: 0 <= i < |refs| ==> ForCycle(events, refs[i]) != []
    requires WriteCycles(w, m, events, refs).Some?
    requires Dense(w.cycles, k) && Dense(w.cycles, m)
    ensures Dense(WriteCycles(w, m, events, refs).value.cycles, k)
    decreases |refs|
  {
    if refs != [] {
      var mine := ForCycle(events, refs[0]);
      var cycles := UpsertCycle(w.cycles, refs[0], m, mine).value;
      var actions := if ProjectCycle(mine).state in CYCLE_PAID then CancelPending(w.actions, refs[0]) else w.actions;
      DenseAfterUpsert(w.cycles, refs[0], m, mine, k);
      DenseAfterUpsert(w.cycles, refs[0], m, mine, m);
      WriteCyclesDense(Written(cycles, actions), m, events, refs[1..], k);
    }
  }

  // ---------------------------------------------------------------- one projection, summed up

  /**
   * What one projection does to the stored rows: identities and sequence numbers never change, every
   * dated cycle the mandate's events name is rewritten to their projection, and nothing else moves.
   */
  lemma ApplyMandateFacts(db: Db, m: MandateId, events: seq<Event>)
    requires events != [] && ApplyMandate(db, m, events).Some?
    ensures var r := ApplyMandate(db, m, events).value;
            && r == db.(mandates := db.mandates[m := MandateOf(events)], cycles := r.cycles, actions := r.actions)
            && Rewrites(db.cycles, r.cycles, m, events, SortedRefs(events))
            && forall c :: c in SortedRefs(events) <==> Names(events, c)
  {
    SortedRefsFacts(events);
    RefsAreNamed(events);
    WriteCyclesFacts(Written(db.cycles, db.actions), m, events, SortedRefs(events));
  }

  lemma ApplyMandateDense(db: Db, m: MandateId, events: seq<Event>, k: MandateId)
    requires ApplyMandate(db, m, events).Some?
    requires Dense(db.cycles, k) && Dense(db.cycles, m)
    ensures Dense(ApplyMandate(db, m, events).value.cycles, k)
  {
    if events != [] {
      RefsAreNamed(events);
      WriteCyclesDense(Written(db.cycles, db.actions), m, events, SortedRefs(events), k);
    }
  }

  /**
   * Exactly when one projection keeps a stored payment: the mandate's own events do not name the
   * cycle, or carry no date for it, or hold a success for it. The other case needs a cycle that the
   * events of two mandates name.
   */
  lemma PaymentSurvivesExactlyWhen(db: Db, m: MandateId, events: seq<Event>, c: CycleId)
    requires c in db.cycles && db.cycles[c].state in CYCLE_PAID
    requires ApplyMandate(db, m, events).Some?
    ensures c in ApplyMandate(db, m, events).value.cycles
    ensures ApplyMandate(db, m, events).value.cycles[c].state in CYCLE_PAID <==>
            || !Names(events, c)
            || !Dated(ForCycle(events, c))
            || exists e :: e in events && e.cycleRef == Some(c) && IsSuccess(e)
  {
    if events != [] {
      CycleAfter(db, m, events, c);
      ForCycleFacts(events, c);
      PaidExactlyWhen(ForCycle(events, c));
    }
  }

  /** One cycle after one projection: rewritten if its mandate's events name and date it, else as it was. */
  lemma CycleAfter(db: Db, m: MandateId, events: seq<Event>, c: CycleId)
    requires c in db.cycles && events != [] && ApplyMandate(db, m, events).Some?
    ensures var r := ApplyMandate(db, m, events).value.cycles;
            && c in r
            && (if Names(events, c) && Dated(ForCycle(events, c)) then Matches(r[c], ProjectCycle(ForCycle(events, c)))
                else r[c] == db.cycles[c])
  {
    ApplyMandateFacts(db, m, events);
  }

  /** The events name a dated cycle with more distinct failures than any rail's budget. */
  ghost predicate Overspent(events: seq<Event>, c: CycleId) {
    Names(events, c) && Dated(ForCycle(events, c)) && ProjectCycle(ForCycle(events, c)).attemptsUsed > ATTEMPT_BUDGET
  }

  ghost predicate StandardBudgets(cycles: map<CycleId, Cycle>) {
    forall c :: c in cycles ==> cycles[c].budget == ATTEMPT_BUDGET
  }

  /** A fifth distinct failure aborts the projection of its mandate, whatever the tables hold. */
  lemma FifthFailureAborts(db: Db, m: MandateId, events: seq<Event>, c: CycleId)
    requires Overspent(events, c)
    ensures ApplyMandate(db, m, events).None?
  {
    RefsAreNamed(events);
    SortedRefsFacts(events);
    AbortsAt(Written(db.cycles, db.actions), m, events, SortedRefs(events), c);
  }

  /** And nothing else does: with the rails' budgets, the projection aborts exactly for an overspent cycle. */
  lemma AbortsExactly(db: Db, m: MandateId, events: seq<Event>)
    requires StandardBudgets(db.cycles)
    ensures ApplyMandate(db, m, events).None? <==> exists c :: Overspent(events, c)
    ensures ApplyMandate(db, m, events).Some? ==> StandardBudgets(ApplyMandate(db, m, events).value.cycles)
  {
    if c :| Overspent(events, c) {
      FifthFailureAborts(db, m, events, c);
    } else if events != [] {
      RefsAreNamed(events);
      SortedRefsFacts(events);
      CommitsThrough(Written(db.cycles, db.actions), m, events, SortedRefs(events));
    }
  }

  lemma {:induction false} CommitsThrough(w: Written, m: MandateId, events: seq<Event>, refs: seq<CycleId>)
    requires forall i :: 0 <= i < |refs| ==> ForCycle(events, refs[i]) != []
    requires StandardBudgets(w.cycles) && forall c :: c in refs ==> Names(events, c) && !Overspent(events, c)
    ensures WriteCycles(w, m, events, refs).Some? && StandardBudgets(WriteCycles(w, m, events, refs).value.cycles)
    decreases |refs|
  {
    if refs != [] {
      var mine := ForCycle(events, refs[0]);
      assert refs == [refs[0]] + refs[1..];
      DatedSorted(mine);
      var cycles := UpsertCycle(w.cycles, refs[0], m, mine);
      assert refs[0] in refs && !Overspent(events, refs[0]);
      assert cycles.Some?;
      UpsertShape(w.cycles, refs[0], m, mine);
      var actions := if ProjectCycle(mine).state in CYCLE_PAID then CancelPending(w.actions, refs[0]) else w.actions;
      CommitsThrough(Written(cycles.value, actions), m, events, refs[1..]);
    }
  }

  lemma {:induction false} AbortsAt(w: Written, m: MandateId, events: seq<Event>, refs: seq<CycleId>, c: CycleId)
    requires forall i :: 0 <= i < |refs| ==> ForCycle(events, refs[i]) != []
    requires c in refs && Dated(ForCycle(events, c)) && ProjectCycle(ForCycle(events, c)).attemptsUsed > ATTEMPT_BUDGET
    ensures WriteCycles(w, m, events, refs).None?
    decreases |refs|
  {
    var mine := ForCycle(events, refs[0]);
    DatedSorted(mine);
    var cycles := UpsertCycle(w.cycles, refs[0], m, mine);
    if cycles.Some? {
      var actions := if ProjectCycle(mine).state in CYCLE_PAID then CancelPending(w.actions, refs[0]) else w.actions;
      assert refs == [refs[0]] + refs[1..];
      AbortsAt(Written(cycles.value, actions), m, events, refs[1..], c);
    }
  }
}
