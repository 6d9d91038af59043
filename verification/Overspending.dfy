/**
 * What a cycle with more distinct failures than the rail's budget does to the projectors: the mandate that names
 * it is never projected again, and every batch that takes one of its later events is rolled back whole.
 */
module Overspending {
  import opened Common
  import opened States
  import opened Projection
  import opened Tables
  import opened Projector
  import opened Convergence
  import opened Registration

  // ---------------------------------------------------------------- more events never cure it

  ghost predicate UniqueIds(log: seq<Event>) {
    forall i, j :: 0 <= i < j < |log| ==> log[i].id != log[j].id
  }

  lemma UniqueIsConsistent(log: seq<Event>, n: nat, m: MandateId)
    requires UniqueIds(log) && n <= |log|
    ensures Consistent(OfMandate(log[..n], m))
  {
    var mine := OfMandate(log[..n], m);
    OfMandateFacts(log[..n], m);
    forall i, j | 0 <= i < |mine| && 0 <= j < |mine| && mine[i].id == mine[j].id ensures mine[i] == mine[j] {
      assert mine[i] in log && mine[j] in log;
    }
  }

  ghost function FailureIds(events: seq<Event>, c: CycleId): set<string> {
    set e | e in events && e.cycleRef == Some(c) && e.kind == PaymentFailed :: e.id
  }

  lemma FailuresCounted(events: seq<Event>, c: CycleId)
    requires Consistent(events)
    ensures ProjectCycle(ForCycle(events, c)).attemptsUsed == |FailureIds(events, c)|
  {
    var mine := ForCycle(events, c);
    ForCycleFacts(events, c);
    forall i, j | 0 <= i < |mine| && 0 <= j < |mine| && mine[i].id == mine[j].id ensures mine[i] == mine[j] {
      assert mine[i] in events && mine[j] in events;
    }
    CycleMeaning(mine);
    assert FailureIds(events, c) == set e | e in mine && e.kind == PaymentFailed :: e.id;
  }

  lemma {:induction false} SubsetSmaller<T>(a: set<T>, b: set<T>)
    requires a <= b
    ensures |a| <= |b|
    decreases |a|
  {
    if a != {} {
      var x :| x in a;
      SubsetSmaller(a - {x}, b - {x});
    }
  }

  lemma OverspentStays(a: seq<Event>, b: seq<Event>, c: CycleId)
    requires Overspent(a, c) && Consistent(a) && Consistent(b) && forall e :: e in a ==> e in b
    ensures Overspent(b, c)
  {
    NamesMonotone(a, b, c);
    FailuresCounted(a, c);
    FailuresCounted(b, c);
    SubsetSmaller(FailureIds(a, c), FailureIds(b, c));
  }

  lemma OverspentLater(log: seq<Event>, m: MandateId, a: nat, b: nat, c: CycleId)
    requires UniqueIds(log) && a <= b <= |log| && Overspent(OfMandate(log[..a], m), c)
    ensures Overspent(OfMandate(log[..b], m), c)
  {
    UniqueIsConsistent(log, a, m);
    UniqueIsConsistent(log, b, m);
    OfMandatePrefix(log, m, a, b);
    OverspentStays(OfMandate(log[..a], m), OfMandate(log[..b], m), c);
  }

  // ---------------------------------------------------------------- when a batch commits

  ghost predicate OverspentRead(log: seq<Event>, r: Read)
    requires r.upTo <= |log|
  {
    exists c :: Overspent(OfMandate(log[..r.upTo], r.mandate), c)
  }

  /** A batch aborts if one of its mandates is overspent, whichever; with the rails' budgets, for nothing else. */
  lemma {:induction false} BatchAborts(db: Db, log: seq<Event>, done: seq<Read>)
    requires StandardBudgets(db.cycles) && forall r :: r in done ==> r.upTo <= |log|
    ensures ApplyAll(db, log, done).None? <==> exists i :: 0 <= i < |done| && OverspentRead(log, done[i])
    ensures ApplyAll(db, log, done).Some? ==> StandardBudgets(ApplyAll(db, log, done).value.cycles)
    decreases |done|
  {
    if done != [] {
      var events := OfMandate(log[..done[0].upTo], done[0].mandate);
      var first := ApplyMandate(db, done[0].mandate, events);
      AbortsExactly(db, done[0].mandate, events);
      if first.Some? {
        BatchAborts(first.value, log, done[1..]);
        assert forall i :: 0 < i < |done| ==> done[i] == done[1..][i - 1];
      }
    }
  }

  lemma StepKeepsRows(w: World, s: Step)
    ensures UniqueIds(w.log) ==> UniqueIds(Next(w, s).log)
    ensures StandardBudgets(w.db.cycles) ==> StandardBudgets(Next(w, s).db.cycles)
  {
    if s.Commit? && Enabled(w, s) && StandardBudgets(w.db.cycles) {
      BatchAborts(w.db, w.log, w.txns[s.worker].done);
    }
  }

  lemma {:induction false} RowsAlways(w: World, steps: seq<Step>)
    requires UniqueIds(w.log) && StandardBudgets(w.db.cycles)
    ensures UniqueIds(Run(w, steps).log) && StandardBudgets(Run(w, steps).db.cycles)
    decreases steps
  {
    if steps != [] {
      StepKeepsRows(w, steps[0]);
      RowsAlways(Next(w, steps[0]), steps[1..]);
    }
  }

  /**
   * In every run a batch about to commit is lost exactly when it has read an overspent cycle, of any one of its
   * mandates; it then leaves the tables and all its events as they were.
   */
  lemma BatchLostExactly(steps: seq<Step>, x: WorkerId)
    requires Enabled(Run(START, steps), Commit(x))
    ensures var w := Run(START, steps);
            var v := Next(w, Commit(x));
            && v.txns == w.txns - {x}
            && (if exists i :: 0 <= i < |w.txns[x].done| && OverspentRead(w.log, w.txns[x].done[i])
                then v.db == w.db && v.processed == w.processed && v.seen == w.seen
                else v.processed == w.processed + w.txns[x].claimed)
  {
    var w := Run(START, steps);
    RowsAlways(START, steps);
    BatchAborts(w.db, w.log, w.txns[x].done);
  }

  // ---------------------------------------------------------------- the mandate that never drains

  /**
   * Event `k` of a registered mandate is unprocessed, its events up to the `j`-th of the log overspend cycle `c`, and
   * whoever has claimed `k` either still has to read the mandate or has read it that far.
   */
  ghost predicate Stuck(w: World, m: MandateId, k: nat, j: nat, c: CycleId) {
    && m in w.db.mandates && About(w.log, k, m) && k !in w.processed
    && j < |w.log| && Overspent(OfMandate(w.log[..j + 1], m), c)
    && forall x :: x in w.txns && k in w.txns[x].claimed ==> m in w.txns[x].todo || HasRead(w.txns[x], j, m)
  }

  lemma StuckBatchAborts(w: World, x: WorkerId, m: MandateId, k: nat, j: nat, c: CycleId)
    requires UniqueIds(w.log) && StandardBudgets(w.db.cycles) && Stuck(w, m, k, j, c)
    requires Enabled(w, Commit(x)) && HasRead(w.txns[x], j, m)
    ensures !CanCommit(w, x)
  {
    var r :| r in w.txns[x].done && r.mandate == m && j < r.upTo;
    OverspentLater(w.log, m, j + 1, r.upTo, c);
    assert OverspentRead(w.log, r);
    BatchAborts(w.db, w.log, w.txns[x].done);
  }

  lemma StuckAfterTake(w: World, x: WorkerId, m: MandateId, k: nat, j: nat, c: CycleId)
    requires Stuck(w, m, k, j, c) && Enabled(w, Take(x))
    ensures Stuck(Next(w, Take(x)), m, k, j, c)
  {
    var t, u := w.txns[x], Taken(w, w.txns[x]);
    assert t.todo == [t.todo[0]] + t.todo[1..];
    assert forall r :: r in t.done ==> r in u.done;
    if t.todo[0] == m { assert Read(m, |w.log|) in u.done; }
    if k in t.claimed && m !in t.todo {
      var r :| r in t.done && r.mandate == m && j < r.upTo;
      assert r in u.done;
    }
  }

  lemma StuckAfterArrival(w: World, e: Event, m: MandateId, k: nat, j: nat, c: CycleId)
    requires Stuck(w, m, k, j, c)
    ensures Stuck(w.(log := w.log + [e]), m, k, j, c)
  {
    assert (w.log + [e])[..j + 1] == w.log[..j + 1];
  }

  lemma CommitKeepsStuck(w: World, v: World, x: WorkerId, m: MandateId, k: nat, j: nat, c: CycleId)
    requires Stuck(w, m, k, j, c) && Committed(w, v, x) && w.txns[x].todo == [] && !HasRead(w.txns[x], j, m)
    ensures Stuck(v, m, k, j, c)
  {}

  lemma StepKeepsStuck(w: World, s: Step, m: MandateId, k: nat, j: nat, c: CycleId)
    requires Inv(w) && UniqueIds(w.log) && StandardBudgets(w.db.cycles) && Stuck(w, m, k, j, c)
    ensures Stuck(Next(w, s), m, k, j, c)
  {
    if Enabled(w, s) {
      match s
      case Arrive(e) => StuckAfterArrival(w, e, m, k, j, c);
      case Begin(x, ids, todo) => assert k in ids ==> NamedBy(w.log, ids, m);
      case Take(x) => StuckAfterTake(w, x, m, k, j, c);
      case Commit(x) =>
        if HasRead(w.txns[x], j, m) { StuckBatchAborts(w, x, m, k, j, c); }
        if CanCommit(w, x) { CommitFrame(w, x); CommitKeepsStuck(w, Next(w, s), x, m, k, j, c); }
      case _ =>
    }
  }

  lemma {:induction false} StuckAlways(w: World, steps: seq<Step>, m: MandateId, k: nat, j: nat, c: CycleId)
    requires Inv(w) && UniqueIds(w.log) && StandardBudgets(w.db.cycles) && Stuck(w, m, k, j, c)
    ensures Stuck(Run(w, steps), m, k, j, c)
    decreases steps
  {
    if steps != [] {
      StepKeepsStuck(w, steps[0], m, k, j, c);
      StepKeepsInv(w, steps[0]);
      StepKeepsRows(w, steps[0]);
      StuckAlways(Next(w, steps[0]), steps[1..], m, k, j, c);
    }
  }

  lemma StuckOnArrival(r: World, e: Event, m: MandateId, c: CycleId)
    requires Inv(r) && m in r.db.mandates && e.mandate == Some(m) && Enabled(r, Arrive(e))
    requires Overspent(OfMandate(r.log + [e], m), c)
    ensures Stuck(Next(r, Arrive(e)), m, |r.log|, |r.log|, c)
  {
    assert (r.log + [e])[..|r.log| + 1] == r.log + [e];
    forall x | x in r.txns ensures |r.log| !in r.txns[x].claimed { assert TxnOk(r, x); }
  }

  /**
   * Once an event reaches a registered mandate whose events, with it, overspend a cycle, that event is never
   * stamped as processed and the mandate never drains, whatever projectors do and whatever arrives afterwards.
   */
  lemma OverspentNeverDrains(before: seq<Step>, e: Event, after: seq<Step>, m: MandateId, c: CycleId)
    requires m in Run(START, before).db.mandates && e.mandate == Some(m) && Enabled(Run(START, before), Arrive(e))
    requires Overspent(OfMandate(Run(START, before).log + [e], m), c)
    ensures var r := Run(START, before);
            var w := Run(Next(r, Arrive(e)), after);
            |r.log| < |w.log| && w.log[|r.log|] == e && |r.log| !in w.processed && !Drained(w, m)
  {
    var r := Run(START, before);
    var v := Next(r, Arrive(e));
    InvAlways(START, before);
    RowsAlways(START, before);
    StuckOnArrival(r, e, m, c);
    StepKeepsInv(r, Arrive(e));
    StepKeepsRows(r, Arrive(e));
    StuckAlways(v, after, m, |r.log|, |r.log|, c);
    LogGrows(v, after);
  }

  // ---------------------------------------------------------------- the whole log at once

  /** What a committed projection has read overspends no cycle. */
  ghost predicate SeenInBudget(log: seq<Event>, seen: map<MandateId, nat>) {
    forall m :: m in seen ==> seen[m] <= |log| && forall c :: !Overspent(OfMandate(log[..seen[m]], m), c)
  }

  lemma CommitSeesInBudget(w: World, x: WorkerId)
    requires SeenInBudget(w.log, w.seen) && StandardBudgets(w.db.cycles) && CanCommit(w, x)
    requires forall i, j :: 0 <= i < j < |w.txns[x].done| ==> w.txns[x].done[i].mandate != w.txns[x].done[j].mandate
    ensures SeenInBudget(w.log, SeenAfter(w.seen, w.txns[x].done))
  {
    var done := w.txns[x].done;
    var seen := SeenAfter(w.seen, done);
    SeenAfterFacts(w.seen, done);
    BatchAborts(w.db, w.log, done);
    forall m | m in seen ensures seen[m] <= |w.log| && forall c :: !Overspent(OfMandate(w.log[..seen[m]], m), c) {
      if i :| 0 <= i < |done| && done[i].mandate == m {
        assert !OverspentRead(w.log, done[i]);
        assert done[i] in done;
      } else {
        assert forall r :: r in done ==> r.mandate != m;
      }
    }
  }

  lemma {:induction false} SeenInBudgetAlways(w: World, steps: seq<Step>)
    requires Inv(w) && UniqueIds(w.log) && StandardBudgets(w.db.cycles) && SeenInBudget(w.log, w.seen)
    ensures SeenInBudget(Run(w, steps).log, Run(w, steps).seen)
    decreases steps
  {
    if steps != [] {
      StepKeepsInv(w, steps[0]);
      StepKeepsRows(w, steps[0]);
      StepSeesInBudget(w, steps[0]);
      SeenInBudgetAlways(Next(w, steps[0]), steps[1..]);
    }
  }

  lemma ArrivalInBudget(log: seq<Event>, e: Event, seen: map<MandateId, nat>)
    requires SeenInBudget(log, seen)
    ensures SeenInBudget(log + [e], seen)
  {
    forall m | m in seen ensures (log + [e])[..seen[m]] == log[..seen[m]] {}
  }

  lemma StepSeesInBudget(w: World, s: Step)
    requires TxnsOk(w) && StandardBudgets(w.db.cycles) && SeenInBudget(w.log, w.seen)
    ensures SeenInBudget(Next(w, s).log, Next(w, s).seen)
  {
    if s.Commit? && CanCommit(w, s.worker) {
      assert TxnOk(w, s.worker);
      CommitSeesInBudget(w, s.worker);
    } else if s.Arrive? {
      ArrivalInBudget(w.log, s.event, w.seen);
    }
  }

  /** In every run, a mandate registered in time whose log overspends a cycle is not drained. */
  lemma OverspentIsNotDrained(before: seq<Step>, s: MandateState, after: seq<Step>, m: MandateId, c: CycleId)
    requires m !in Run(START, before).db.mandates
    requires var w := Run(Next(Run(START, before), AddMandate(m, s)), after);
             InTime(Run(START, before), m, w.log) && Overspent(OfMandate(w.log, m), c)
    ensures !Drained(Run(Next(Run(START, before), AddMandate(m, s)), after), m)
  {
    var steps := before + ([AddMandate(m, s)] + after);
    var w := Run(Next(Run(START, before), AddMandate(m, s)), after);
    RunSplit(START, before, [AddMandate(m, s)] + after);
    assert ([AddMandate(m, s)] + after)[1..] == after;
    assert Run(START, steps) == w;
    if Drained(w, m) {
      SeenWhenInTime(before, s, after, m);
      InvAlways(START, steps);
      SeenInBudgetAlways(START, steps);
      DrainedIsSeen(w, m);
    }
  }

  // ---------------------------------------------------------------- one projector, oldest first

  /** The claim statement with nobody else about: of the first `n` events, the oldest unprocessed, up to a batch. */
  function Oldest(processed: set<nat>, batch: nat, n: nat): set<nat> {
    if n == 0 then {}
    else
      var before := Oldest(processed, batch, n - 1);
      if |before| < batch && n - 1 !in processed then before + {n - 1} else before
  }

  lemma {:induction false} OldestMeaning(processed: set<nat>, batch: nat, n: nat)
    ensures var p := Oldest(processed, batch, n);
            && |p| <= batch && (forall i :: i in p ==> i < n && i !in processed)
            && (forall i :: 0 <= i < n && i !in processed && i !in p ==> |p| == batch && forall k :: k in p ==> k < i)
    decreases n
  {
    if n > 0 { OldestMeaning(processed, batch, n - 1); }
  }

  lemma {:induction false} OldestStays(processed: set<nat>, batch: nat, n: nat, more: nat)
    requires n <= more
    ensures Oldest(processed, batch, n) <= Oldest(processed, batch, more)
    decreases more
  {
    if n < more { OldestStays(processed, batch, n, more - 1); }
  }

  /** The only projector of the tenant begins a turn when its last one is over, and claims oldest first. */
  ghost predicate Lone(w: World, s: Step, batch: nat) {
    s.Begin? ==> w.txns == map[] && s.claimed == Oldest(w.processed, batch, |w.log|)
  }

  ghost predicate RunLone(w: World, steps: seq<Step>, batch: nat)
    decreases steps
  {
    steps == [] || (Lone(w, steps[0], batch) && RunLone(Next(w, steps[0]), steps[1..], batch))
  }

  /** No projection has been written since: registrations and the executor are all that has touched the tables. */
  ghost predicate NothingProjected(a: World, b: World) {
    && b.processed == a.processed && b.seen == a.seen
    && (forall m :: m in a.db.mandates ==> m in b.db.mandates && b.db.mandates[m] == a.db.mandates[m])
    && b.db.cycles.Keys == a.db.cycles.Keys
    && forall c :: c in a.db.cycles ==>
         b.db.cycles[c] == a.db.cycles[c].(used := b.db.cycles[c].used, pdnSentAt := b.db.cycles[c].pdnSentAt)
  }

  /** Every turn under way, and the next one, has the stuck event in its batch. */
  ghost predicate Jammed(w: World, m: MandateId, k: nat, j: nat, c: CycleId, batch: nat) {
    && Stuck(w, m, k, j, c) && k in Oldest(w.processed, batch, |w.log|)
    && forall x :: x in w.txns ==> k in w.txns[x].claimed
  }

  lemma JammedCannotCommit(w: World, x: WorkerId, m: MandateId, k: nat, j: nat, c: CycleId, batch: nat)
    requires UniqueIds(w.log) && StandardBudgets(w.db.cycles) && Jammed(w, m, k, j, c, batch)
    ensures !CanCommit(w, x)
  {
    if Enabled(w, Commit(x)) { StuckBatchAborts(w, x, m, k, j, c); }
  }

  lemma StepProjectsNothing(w: World, s: Step, m: MandateId, k: nat, j: nat, c: CycleId, batch: nat)
    requires UniqueIds(w.log) && StandardBudgets(w.db.cycles) && Jammed(w, m, k, j, c, batch)
    ensures NothingProjected(w, Next(w, s))
  {
    if s.Commit? { JammedCannotCommit(w, s.worker, m, k, j, c, batch); }
  }

  lemma StepStaysJammed(w: World, s: Step, m: MandateId, k: nat, j: nat, c: CycleId, batch: nat)
    requires Inv(w) && UniqueIds(w.log) && StandardBudgets(w.db.cycles) && Jammed(w, m, k, j, c, batch) && Lone(w, s, batch)
    ensures Jammed(Next(w, s), m, k, j, c, batch)
  {
    StepKeepsStuck(w, s, m, k, j, c);
    StepProjectsNothing(w, s, m, k, j, c, batch);
    if s.Arrive? { OldestStays(w.processed, batch, |w.log|, |w.log| + 1); }
    if s.Commit? { JammedCannotCommit(w, s.worker, m, k, j, c, batch); }
    ClaimsCarryOver(w, s, k);
  }

  lemma ClaimsCarryOver(w: World, s: Step, k: nat)
    requires forall x :: x in w.txns ==> k in w.txns[x].claimed
    requires s.Begin? ==> k in s.claimed
    ensures forall x :: x in Next(w, s).txns ==> k in Next(w, s).txns[x].claimed
  {}

  lemma {:induction false} JammedForever(w: World, steps: seq<Step>, m: MandateId, k: nat, j: nat, c: CycleId, batch: nat)
    requires Inv(w) && UniqueIds(w.log) && StandardBudgets(w.db.cycles)
    requires Jammed(w, m, k, j, c, batch) && RunLone(w, steps, batch)
    ensures NothingProjected(w, Run(w, steps))
    decreases steps
  {
    if steps != [] {
      var v := Next(w, steps[0]);
      StepProjectsNothing(w, steps[0], m, k, j, c, batch);
      StepStaysJammed(w, steps[0], m, k, j, c, batch);
      StepKeepsInv(w, steps[0]);
      StepKeepsRows(w, steps[0]);
      JammedForever(v, steps[1..], m, k, j, c, batch);
      ProjectedTransitive(w, v, Run(v, steps[1..]));
    }
  }

  lemma ProjectedTransitive(a: World, b: World, c: World)
    requires NothingProjected(a, b) && NothingProjected(b, c)
    ensures NothingProjected(a, c)
  {}

  /**
   * A tenant's only projector, claiming oldest first, commits nothing ever again once one unprocessed event of a
   * registered mandate with an overspent cycle is among the oldest batch: not for this mandate, not for any other,
   * whatever arrives, however often it is restarted.
   */
  lemma LoneProjectorStalls(before: seq<Step>, after: seq<Step>, batch: nat, m: MandateId, k: nat, c: CycleId)
    requires var r := Run(START, before);
             && r.txns == map[] && m in r.db.mandates && About(r.log, k, m)
             && k in Oldest(r.processed, batch, |r.log|) && Overspent(OfMandate(r.log, m), c)
    requires RunLone(Run(START, before), after, batch)
    ensures NothingProjected(Run(START, before), Run(Run(START, before), after))
  {
    var r := Run(START, before);
    InvAlways(START, before);
    RowsAlways(START, before);
    OldestMeaning(r.processed, batch, |r.log|);
    assert r.log[..|r.log| - 1 + 1] == r.log;
    JammedForever(r, after, m, k, |r.log| - 1, c, batch);
  }
}
